/** The scenarios of the repository's tests, replayed on the model. Each
    scenario starts from a fresh object loaded from the test archive: the
    side file `access_rights.txt` (rights `test.txt r`, `subdir rw`), a file
    `test.txt` and an empty folder `subdir/`. */
module Session {
  import opened Options
  import opened Paths
  import opened Tree
  import opened Builder
  import opened VirtualFs

  /** The tree the test archive loads into. */
  const FixtureTree: Level := map["test.txt" := File(Some("r")), "subdir" := Folder(Some("rw"), map[])]

  /** From the root, a name leads to `/name/`, and `..` from there back to `/`. */
  lemma RootChild(name: string)
    requires IsSegment(name)
    ensures Normalize("/", name) == Render([name])
    ensures Normalize(Render([name]), "..") == "/"
    ensures Render([name]) == "/" + name + "/"
  {
    assert Render([]) == "/" && [] + [name] == [name] && [name][1..] == [];
    NormalizeChild([], name);
    NormalizeParent([name]);
  }

  lemma LookupRootChild(fs: Level, name: string)
    requires IsSegment(name)
    ensures Lookup(fs, Render([name])) == Walk(fs, [name])
  {
    LookupRender(fs, [name]);
  }

  lemma SubdirSpelling()
    ensures "/" + "subdir" + "/" == "/subdir/"
  {
  }

  /** `subdir` from the root is `/subdir/`, an empty folder, and `..` from
      there is the root. */
  lemma SubdirPaths()
    ensures Normalize("/", "subdir") == "/subdir/"
    ensures Normalize("/subdir/", "..") == "/"
    ensures Lookup(FixtureTree, "/subdir/") == Some(map[])
  {
    assert IsSegment("subdir");
    RootChild("subdir");
    SubdirSpelling();
    LookupRootChild(FixtureTree, "subdir");
    assert ["subdir"][1..] == [];
  }

  /** A name the archive does not hold is not found from the root. */
  lemma MissingPath()
    ensures Lookup(FixtureTree, Normalize("/", "non_existing_dir")).None?
  {
    assert IsSegment("non_existing_dir");
    assert |"non_existing_dir"| == 16;
    assert "non_existing_dir" !in FixtureTree;
    MissingChild(FixtureTree, "non_existing_dir");
  }

  lemma MissingChild(fs: Level, name: string)
    requires IsSegment(name) && name !in fs
    ensures Lookup(fs, Normalize("/", name)).None?
  {
    RootChild(name);
    LookupRootChild(fs, name);
  }

  /** The fixture: the object built from the test archive. */
  method SetupVfs() returns (vfs: VirtualSystem)
    ensures fresh(vfs) && vfs.Valid()
    ensures vfs.currentDir == "/" && vfs.fileStructure == FixtureTree
  {
    TestArchive();
    vfs := new VirtualSystem(["access_rights.txt", "test.txt", "subdir/"], ["test.txt r", "subdir rw"]);
  }

  method LoadZipStructure()
  {
    var vfs := SetupVfs();
    var fs := vfs.fileStructure;
    assert "test.txt" in fs && fs["test.txt"].File?;
    assert "subdir" in fs && fs["subdir"].Folder?;
  }

  method CdToExistingDirectory()
  {
    var vfs := SetupVfs();
    SubdirPaths();
    var found := vfs.Cd("subdir");
    assert found && vfs.currentDir == "/subdir/";
  }

  method CdToNonExistingDirectory()
  {
    var vfs := SetupVfs();
    var initialDir := vfs.currentDir;
    MissingPath();
    var found := vfs.Cd("non_existing_dir");
    assert !found && vfs.currentDir == initialDir;
  }

  method LsInCurrentDirectory()
  {
    var vfs := SetupVfs();
    var path, directoryDict := vfs.Ls();
    assert directoryDict == Some(FixtureTree);
    assert "test.txt" in directoryDict.value && "subdir" in directoryDict.value;
  }

  method LsInSubdirectory()
  {
    var vfs := SetupVfs();
    SubdirPaths();
    var found := vfs.Cd("subdir");
    var path, directoryDict := vfs.Ls();
    assert |directoryDict.value| == 0;
  }

  /** Going into `subdir` and back up returns to the root. */
  method CdIntoAndBack()
  {
    var vfs := SetupVfs();
    SubdirPaths();
    var found := vfs.Cd("subdir");
    found := vfs.Cd("..");
    assert found && vfs.currentDir == "/";
  }
}
