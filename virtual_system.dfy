/** The virtual filesystem object (`Virtual_System`): the tree built once
    from the archive listing and the current directory, the only state that
    changes afterwards. The archive itself is not opened here: its entry
    list (`namelist()`) and the decoded lines of `access_rights.txt` are
    passed in. */
module VirtualFs {
  import opened Options
  import opened Text
  import opened Paths
  import opened Tree
  import opened Rights
  import opened Builder

  class VirtualSystem {
    var currentDir: string
    var fileStructure: Level

    /** The current directory is normalised and names a folder of the tree. */
    ghost predicate Valid()
      reads this
    {
      IsNormal(currentDir) && Lookup(fileStructure, currentDir).Some?
    }

    /** `Virtual_System(zip_path)`: start at `/` and load the archive. The
        source raises `KeyError` from `load_zip` when an entry needs a folder
        where a file sits, so no object exists for such an archive. */
    constructor (names: seq<string>, rightsLines: seq<string>)
      requires Build(names, RightsTable(rightsLines)).Ok?
      ensures Valid()
      ensures currentDir == "/"
      ensures fileStructure == Build(names, RightsTable(rightsLines)).value
    {
      currentDir := "/";
      fileStructure := map[];
      new;
      var ok := LoadZip(names, rightsLines);
      assert Render([]) == "/";
    }

    /** The line loop of `load_access_rights`. */
    method LoadAccessRights(lines: seq<string>) returns (accessRights: Table)
      ensures accessRights == RightsTable(lines)
    {
      accessRights := map[];
      var i := 0;
      while i < |lines|
        invariant 0 <= i <= |lines|
        invariant accessRights == RightsTable(lines[..i])
      {
        var parts := Fields(lines[i]);
        if |parts| == 2 {
          accessRights := accessRights[parts[0] := parts[1]];
        }
        assert lines[..i + 1][..i] == lines[..i];
        i := i + 1;
      }
      assert lines[..|lines|] == lines;
    }

    /** `load_zip`: add every entry of the listing to the tree. It reports
        false where the source raises `KeyError`; the tree is then left as
        the entries before the failing one made it. */
    method LoadZip(names: seq<string>, rightsLines: seq<string>) returns (ok: bool)
      modifies this`fileStructure
      ensures ok == BuildFrom(old(fileStructure), names, RightsTable(rightsLines)).Ok?
      ensures ok ==> fileStructure == BuildFrom(old(fileStructure), names, RightsTable(rightsLines)).value
    {
      var rightsDict := LoadAccessRights(rightsLines);
      var i := 0;
      while i < |names|
        invariant 0 <= i <= |names|
        invariant BuildFrom(old(fileStructure), names, rightsDict) == BuildFrom(fileStructure, names[i..], rightsDict)
      {
        var objPath := names[i];
        ghost var before := fileStructure;
        assert names[i..][0] == objPath && names[i..][1..] == names[i + 1..];
        // InsertEntry skips the side file and runs the walk over the
        // entry's segments for every other entry.
        var inserted := InsertEntry(fileStructure, objPath, rightsDict);
        if inserted.Err? {
          BuildFromFails(before, names[i..], rightsDict);
          return false;
        }
        fileStructure := inserted.value;
        BuildFromStep(before, names[i..], fileStructure, rightsDict);
        i := i + 1;
      }
      assert names[i..] == [];
      ok := true;
    }

    /** `path_parser(path)`: resolve `path` against the current directory. */
    method PathParser(path: string) returns (finalPath: string)
      ensures finalPath == Normalize(currentDir, path)
      ensures IsNormal(finalPath)
    {
      var absPath := if StartsWithSlash(path) then path else currentDir + path;
      var parts := Split(absPath);
      var finalParts: seq<string> := [];
      var i := 0;
      while i < |parts|
        invariant 0 <= i <= |parts|
        invariant Retain(finalParts, parts[i..]) == Retain([], parts)
      {
        var part := parts[i];
        assert parts[i..][0] == part && parts[i..][1..] == parts[i + 1..];
        if part == "" || part == "." {
        } else if part == ".." {
          if finalParts != [] {
            finalParts := finalParts[..|finalParts| - 1];
          }
        } else {
          finalParts := finalParts + [part];
        }
        i := i + 1;
      }
      finalPath := CollapseDoubleSlash("/" + Join(finalParts) + "/");
      NormalizeShape(currentDir, path);
    }

    /** `get_dictionary_from_absolute_path(path)`: the level the path leads
        to, or None when a name on it is missing or names a file. */
    method GetDictionaryFromAbsolutePath(path: string) returns (level: Option<Level>)
      ensures level == Lookup(fileStructure, path)
    {
      if path == "/" {
        return Some(fileStructure);
      }
      var parts := Split(Strip(path));
      var currentLevel := fileStructure;
      var i := 0;
      while i < |parts|
        invariant 0 <= i <= |parts|
        invariant Walk(fileStructure, parts) == Walk(currentLevel, parts[i..])
      {
        var part := parts[i];
        assert parts[i..][0] == part && parts[i..][1..] == parts[i + 1..];
        if part in currentLevel {
          if currentLevel[part].Folder? {
            currentLevel := currentLevel[part].children;
          } else {
            return None;
          }
        } else {
          return None;
        }
        i := i + 1;
      }
      return Some(currentLevel);
    }

    /** `cd(path)`: `~` goes to `/`; otherwise move to the normalised path
        when it names a folder, and report (`found == false`) and stay put
        when it does not. */
    method Cd(path: string) returns (found: bool)
      requires Valid()
      modifies this`currentDir
      ensures Valid()
      ensures path == "~" ==> found && currentDir == "/"
      ensures path != "~" ==> found == Lookup(fileStructure, Normalize(old(currentDir), path)).Some?
      ensures path != "~" && found ==> currentDir == Normalize(old(currentDir), path)
      ensures !found ==> currentDir == old(currentDir)
    {
      if path == "~" {
        currentDir := "/";
        assert Render([]) == "/";
        return true;
      }
      var parsedPath := PathParser(path);
      var level := GetDictionaryFromAbsolutePath(parsedPath);
      if level.None? {
        found := false;
      } else {
        currentDir := parsedPath;
        found := true;
      }
    }

    /** `ls(path='.')`: the argument as given and the level the normalised
        path leads to; the default `.` always lists the current directory. */
    method Ls(path: string := ".") returns (echo: string, listing: Option<Level>)
      ensures echo == path
      ensures listing == Lookup(fileStructure, Normalize(currentDir, path))
      ensures Valid() && path == "." ==> listing == Lookup(fileStructure, currentDir) && listing.Some?
    {
      var parsedPath := PathParser(path);
      listing := GetDictionaryFromAbsolutePath(parsedPath);
      echo := path;
      if Valid() && path == "." {
        NormalizeDot(currentDir);
      }
    }
  }
}
