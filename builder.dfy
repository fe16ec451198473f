/** The tree builder (`Virtual_System.load_zip`). Each archive entry path is
    stripped of its outer slashes and split into segments, which are walked
    from the root: a segment equal to the entry's last segment of a path not
    ending in `/` writes a file at the current level (and the walk stays at
    that level), any other segment enters the folder of that name, creating
    it when absent. Entering a name that holds a file raises `KeyError` in
    the source; here that is an `Err`. */
module Builder {
  import opened Options
  import opened Text
  import opened Tree
  import opened Rights

  /** The side file, listed in the archive but never part of the tree. */
  const RightsFileName := "access_rights.txt"

  /** The source's `KeyError: 'list_f'`: a folder was needed at `name`,
      where a file already sits. */
  datatype BuildError = FileInPlaceOfFolder(name: string)

  /** The inner loop over one entry's segments, from the level the cursor
      is at. `last` is the entry's last segment and `isDir` says whether the
      entry ends in `/`. */
  function InsertParts(level: Level, parts: seq<string>, last: string, isDir: bool, table: Table)
    : Result<Level, BuildError>
    decreases parts
  {
    if parts == [] then Ok(level)
    else
      var part := parts[0];
      if part == last && !isDir then
        InsertParts(level[part := File(Get(table, part))], parts[1..], last, isDir, table)
      else
        var node := if part in level then level[part] else Folder(Get(table, part), map[]);
        if node.File? then Err(FileInPlaceOfFolder(part))
        else
          match InsertParts(node.children, parts[1..], last, isDir, table)
          case Err(e) => Err(e)
          case Ok(sub) => Ok(level[part := Folder(node.rights, sub)])
  }

  function EntryParts(objPath: string): (parts: seq<string>)
    ensures |parts| >= 1
  {
    Split(Strip(objPath))
  }

  /** One turn of the outer loop: add the entry `objPath` to the tree. */
  function InsertEntry(level: Level, objPath: string, table: Table): Result<Level, BuildError>
  {
    if objPath == RightsFileName then Ok(level)
    else
      var parts := EntryParts(objPath);
      InsertParts(level, parts, parts[|parts| - 1], EndsWithSlash(objPath), table)
  }

  /** The entries `names` added in order to `level`; the first failure aborts. */
  function BuildFrom(level: Level, names: seq<string>, table: Table): Result<Level, BuildError>
    decreases names
  {
    if names == [] then Ok(level)
    else
      match InsertEntry(level, names[0], table)
      case Err(e) => Err(e)
      case Ok(next) => BuildFrom(next, names[1..], table)
  }

  /** The tree built from the archive's entry list, starting from no entries. */
  function Build(names: seq<string>, table: Table): Result<Level, BuildError>
  {
    BuildFrom(map[], names, table)
  }

  // ---------------------------------------------------------------------
  // The side file is skipped

  function WithoutRightsFile(names: seq<string>): seq<string>
  {
    if names == [] then []
    else if names[0] == RightsFileName then WithoutRightsFile(names[1..])
    else [names[0]] + WithoutRightsFile(names[1..])
  }

  /** Listing `access_rights.txt` anywhere in the archive changes nothing. */
  lemma {:induction false} BuildSkipsRightsFile(level: Level, names: seq<string>, table: Table)
    ensures BuildFrom(level, names, table) == BuildFrom(level, WithoutRightsFile(names), table)
    decreases names
  {
    if names != [] {
      match InsertEntry(level, names[0], table)
      case Err(e) =>
      case Ok(next) =>
        BuildSkipsRightsFile(next, names[1..], table);
        if names[0] != RightsFileName {
          assert ([names[0]] + WithoutRightsFile(names[1..]))[1..] == WithoutRightsFile(names[1..]);
        }
    }
  }

  // ---------------------------------------------------------------------
  // Every node carries the rights of its bare name

  /** `node`, stored under `name`, and everything below it carry the rights
      the table gives their own names (None when the table has none). */
  predicate Labelled(node: Node, name: string, table: Table)
    decreases node
  {
    && node.rights == Get(table, name)
    && (node.Folder? ==> forall k {:trigger Labelled(node.children[k], k, table)} :: k in node.children ==> Labelled(node.children[k], k, table))
  }

  predicate LevelLabelled(level: Level, table: Table)
  {
    forall k {:trigger Labelled(level[k], k, table)} :: k in level ==> Labelled(level[k], k, table)
  }

  lemma {:induction false} InsertKeepsLabels(level: Level, parts: seq<string>, last: string, isDir: bool, table: Table)
    requires LevelLabelled(level, table)
    requires InsertParts(level, parts, last, isDir, table).Ok?
    ensures LevelLabelled(InsertParts(level, parts, last, isDir, table).value, table)
    decreases parts
  {
    if parts != [] {
      var part := parts[0];
      if part == last && !isDir {
        var next := level[part := File(Get(table, part))];
        assert LevelLabelled(next, table);
        InsertKeepsLabels(next, parts[1..], last, isDir, table);
      } else {
        var node := if part in level then level[part] else Folder(Get(table, part), map[]);
        assert Labelled(node, part, table);
        InsertKeepsLabels(node.children, parts[1..], last, isDir, table);
        var sub := InsertParts(node.children, parts[1..], last, isDir, table).value;
        assert Labelled(Folder(node.rights, sub), part, table);
      }
    }
  }

  lemma {:induction false} BuildFromKeepsLabels(level: Level, names: seq<string>, table: Table)
    requires LevelLabelled(level, table)
    requires BuildFrom(level, names, table).Ok?
    ensures LevelLabelled(BuildFrom(level, names, table).value, table)
    decreases names
  {
    if names != [] {
      var next := FirstStep(level, names, table);
      StepKeepsLabels(level, next, table);
      BuildFromKeepsLabels(next, names[1..], table);
    }
  }

  /** `next` is `level` left alone, or the result of a walk from it. */
  ghost predicate Walked(level: Level, next: Level, table: Table)
  {
    next == level || exists parts: seq<string>, last: string, isDir: bool :: InsertParts(level, parts, last, isDir, table) == Ok(next)
  }

  /** The first turn of the outer loop, named: it skips the side file or
      runs a walk, and the remaining entries then finish the build. */
  lemma FirstStep(level: Level, names: seq<string>, table: Table) returns (next: Level)
    requires names != [] && BuildFrom(level, names, table).Ok?
    ensures Walked(level, next, table)
    ensures BuildFrom(next, names[1..], table) == BuildFrom(level, names, table)
  {
    next := FirstTurn(level, names, table);
    InsertEntryCases(level, names[0], table, next);
  }

  lemma FirstTurn(level: Level, names: seq<string>, table: Table) returns (next: Level)
    requires names != [] && BuildFrom(level, names, table).Ok?
    ensures InsertEntry(level, names[0], table) == Ok(next)
    ensures BuildFrom(next, names[1..], table) == BuildFrom(level, names, table)
  {
    next := InsertEntry(level, names[0], table).value;
  }

  lemma InsertEntryCases(level: Level, objPath: string, table: Table, next: Level)
    requires InsertEntry(level, objPath, table) == Ok(next)
    ensures Walked(level, next, table)
  {
    if objPath == RightsFileName {
      InsertRightsFile(level, table);
    } else {
      InsertEntryParts(level, objPath, table);
    }
  }

  /** A turn that leaves the level alone or runs a walk keeps the labels. */
  lemma StepKeepsLabels(level: Level, next: Level, table: Table)
    requires LevelLabelled(level, table)
    requires Walked(level, next, table)
    ensures LevelLabelled(next, table)
  {
    if next != level {
      var parts, last, isDir :| InsertParts(level, parts, last, isDir, table) == Ok(next);
      InsertKeepsLabels(level, parts, last, isDir, table);
    }
  }

  lemma InsertRightsFile(level: Level, table: Table)
    ensures InsertEntry(level, RightsFileName, table) == Ok(level)
  {
  }

  lemma InsertEntryParts(level: Level, objPath: string, table: Table)
    requires objPath != RightsFileName
    ensures var parts := EntryParts(objPath);
      InsertEntry(level, objPath, table) == InsertParts(level, parts, parts[|parts| - 1], EndsWithSlash(objPath), table)
  {
  }

  /** Every node of a built tree has the rights of its bare name in the
      table, or None: two nodes of the same name anywhere share rights. */
  lemma BuildLabelsByName(names: seq<string>, table: Table)
    requires Build(names, table).Ok?
    ensures LevelLabelled(Build(names, table).value, table)
  {
    BuildFromKeepsLabels(map[], names, table);
  }

  // ---------------------------------------------------------------------
  // Folders: created, re-entered, and the KeyError

  /** An entry ending in `/` whose folders all exist already changes nothing. */
  lemma {:induction false} DirEntryReusesFolders(level: Level, parts: seq<string>, last: string, table: Table)
    requires Walk(level, parts).Some?
    ensures InsertParts(level, parts, last, true, table) == Ok(level)
    decreases parts
  {
    if parts != [] {
      var part := parts[0];
      DirEntryReusesFolders(level[part].children, parts[1..], last, table);
      assert level[part := Folder(level[part].rights, level[part].children)] == level;
    }
  }

  /** Adding an entry keeps every name of the level, and leaves the node of
      every name the entry does not mention as it was. */
  lemma {:induction false} InsertFrame(level: Level, parts: seq<string>, last: string, isDir: bool, table: Table)
    requires InsertParts(level, parts, last, isDir, table).Ok?
    ensures var r := InsertParts(level, parts, last, isDir, table).value;
      forall k :: k in level ==> k in r && (k !in parts ==> r[k] == level[k])
    decreases parts
  {
    if parts != [] {
      var part := parts[0];
      assert part in parts;
      if part == last && !isDir {
        var next := level[part := File(Get(table, part))];
        InsertFrame(next, parts[1..], last, isDir, table);
        forall k | k in parts[1..] ensures k in parts {
          var j :| 0 <= j < |parts[1..]| && parts[1..][j] == k;
          assert parts[j + 1] == k;
        }
      }
    }
  }

  /** An existing folder that an entry passes through stays a folder with
      its rights, keeps all its names, and keeps the node of every name the
      rest of the entry does not mention. */
  lemma ExistingFolderKeepsChildren(level: Level, parts: seq<string>, last: string, isDir: bool, table: Table)
    requires parts != [] && (parts[0] != last || isDir) && IsFolderIn(level, parts[0])
    requires InsertParts(level, parts, last, isDir, table).Ok?
    ensures var r := InsertParts(level, parts, last, isDir, table).value;
      var before := level[parts[0]];
      && parts[0] in r && r[parts[0]].Folder? && r[parts[0]].rights == before.rights
      && forall k :: k in before.children ==>
           k in r[parts[0]].children && (k !in parts[1..] ==> r[parts[0]].children[k] == before.children[k])
  {
    InsertFrame(level[parts[0]].children, parts[1..], last, isDir, table);
  }

  /** After an entry ending in `/` is added, its whole path resolves to a folder. */
  lemma {:induction false} DirEntryMakesFolders(level: Level, parts: seq<string>, last: string, table: Table)
    requires InsertParts(level, parts, last, true, table).Ok?
    ensures Walk(InsertParts(level, parts, last, true, table).value, parts).Some?
    decreases parts
  {
    if parts != [] {
      var part := parts[0];
      var node := if part in level then level[part] else Folder(Get(table, part), map[]);
      DirEntryMakesFolders(node.children, parts[1..], last, table);
    }
  }

  /** The segments the cursor enters as folders: all of them for an entry
      ending in `/`; for a file entry every segment except those equal to
      the last name, each of which writes a file at the current level. */
  function Entered(parts: seq<string>, last: string, isDir: bool): (e: seq<string>)
    ensures isDir ==> e == parts
    ensures !isDir ==> forall k :: 0 <= k < |e| ==> e[k] != last
    decreases parts
  {
    if parts == [] then []
    else if parts[0] == last && !isDir then Entered(parts[1..], last, isDir)
    else [parts[0]] + Entered(parts[1..], last, isDir)
  }

  /** Position `i` of `parts` names a file in the level the first `i`
      segments lead to. */
  predicate FileInTheWay(level: Level, parts: seq<string>, i: nat)
    requires i < |parts|
  {
    && Walk(level, parts[..i]).Some?
    && parts[i] in Walk(level, parts[..i]).value
    && Walk(level, parts[..i]).value[parts[i]].File?
  }

  /** A file write at `last` is invisible to a walk that never names `last`. */
  lemma WriteKeepsWay(level: Level, last: string, node: Node, e: seq<string>, i: nat)
    requires i < |e| && forall k :: 0 <= k < |e| ==> e[k] != last
    ensures FileInTheWay(level[last := node], e, i) == FileInTheWay(level, e, i)
  {
    var written := level[last := node];
    if i > 0 {
      assert e[..i][0] == e[0] && e[..i][1..] == e[1..i];
      assert Walk(written, e[..i]) == Walk(level, e[..i]);
    } else {
      assert e[..0] == [];
    }
  }

  /** Nothing is in the way in an empty level. */
  lemma NoFileInEmpty(e: seq<string>, i: nat)
    requires i < |e|
    ensures !FileInTheWay(map[], e, i)
  {
    if i > 0 {
      assert e[..i][0] == e[0];
    }
  }

  /** Adding an entry fails (the source's `KeyError`) exactly when one of
      the segments the cursor enters names a file in the level the earlier
      entered segments lead to. The file writes in between never matter,
      because they only touch the last name, which is never entered. */
  lemma {:induction false} InsertFailsIff(level: Level, parts: seq<string>, last: string, isDir: bool, table: Table)
    ensures var e := Entered(parts, last, isDir);
      InsertParts(level, parts, last, isDir, table).Err? <==>
      exists i :: 0 <= i < |e| && FileInTheWay(level, e, i)
    decreases parts
  {
    if parts != [] {
      var part := parts[0];
      var rest := parts[1..];
      var e := Entered(parts, last, isDir);
      var e' := Entered(rest, last, isDir);
      if part == last && !isDir {
        var next := level[last := File(Get(table, last))];
        InsertFailsIff(next, rest, last, isDir, table);
        forall i | 0 <= i < |e'| ensures FileInTheWay(next, e', i) == FileInTheWay(level, e', i) {
          WriteKeepsWay(level, last, File(Get(table, last)), e', i);
        }
      } else {
        assert e == [part] + e';
        assert e[..0] == [];
        if part in level && level[part].File? {
          assert FileInTheWay(level, e, 0);
        } else if part in level {
          var children := level[part].children;
          InsertFailsIff(children, rest, last, isDir, table);
          forall i | 0 < i < |e|
            ensures FileInTheWay(level, e, i) == FileInTheWay(children, e', i - 1)
          {
            assert e[..i] == [part] + e'[..i - 1];
            assert ([part] + e'[..i - 1])[1..] == e'[..i - 1];
          }
          if InsertParts(level, parts, last, isDir, table).Err? {
            var j :| 0 <= j < |e'| && FileInTheWay(children, e', j);
            assert FileInTheWay(level, e, j + 1);
          } else {
            forall i | 0 <= i < |e| ensures !FileInTheWay(level, e, i) {
              if i > 0 {
                assert !FileInTheWay(children, e', i - 1);
              }
            }
          }
        } else {
          InsertFailsIff(map[], rest, last, isDir, table);
          forall j | 0 <= j < |e'| ensures !FileInTheWay(map[], e', j) {
            NoFileInEmpty(e', j);
          }
          forall i | 0 <= i < |e| ensures !FileInTheWay(level, e, i) {
            if i > 0 {
              assert e[..i][0] == part;
            }
          }
        }
      }
    }
  }

  /** An empty level accepts every entry: the cursor only ever enters
      folders it has just created. */
  lemma FreshFolderAccepts(parts: seq<string>, last: string, isDir: bool, table: Table)
    ensures InsertParts(map[], parts, last, isDir, table).Ok?
  {
    var e := Entered(parts, last, isDir);
    InsertFailsIff(map[], parts, last, isDir, table);
    forall i | 0 <= i < |e| ensures !FileInTheWay(map[], e, i) {
      NoFileInEmpty(e, i);
    }
  }

  /** Adding a file entry leaves a file node with the table's rights at its
      last name, in the folder its entered segments lead to, whatever was
      stored there before. */
  lemma {:induction false} FileEntryWrites(level: Level, parts: seq<string>, last: string, table: Table)
    requires parts != [] && parts[|parts| - 1] == last
    requires InsertParts(level, parts, last, false, table).Ok?
    ensures var r := InsertParts(level, parts, last, false, table).value;
      var e := Entered(parts, last, false);
      && Walk(r, e).Some?
      && last in Walk(r, e).value
      && Walk(r, e).value[last] == File(Get(table, last))
    decreases parts
  {
    var part := parts[0];
    var rest := parts[1..];
    if part == last {
      var next := level[last := File(Get(table, last))];
      if rest != [] {
        assert rest[|rest| - 1] == last;
        FileEntryWrites(next, rest, last, table);
      }
    } else {
      assert rest != [] && rest[|rest| - 1] == last;
      var node := if part in level then level[part] else Folder(Get(table, part), map[]);
      FileEntryWrites(node.children, rest, last, table);
      var e := Entered(parts, last, false);
      assert e[0] == part && e[1..] == Entered(rest, last, false);
    }
  }

  // ---------------------------------------------------------------------
  // Concrete archives

  lemma SplitName(name: string)
    requires '/' !in name
    ensures Split(name) == [name]
  {
    SplitSlashFreePrefix(name, "");
    assert name + "" == name;
  }

  /** A file entry directly under the root. */
  lemma InsertTopFile(level: Level, name: string, table: Table)
    requires name != "" && '/' !in name && name != RightsFileName
    ensures InsertEntry(level, name, table) == Ok(level[name := File(Get(table, name))])
  {
    StripName(name);
    SplitName(name);
    assert EntryParts(name) == [name];
    assert !EndsWithSlash(name) by {
      assert name[|name| - 1] in name;
    }
    assert InsertEntry(level, name, table) == InsertParts(level, [name], name, false, table);
    var next := level[name := File(Get(table, name))];
    assert InsertParts(level, [name], name, false, table) == InsertParts(next, [], name, false, table);
  }

  lemma StripName(name: string)
    requires name != "" && '/' !in name
    ensures Strip(name) == name
  {
    assert name[0] in name && name[|name| - 1] in name;
  }

  /** A new folder entry `name/` directly under the root. */
  lemma InsertTopFolder(level: Level, name: string, table: Table)
    requires name != "" && '/' !in name && name !in level
    ensures InsertEntry(level, name + "/", table) == Ok(level[name := Folder(Get(table, name), map[])])
  {
    var path := name + "/";
    assert name[0] in name && name[|name| - 1] in name;
    assert path[..|name|] == name;
    assert StripLeft(path) == path;
    assert Strip(path) == StripRight(name) == name;
    SplitName(name);
    assert path != RightsFileName by {
      assert path[|path| - 1] == '/';
      assert RightsFileName[|RightsFileName| - 1] == 't';
    }
    assert EntryParts(path) == [name];
    assert EndsWithSlash(path);
    assert InsertParts(map[], [], name, true, table) == Ok(map[]);
    assert InsertParts(level, [name], name, true, table) == Ok(level[name := Folder(Get(table, name), map[])]);
  }

  lemma BuildFromStep(level: Level, names: seq<string>, next: Level, table: Table)
    requires names != [] && InsertEntry(level, names[0], table) == Ok(next)
    ensures BuildFrom(level, names, table) == BuildFrom(next, names[1..], table)
  {
  }

  lemma BuildFromFails(level: Level, names: seq<string>, table: Table)
    requires names != [] && InsertEntry(level, names[0], table).Err?
    ensures BuildFrom(level, names, table).Err?
  {
  }

  /** An archive listing the side file, a file `f` and a folder `d/`. */
  lemma BuildFileAndFolder(f: string, d: string, table: Table)
    requires f != "" && '/' !in f && f != RightsFileName
    requires d != "" && '/' !in d && d != f
    ensures Build([RightsFileName, f, d + "/"], table)
      == Ok(map[f := File(Get(table, f)), d := Folder(Get(table, d), map[])])
  {
    var names := [RightsFileName, f, d + "/"];
    var afterFile := map[f := File(Get(table, f))];
    var afterDir := afterFile[d := Folder(Get(table, d), map[])];
    InsertTopFile(map[], f, table);
    InsertTopFolder(afterFile, d, table);
    BuildFromStep(map[], names, map[], table);
    BuildFromStep(map[], names[1..], afterFile, table);
    BuildFromStep(afterFile, names[1..][1..], afterDir, table);
    assert names[1..][1..][1..] == [];
  }

  /** The segments of an entry spelled `p1/p2/.../pn`, or the same with a
      trailing slash. */
  lemma EntryPartsOfJoin(parts: seq<string>, trailing: bool)
    requires parts != [] && forall k :: 0 <= k < |parts| ==> IsName(parts[k])
    ensures var path := Join(parts) + (if trailing then "/" else "");
      EntryParts(path) == parts && EndsWithSlash(path) == trailing
  {
    if trailing {
      DirEntryParts(parts);
    } else {
      assert Join(parts) + "" == Join(parts);
      FileEntryParts(parts);
    }
  }

  lemma FileEntryParts(parts: seq<string>)
    requires parts != [] && forall k :: 0 <= k < |parts| ==> IsName(parts[k])
    ensures EntryParts(Join(parts)) == parts && !EndsWithSlash(Join(parts))
  {
    StripJoin(parts);
    JoinEnds(parts);
    JoinThenSplit(parts);
  }

  lemma DirEntryParts(parts: seq<string>)
    requires parts != [] && forall k :: 0 <= k < |parts| ==> IsName(parts[k])
    ensures EntryParts(Join(parts) + "/") == parts && EndsWithSlash(Join(parts) + "/")
  {
    StripJoin(parts);
    JoinThenSplit(parts);
  }

  // One turn of the inner loop, for composing the concrete archives below.

  lemma WriteFileStep(level: Level, parts: seq<string>, last: string, table: Table)
    requires parts != [] && parts[0] == last
    ensures InsertParts(level, parts, last, false, table)
      == InsertParts(level[last := File(Get(table, last))], parts[1..], last, false, table)
  {
  }

  lemma NewFolderStep(level: Level, parts: seq<string>, last: string, isDir: bool, table: Table, sub: Level)
    requires parts != [] && (parts[0] != last || isDir) && parts[0] !in level
    requires InsertParts(map[], parts[1..], last, isDir, table) == Ok(sub)
    ensures InsertParts(level, parts, last, isDir, table) == Ok(level[parts[0] := Folder(Get(table, parts[0]), sub)])
  {
  }

  lemma EnterFolderStep(level: Level, parts: seq<string>, last: string, isDir: bool, table: Table, sub: Level)
    requires parts != [] && (parts[0] != last || isDir) && IsFolderIn(level, parts[0])
    requires InsertParts(level[parts[0]].children, parts[1..], last, isDir, table) == Ok(sub)
    ensures InsertParts(level, parts, last, isDir, table) == Ok(level[parts[0] := Folder(level[parts[0]].rights, sub)])
  {
  }

  lemma ReplaceOnly(a: string, n1: Node, n2: Node)
    ensures map[a := n1][a := n2] == map[a := n2]
  {
  }

  lemma NotRightsFile(path: string, i: nat)
    requires i < |path| && path[i] == '/'
    ensures path != RightsFileName
  {
    assert '/' !in RightsFileName;
    assert path[i] in path;
  }

  /** Entry `x/a/a`: the first `a` already equals the last segment, so it is
      written as a file inside `x`, and the second `a` writes it again; no
      folder `a` is made. */
  lemma RepeatedLastSegment(x: string, a: string, table: Table)
    requires IsName(x) && IsName(a) && x != a
    ensures Build([x + "/" + a + "/" + a], table)
      == Ok(map[x := Folder(Get(table, x), map[a := File(Get(table, a))])])
  {
    var path := x + "/" + a + "/" + a;
    assert [x, a, a][1..] == [a, a] && [a, a][1..] == [a];
    assert Join([a, a]) == a + "/" + a;
    assert Join([x, a, a]) == x + "/" + (a + "/" + a);
    assert Join([x, a, a]) + "" == path;
    EntryPartsOfJoin([x, a, a], false);
    NotRightsFile(path, |x|);
    RepeatedLastParts(x, a, table);
    BuildFromStep(map[], [path], map[x := Folder(Get(table, x), map[a := File(Get(table, a))])], table);
  }

  lemma RepeatedLastParts(x: string, a: string, table: Table)
    requires x != a
    ensures InsertParts(map[], [x, a, a], a, false, table)
      == Ok(map[x := Folder(Get(table, x), map[a := File(Get(table, a))])])
  {
    var file := File(Get(table, a));
    var inner := map[a := file];
    WriteFileStep(map[], [a, a], a, table);
    WriteFileStep(inner, [a], a, table);
    ReplaceOnly(a, file, file);
    assert [a, a][1..] == [a] && [a][1..] == [];
    assert InsertParts(map[], [a, a], a, false, table) == Ok(inner);
    NewFolderStep(map[], [x, a, a], a, false, table, inner);
    assert [x, a, a][1..] == [a, a];
  }

  /** Entries `a` then `a/b`: the second needs a folder where the first put a
      file, and building fails (the source's `KeyError`). */
  lemma FolderAfterFileFails(a: string, b: string, table: Table)
    requires IsName(a) && IsName(b) && a != b && a != RightsFileName
    ensures Build([a, a + "/" + b], table) == Err(FileInPlaceOfFolder(a))
  {
    var level := map[a := File(Get(table, a))];
    InsertTopFile(map[], a, table);
    var path := a + "/" + b;
    assert Join([a, b]) + "" == path;
    EntryPartsOfJoin([a, b], false);
    NotRightsFile(path, |a|);
    assert InsertParts(level, [a, b], b, false, table) == Err(FileInPlaceOfFolder(a));
    BuildFromStep(map[], [a, path], level, table);
    assert [a, path][1..] == [path];
  }

  /** Entries `a/` then `a`: the file write replaces the folder. */
  lemma FileOverwritesFolder(a: string, table: Table)
    requires IsName(a) && a != RightsFileName
    ensures Build([a + "/", a], table) == Ok(map[a := File(Get(table, a))])
  {
    var level := map[a := Folder(Get(table, a), map[])];
    InsertTopFolder(map[], a, table);
    InsertTopFile(level, a, table);
    ReplaceOnly(a, Folder(Get(table, a), map[]), File(Get(table, a)));
    BuildFromStep(map[], [a + "/", a], level, table);
    BuildFromStep(level, [a], map[a := File(Get(table, a))], table);
    assert [a + "/", a][1..] == [a];
  }

  /** Entries `a/f` then `a/c/`: folder `a` is created once and re-entered,
      holding file `f` and the empty folder `c`. */
  lemma NestedFileAndFolder(a: string, f: string, c: string, table: Table)
    requires IsName(a) && IsName(f) && IsName(c) && f != a && c != a && f != c
    ensures Build([a + "/" + f, a + "/" + c + "/"], table)
      == Ok(map[a := Folder(Get(table, a), map[f := File(Get(table, f)), c := Folder(Get(table, c), map[])])])
  {
    var p1 := a + "/" + f;
    var p2 := a + "/" + c + "/";
    var inner1 := map[f := File(Get(table, f))];
    var level1 := map[a := Folder(Get(table, a), inner1)];
    var level2 := map[a := Folder(Get(table, a), inner1[c := Folder(Get(table, c), map[])])];
    NestedFirstEntry(a, f, table);
    NestedSecondEntry(a, f, c, table);
    BuildFromStep(map[], [p1, p2], level1, table);
    BuildFromStep(level1, [p2], level2, table);
    assert [p1, p2][1..] == [p2];
  }

  lemma NestedFirstEntry(a: string, f: string, table: Table)
    requires IsName(a) && IsName(f) && f != a
    ensures InsertEntry(map[], a + "/" + f, table) == Ok(map[a := Folder(Get(table, a), map[f := File(Get(table, f))])])
  {
    var p1 := a + "/" + f;
    assert Join([a, f]) + "" == p1;
    EntryPartsOfJoin([a, f], false);
    NotRightsFile(p1, |a|);
    var inner1 := map[f := File(Get(table, f))];
    WriteFileStep(map[], [f], f, table);
    assert [f][1..] == [];
    NewFolderStep(map[], [a, f], f, false, table, inner1);
    assert [a, f][1..] == [f];
  }

  lemma NestedSecondEntry(a: string, f: string, c: string, table: Table)
    requires IsName(a) && IsName(c) && c != a && f != c
    ensures var inner1 := map[f := File(Get(table, f))];
      InsertEntry(map[a := Folder(Get(table, a), inner1)], a + "/" + c + "/", table)
      == Ok(map[a := Folder(Get(table, a), inner1[c := Folder(Get(table, c), map[])])])
  {
    var p2 := a + "/" + c + "/";
    assert Join([a, c]) + "/" == p2;
    EntryPartsOfJoin([a, c], true);
    NotRightsFile(p2, |a|);
    assert p2[|p2| - 1] == '/';
    NestedSecondParts(a, f, c, table);
  }

  lemma NestedSecondParts(a: string, f: string, c: string, table: Table)
    requires c != a && f != c
    ensures var inner1 := map[f := File(Get(table, f))];
      InsertParts(map[a := Folder(Get(table, a), inner1)], [a, c], c, true, table)
      == Ok(map[a := Folder(Get(table, a), inner1[c := Folder(Get(table, c), map[])])])
  {
    var inner1 := map[f := File(Get(table, f))];
    var level1 := map[a := Folder(Get(table, a), inner1)];
    var inner2 := inner1[c := Folder(Get(table, c), map[])];
    assert [c][1..] == [];
    NewFolderStep(inner1, [c], c, true, table, map[]);
    assert [a, c][1..] == [c];
    EnterFolderStep(level1, [a, c], c, true, table, inner2);
    assert level1[a := Folder(Get(table, a), inner2)] == map[a := Folder(Get(table, a), inner2)];
  }

  /** Entries `a/f` then `a/g`: the second entry re-enters folder `a` and
      keeps `f` beside the new `g`. */
  lemma FilesShareFolder(a: string, f: string, g: string, table: Table)
    requires IsName(a) && IsName(f) && IsName(g) && f != a && g != a
    ensures Build([a + "/" + f, a + "/" + g], table)
      == Ok(map[a := Folder(Get(table, a), map[f := File(Get(table, f))][g := File(Get(table, g))])])
  {
    var p1 := a + "/" + f;
    var p2 := a + "/" + g;
    var inner1 := map[f := File(Get(table, f))];
    var level1 := map[a := Folder(Get(table, a), inner1)];
    var level2 := map[a := Folder(Get(table, a), inner1[g := File(Get(table, g))])];
    NestedFirstEntry(a, f, table);
    SiblingFileEntry(a, f, g, table);
    BuildFromStep(map[], [p1, p2], level1, table);
    BuildFromStep(level1, [p2], level2, table);
    assert [p1, p2][1..] == [p2];
  }

  lemma SiblingFileEntry(a: string, f: string, g: string, table: Table)
    requires IsName(a) && IsName(g) && g != a
    ensures var inner1 := map[f := File(Get(table, f))];
      InsertEntry(map[a := Folder(Get(table, a), inner1)], a + "/" + g, table)
      == Ok(map[a := Folder(Get(table, a), inner1[g := File(Get(table, g))])])
  {
    var p2 := a + "/" + g;
    assert Join([a, g]) + "" == p2;
    EntryPartsOfJoin([a, g], false);
    NotRightsFile(p2, |a|);
    SiblingFileParts(a, f, g, table);
  }

  lemma SiblingFileParts(a: string, f: string, g: string, table: Table)
    requires g != a
    ensures var inner1 := map[f := File(Get(table, f))];
      InsertParts(map[a := Folder(Get(table, a), inner1)], [a, g], g, false, table)
      == Ok(map[a := Folder(Get(table, a), inner1[g := File(Get(table, g))])])
  {
    var inner1 := map[f := File(Get(table, f))];
    var level1 := map[a := Folder(Get(table, a), inner1)];
    var inner2 := inner1[g := File(Get(table, g))];
    assert [g][1..] == [];
    WriteFileStep(inner1, [g], g, table);
    assert [a, g][1..] == [g];
    EnterFolderStep(level1, [a, g], g, false, table, inner2);
    assert level1[a := Folder(Get(table, a), inner2)] == map[a := Folder(Get(table, a), inner2)];
  }

  /** The entries of the repository's test archive, with its rights table:
      the side file, a file `test.txt` and an empty folder `subdir/`. */
  lemma TestArchiveListing()
    ensures Build(["access_rights.txt", "test.txt", "subdir/"], map["test.txt" := "r", "subdir" := "rw"])
      == Ok(map["test.txt" := File(Some("r")), "subdir" := Folder(Some("rw"), map[])])
  {
    BuildFileAndFolder("test.txt", "subdir", map["test.txt" := "r", "subdir" := "rw"]);
    assert "subdir" + "/" == "subdir/";
  }

  /** The same archive with its rights table read from the side file's lines. */
  lemma TestArchive()
    ensures Build(["access_rights.txt", "test.txt", "subdir/"], RightsTable(["test.txt r", "subdir rw"]))
      == Ok(map["test.txt" := File(Some("r")), "subdir" := Folder(Some("rw"), map[])])
  {
    TestRightsTable();
    TestArchiveListing();
  }
}
