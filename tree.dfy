/** The in-memory directory tree and its lookup
    (`Virtual_System.get_dictionary_from_absolute_path`). The source keeps
    each level as a dictionary from names to nodes; a file node records its
    rights token, a folder node its rights token and its own level. */
module Tree {
  import opened Options
  import opened Text
  import opened Paths

  datatype Node =
    | File(rights: Option<string>)
    | Folder(rights: Option<string>, children: map<string, Node>)

  /** One level of the tree: the root (`file_structure`) or the children of
      a folder (`list_f`). */
  type Level = map<string, Node>

  predicate IsFolderIn(level: Level, name: string)
  {
    name in level && level[name].Folder?
  }

  /** The level reached by entering the folders `parts` one after another,
      or None as soon as a name is missing or names a file. */
  function Walk(level: Level, parts: seq<string>): Option<Level>
    decreases parts
  {
    if parts == [] then Some(level)
    else if IsFolderIn(level, parts[0]) then Walk(level[parts[0]].children, parts[1..])
    else None
  }

  /** `get_dictionary_from_absolute_path(path)` on the tree `root`. */
  function Lookup(root: Level, path: string): Option<Level>
  {
    if path == "/" then Some(root) else Walk(root, Split(Strip(path)))
  }

  /** The walk along `a + b` is the walk along `b` from where `a` leads. */
  lemma {:induction false} WalkConcat(level: Level, a: seq<string>, b: seq<string>)
    ensures Walk(level, a + b) == match Walk(level, a) case None => None case Some(l) => Walk(l, b)
    decreases a
  {
    if a == [] {
      assert a + b == b;
    } else {
      assert (a + b)[0] == a[0] && (a + b)[1..] == a[1..] + b;
      if IsFolderIn(level, a[0]) {
        WalkConcat(level[a[0]].children, a[1..], b);
      }
    }
  }

  /** The walk stops at position `i`: the first `i` names lead to a level
      where the next name is absent or is a file. */
  predicate BlockedAt(level: Level, parts: seq<string>, i: nat)
    requires i < |parts|
  {
    Walk(level, parts[..i]).Some? && !IsFolderIn(Walk(level, parts[..i]).value, parts[i])
  }

  /** The walk fails exactly when some name on the way is absent or a file. */
  lemma {:induction false} WalkFailsIff(level: Level, parts: seq<string>)
    ensures Walk(level, parts).None? <==> exists i :: 0 <= i < |parts| && BlockedAt(level, parts, i)
    decreases |parts|
  {
    if parts != [] {
      var n := |parts| - 1;
      var init := parts[..n];
      assert parts == init + [parts[n]];
      WalkConcat(level, init, [parts[n]]);
      WalkFailsIff(level, init);
      forall i | 0 <= i < n
        ensures BlockedAt(level, parts, i) == BlockedAt(level, init, i)
      {
        assert parts[..i] == init[..i];
      }
      assert parts[..n] == init;
      if Walk(level, init).None? {
        var i :| 0 <= i < |init| && BlockedAt(level, init, i);
        assert BlockedAt(level, parts, i);
      } else if Walk(level, parts).Some? {
        forall i | 0 <= i < |parts| ensures !BlockedAt(level, parts, i) {
          if i < n {
            assert !BlockedAt(level, init, i);
          }
        }
      } else {
        assert BlockedAt(level, parts, n);
      }
    }
  }

  /** A successful walk over a non-empty path ends in the children of the
      folder named by its last name. */
  lemma WalkEndsInFolder(level: Level, parts: seq<string>)
    requires parts != [] && Walk(level, parts).Some?
    ensures var init := parts[..|parts| - 1]; var last := parts[|parts| - 1];
      && Walk(level, init).Some?
      && IsFolderIn(Walk(level, init).value, last)
      && Walk(level, parts).value == Walk(level, init).value[last].children
  {
    var n := |parts| - 1;
    assert parts == parts[..n] + [parts[n]];
    WalkConcat(level, parts[..n], [parts[n]]);
  }

  /** Lookup of a normalised path walks exactly its segments; in particular
      lookup of `/` is the root. */
  lemma LookupRender(root: Level, segs: seq<string>)
    requires AllSegments(segs)
    ensures Lookup(root, Render(segs)) == Walk(root, segs)
  {
    RenderShape(segs);
    if segs != [] {
      TrailIsJoin(segs);
      TrailEnds(segs);
      var j := Join(segs);
      assert Trail(segs) == j + "/";
      assert Render(segs) == "/" + j + "/";
      assert j[0] == Trail(segs)[0];
      JoinEnds(segs);
      StripSlashed(j);
      JoinThenSplit(segs);
    }
  }

  /** Lookup of `/` is the root; lookup fails exactly when the path is not
      `/` and some name on it is absent or names a file. */
  lemma LookupFailsIff(root: Level, path: string)
    ensures Lookup(root, "/") == Some(root)
    ensures Lookup(root, path).None? <==>
      path != "/" && exists i :: 0 <= i < |Split(Strip(path))| && BlockedAt(root, Split(Strip(path)), i)
  {
    var parts := Split(Strip(path));
    WalkFailsIff(root, parts);
    if path != "/" {
      assert Lookup(root, path) == Walk(root, parts);
      if Walk(root, parts).None? {
        var i: nat :| i < |parts| && BlockedAt(root, parts, i);
        assert BlockedAt(root, Split(Strip(path)), i);
      }
    } else {
      assert Lookup(root, path) == Some(root);
    }
  }
}
