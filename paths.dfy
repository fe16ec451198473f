/** The path normaliser (`Virtual_System.path_parser`): a possibly relative
    path is resolved against the current directory into an absolute
    directory path with a leading and a trailing slash, `.` and empty
    segments dropped and `..` removing the last retained segment (never
    climbing above the root). */
module Paths {
  import opened Text

  /** A segment a normalised path may hold. */
  predicate IsSegment(s: string)
  {
    s != "" && s != "." && s != ".." && '/' !in s
  }

  predicate AllSegments(segs: seq<string>)
  {
    forall k :: 0 <= k < |segs| ==> IsSegment(segs[k])
  }

  /** One turn of the loop over the pieces of the path: skip `''` and `.`,
      pop on `..` when something is retained, append anything else. */
  function Step(retained: seq<string>, part: string): seq<string>
  {
    if part == "" || part == "." then retained
    else if part == ".." then (if retained == [] then [] else retained[..|retained| - 1])
    else retained + [part]
  }

  /** The retained segments after processing `parts` left to right. */
  function Retain(retained: seq<string>, parts: seq<string>): seq<string>
    decreases parts
  {
    if parts == [] then retained else Retain(Step(retained, parts[0]), parts[1..])
  }

  /** The path `path` is taken relative to, or itself when absolute. */
  function AbsolutePath(currentDir: string, path: string): string
  {
    if StartsWithSlash(path) then path else currentDir + path
  }

  /** What `path_parser(path)` returns when the current directory is
      `currentDir`, written as the source computes it. */
  function Normalize(currentDir: string, path: string): string
  {
    CollapseDoubleSlash("/" + Join(Retain([], Split(AbsolutePath(currentDir, path)))) + "/")
  }

  /** The canonical spelling of a directory given its segments:
      `/` for the root, `/a/b/` for segments `a`, `b`. */
  function Render(segs: seq<string>): string
  {
    "/" + Trail(segs)
  }

  /** Each segment followed by a slash. */
  function Trail(segs: seq<string>): string
  {
    if segs == [] then "" else segs[0] + "/" + Trail(segs[1..])
  }

  /** A normalised path: the canonical spelling of some list of segments. */
  ghost predicate IsNormal(p: string)
  {
    exists segs :: AllSegments(segs) && Render(segs) == p
  }

  // ---------------------------------------------------------------------
  // The retained segments

  lemma {:induction false} RetainKeepsSegments(retained: seq<string>, parts: seq<string>)
    requires AllSegments(retained)
    requires forall k :: 0 <= k < |parts| ==> '/' !in parts[k]
    ensures AllSegments(Retain(retained, parts))
    decreases parts
  {
    if parts != [] {
      assert retained != [] ==> AllSegments(retained[..|retained| - 1]);
      RetainKeepsSegments(Step(retained, parts[0]), parts[1..]);
    }
  }

  lemma {:induction false} RetainConcat(retained: seq<string>, a: seq<string>, b: seq<string>)
    ensures Retain(retained, a + b) == Retain(Retain(retained, a), b)
    decreases a
  {
    if a == [] {
      assert a + b == b;
    } else {
      assert (a + b)[0] == a[0] && (a + b)[1..] == a[1..] + b;
      RetainConcat(Step(retained, a[0]), a[1..], b);
    }
  }

  /** Segments that are already canonical are retained as they are. */
  lemma {:induction false} RetainSegments(retained: seq<string>, segs: seq<string>)
    requires AllSegments(segs)
    ensures Retain(retained, segs) == retained + segs
    decreases segs
  {
    if segs == [] {
      assert retained + segs == retained;
    } else {
      RetainSegments(retained + [segs[0]], segs[1..]);
      assert retained + [segs[0]] + segs[1..] == retained + segs;
    }
  }

  /** Pieces that are neither empty nor `.`, in their order. */
  function Kept(parts: seq<string>): seq<string>
  {
    if parts == [] then []
    else if parts[0] == "" || parts[0] == "." then Kept(parts[1..])
    else [parts[0]] + Kept(parts[1..])
  }

  /** Without `..`, normalising only drops empty and `.` pieces and keeps
      the order of the rest. */
  lemma {:induction false} RetainWithoutParent(retained: seq<string>, parts: seq<string>)
    requires forall k :: 0 <= k < |parts| ==> parts[k] != ".."
    ensures Retain(retained, parts) == retained + Kept(parts)
    decreases parts
  {
    if parts == [] {
      assert retained + [] == retained;
    } else {
      RetainWithoutParent(Step(retained, parts[0]), parts[1..]);
      if parts[0] != "" && parts[0] != "." {
        assert retained + [parts[0]] + Kept(parts[1..]) == retained + ([parts[0]] + Kept(parts[1..]));
      }
    }
  }

  // ---------------------------------------------------------------------
  // Canonical spelling

  lemma {:induction false} TrailIsJoin(segs: seq<string>)
    requires segs != []
    ensures Trail(segs) == Join(segs) + "/"
  {
    if |segs| > 1 {
      TrailIsJoin(segs[1..]);
    }
  }

  lemma {:induction false} TrailEnds(segs: seq<string>)
    requires segs != [] && AllSegments(segs)
    ensures |Trail(segs)| >= 2
    ensures Trail(segs)[0] == segs[0][0] && Trail(segs)[0] != '/'
    ensures Trail(segs)[|Trail(segs)| - 1] == '/'
  {
    assert segs[0] != "" && '/' !in segs[0];
    assert segs[0][0] in segs[0];
    if |segs| > 1 {
      TrailEnds(segs[1..]);
    }
  }

  lemma {:induction false} CollapseTrail(segs: seq<string>)
    requires AllSegments(segs)
    ensures CollapseDoubleSlash(Trail(segs)) == Trail(segs)
  {
    if segs != [] {
      var rest := segs[1..];
      CollapseTrail(rest);
      var tail := "/" + Trail(rest);
      CollapseSlashFree(segs[0], tail);
      assert Trail(segs) == segs[0] + tail;
      if rest == [] {
        assert tail == "/";
      } else {
        TrailEnds(rest);
        assert tail[1..] == Trail(rest);
      }
    }
  }

  /** The source's final formula `('/' + '/'.join(parts) + '/').replace('//', '/')`
      is the canonical spelling of the retained segments; the replace only
      matters for the root, where it turns `//` into `/`. */
  lemma SourceFormulaIsRender(segs: seq<string>)
    requires AllSegments(segs)
    ensures CollapseDoubleSlash("/" + Join(segs) + "/") == Render(segs)
  {
    if segs != [] {
      TrailIsJoin(segs);
      assert "/" + Join(segs) + "/" == "/" + Trail(segs);
      TrailEnds(segs);
      CollapseTrail(segs);
      assert ("/" + Trail(segs))[1..] == Trail(segs);
    } else {
      assert "/" + Join(segs) + "/" == "//";
    }
  }

  lemma {:induction false} RenderShape(segs: seq<string>)
    requires AllSegments(segs)
    ensures |Render(segs)| >= 1
    ensures Render(segs)[0] == '/' && Render(segs)[|Render(segs)| - 1] == '/'
    ensures Render(segs) == "/" <==> segs == []
  {
    if segs != [] {
      TrailEnds(segs);
    }
  }

  /** Splitting the canonical spelling followed by `t` gives back the segments. */
  lemma {:induction false} SplitTrail(segs: seq<string>, t: string)
    requires AllSegments(segs)
    ensures Split(Trail(segs) + t) == segs + Split(t)
  {
    if segs == [] {
      assert Trail(segs) + t == t;
    } else {
      var head := segs[0];
      var rest := segs[1..];
      assert segs == [head] + rest;
      assert AllSegments(rest) && '/' !in head;
      SplitTrail(rest, t);
      TrailThen(head, Trail(rest), t);
      assert Trail(segs) == head + "/" + Trail(rest);
      SplitPieceThenSlash(head, Trail(rest) + t);
      ConsThen(head, rest, Split(t));
    }
  }

  lemma TrailThen(a: string, r: string, t: string)
    ensures a + "/" + r + t == a + "/" + (r + t)
  {
  }

  lemma ConsThen(a: string, rest: seq<string>, u: seq<string>)
    ensures [a] + (rest + u) == ([a] + rest) + u
  {
  }

  lemma SplitRender(segs: seq<string>, t: string)
    requires AllSegments(segs)
    ensures Split(Render(segs) + t) == [""] + segs + Split(t)
  {
    var x := Trail(segs) + t;
    SlashThen(Trail(segs), t);
    SplitAfterSlash(x);
    SplitTrail(segs, t);
    ConsThen("", segs, Split(t));
  }

  lemma SlashThen(r: string, t: string)
    ensures "/" + r + t == "/" + (r + t)
  {
  }

  lemma SplitAfterSlash(x: string)
    ensures Split("/" + x) == [""] + Split(x)
  {
    assert ("/" + x)[1..] == x;
  }

  /** Normalising `Render(segs) + t` keeps `segs` and then processes the
      pieces of `t`. */
  lemma NormalizeAfter(segs: seq<string>, t: string)
    requires AllSegments(segs)
    ensures Retain([], Split(Render(segs) + t)) == Retain(segs, Split(t))
  {
    SplitRender(segs, t);
    RetainConcat([], [""] + segs, Split(t));
    RetainConcat([], [""], segs);
    RetainSegments([], segs);
    assert [] + segs == segs;
  }

  // ---------------------------------------------------------------------
  // Properties of the normaliser

  /** The output is the canonical spelling of the retained segments: it
      starts and ends with `/`, holds no empty, `.` or `..` segment, and is
      exactly `/` when nothing is retained. */
  lemma NormalizeShape(currentDir: string, path: string)
    ensures var segs := Retain([], Split(AbsolutePath(currentDir, path)));
      && AllSegments(segs)
      && Normalize(currentDir, path) == Render(segs)
      && (Normalize(currentDir, path) == "/" <==> segs == [])
    ensures IsNormal(Normalize(currentDir, path))
    ensures var p := Normalize(currentDir, path); |p| >= 1 && p[0] == '/' && p[|p| - 1] == '/'
  {
    var segs := Retain([], Split(AbsolutePath(currentDir, path)));
    RetainKeepsSegments([], Split(AbsolutePath(currentDir, path)));
    SourceFormulaIsRender(segs);
    RenderShape(segs);
  }

  /** A normalised path normalises to itself, whatever the current directory. */
  lemma NormalizeIdempotent(currentDir: string, p: string)
    requires IsNormal(p)
    ensures Normalize(currentDir, p) == p
  {
    var segs :| AllSegments(segs) && Render(segs) == p;
    RenderShape(segs);
    assert AbsolutePath(currentDir, p) == Render(segs) + "";
    NormalizeAfter(segs, "");
    SourceFormulaIsRender(segs);
  }

  /** `.` from a normalised current directory is that directory. */
  lemma NormalizeDot(p: string)
    requires IsNormal(p)
    ensures Normalize(p, ".") == p
  {
    var segs :| AllSegments(segs) && Render(segs) == p;
    NormalizeAfter(segs, ".");
    assert Split(".") == ["."];
    SourceFormulaIsRender(segs);
  }

  /** A plain segment descends one level. */
  lemma NormalizeChild(segs: seq<string>, name: string)
    requires AllSegments(segs) && IsSegment(name)
    ensures Normalize(Render(segs), name) == Render(segs + [name])
  {
    assert !StartsWithSlash(name);
    NormalizeAfter(segs, name);
    SplitSlashFreePrefix(name, "");
    assert name + "" == name;
    assert Split(name) == [name];
    SourceFormulaIsRender(segs + [name]);
  }

  /** `..` removes exactly the last segment, and from `/` stays at `/`. */
  lemma NormalizeParent(segs: seq<string>)
    requires AllSegments(segs)
    ensures Normalize(Render(segs), "..") == Render(if segs == [] then [] else segs[..|segs| - 1])
  {
    NormalizeAfter(segs, "..");
    assert Split("..") == [".."];
    var up := if segs == [] then [] else segs[..|segs| - 1];
    assert Retain(segs, [".."]) == up;
    SourceFormulaIsRender(up);
  }

  /** Descending into a segment and then going up returns to where one was. */
  lemma ChildThenParent(p: string, name: string)
    requires IsNormal(p) && IsSegment(name)
    ensures Normalize(Normalize(p, name), "..") == p
  {
    var segs :| AllSegments(segs) && Render(segs) == p;
    NormalizeChild(segs, name);
    NormalizeParent(segs + [name]);
    assert (segs + [name])[..|segs|] == segs;
  }
}
