/** The Python string builtins the virtual filesystem relies on, over
    `string` (a sequence of characters):
      - `s.split('/')`    as Split,
      - `'/'.join(parts)` as Join,
      - `s.strip('/')`    as Strip,
      - `s.replace('//', '/')` as CollapseDoubleSlash,
      - `s.split()`       (split on runs of whitespace) as Fields,
    each with the round trip or characterisation that fixes its meaning. */
module Text {

  predicate StartsWithSlash(s: string) { |s| > 0 && s[0] == '/' }

  predicate EndsWithSlash(s: string) { |s| > 0 && s[|s| - 1] == '/' }

  // ---------------------------------------------------------------------
  // split('/') and '/'.join

  /** `s.split('/')`: the pieces between slashes, empty pieces included, so
      there is always one more piece than there are slashes. */
  function Split(s: string): (r: seq<string>)
    ensures |r| >= 1
    ensures forall k :: 0 <= k < |r| ==> '/' !in r[k]
  {
    if s == [] then [""]
    else
      var rest := Split(s[1..]);
      if s[0] == '/' then [""] + rest
      else [[s[0]] + rest[0]] + rest[1..]
  }

  /** `'/'.join(parts)`. */
  function Join(parts: seq<string>): string
  {
    if parts == [] then ""
    else if |parts| == 1 then parts[0]
    else parts[0] + "/" + Join(parts[1..])
  }

  lemma {:induction false} SplitThenJoin(s: string)
    ensures Join(Split(s)) == s
  {
    if s != [] {
      SplitThenJoin(s[1..]);
      var rest := Split(s[1..]);
      if s[0] == '/' {
        assert Join([""] + rest) == "" + "/" + Join(rest);
      } else if |rest| == 1 {
      } else {
        var r := [[s[0]] + rest[0]] + rest[1..];
        assert r[1..] == rest[1..];
        assert Join(rest) == rest[0] + "/" + Join(rest[1..]);
      }
    }
  }

  /** Splitting a slash-free prefix glued to `t` extends the first piece of `t`. */
  lemma {:induction false} SplitSlashFreePrefix(a: string, t: string)
    requires '/' !in a
    ensures Split(a + t) == [a + Split(t)[0]] + Split(t)[1..]
  {
    if a != [] {
      assert (a + t)[1..] == a[1..] + t;
      SplitSlashFreePrefix(a[1..], t);
      assert [a[0]] + (a[1..] + Split(t)[0]) == a + Split(t)[0];
    } else {
      assert a + t == t;
      assert a + Split(t)[0] == Split(t)[0];
      assert [Split(t)[0]] + Split(t)[1..] == Split(t);
    }
  }

  /** A slash-free piece followed by a slash splits off as one piece. */
  lemma SplitPieceThenSlash(a: string, t: string)
    requires '/' !in a
    ensures Split(a + "/" + t) == [a] + Split(t)
  {
    SplitSlashFreePrefix(a, "/" + t);
    assert a + "/" + t == a + ("/" + t);
    assert ("/" + t)[1..] == t;
    assert Split("/" + t) == [""] + Split(t);
    assert a + "" == a;
  }

  lemma {:induction false} JoinThenSplit(parts: seq<string>)
    requires |parts| >= 1
    requires forall k :: 0 <= k < |parts| ==> '/' !in parts[k]
    ensures Split(Join(parts)) == parts
  {
    if |parts| == 1 {
      SplitSlashFreePrefix(parts[0], "");
      assert parts[0] + "" == parts[0];
    } else {
      JoinThenSplit(parts[1..]);
      SplitPieceThenSlash(parts[0], Join(parts[1..]));
      assert [parts[0]] + parts[1..] == parts;
    }
  }

  /** A non-empty piece without slashes. */
  predicate IsName(s: string)
  {
    s != "" && '/' !in s
  }

  lemma {:induction false} JoinEnds(parts: seq<string>)
    requires parts != [] && forall k :: 0 <= k < |parts| ==> IsName(parts[k])
    ensures |Join(parts)| > 0 && Join(parts)[0] != '/' && Join(parts)[|Join(parts)| - 1] != '/'
  {
    assert parts[0][0] in parts[0];
    if |parts| == 1 {
      assert parts[0][|parts[0]| - 1] in parts[0];
    } else {
      JoinEnds(parts[1..]);
    }
  }

  // ---------------------------------------------------------------------
  // strip('/')

  function StripLeft(s: string): (r: string)
    ensures !StartsWithSlash(r)
    ensures |r| <= |s| && r == s[|s| - |r|..]
  {
    if StartsWithSlash(s) then StripLeft(s[1..]) else s
  }

  function StripRight(s: string): (r: string)
    ensures !EndsWithSlash(r)
    ensures |r| <= |s| && r == s[..|r|]
  {
    if EndsWithSlash(s) then StripRight(s[..|s| - 1]) else s
  }

  /** `s.strip('/')`: every leading and every trailing slash removed. */
  function Strip(s: string): string
  {
    StripRight(StripLeft(s))
  }

  lemma StripSlashed(x: string)
    requires |x| > 0 && x[0] != '/' && x[|x| - 1] != '/'
    ensures Strip("/" + x + "/") == x
  {
    var s := "/" + x + "/";
    assert s[1..] == x + "/";
    assert StripLeft(s) == StripLeft(x + "/") == x + "/";
    assert (x + "/")[..|x|] == x;
    assert StripRight(x + "/") == StripRight(x) == x;
  }

  lemma StripPlain(x: string)
    requires |x| > 0 && x[0] != '/' && x[|x| - 1] != '/'
    ensures Strip(x) == x && Strip(x + "/") == x
  {
    assert StripLeft(x + "/") == x + "/";
    assert (x + "/")[..|x|] == x;
    assert StripRight(x + "/") == StripRight(x) == x;
  }

  /** Names joined by slashes have no slash to strip, even with one more
      slash at the end. */
  lemma StripJoin(parts: seq<string>)
    requires parts != [] && forall k :: 0 <= k < |parts| ==> IsName(parts[k])
    ensures Strip(Join(parts)) == Join(parts) && Strip(Join(parts) + "/") == Join(parts)
  {
    JoinEnds(parts);
    StripPlain(Join(parts));
  }

  // ---------------------------------------------------------------------
  // replace('//', '/')

  /** `s.replace('//', '/')`: occurrences are replaced left to right without
      overlapping, so `///` becomes `//`. */
  function CollapseDoubleSlash(s: string): string
  {
    if |s| < 2 then s
    else if s[0] == '/' && s[1] == '/' then "/" + CollapseDoubleSlash(s[2..])
    else [s[0]] + CollapseDoubleSlash(s[1..])
  }

  /** Slash-free text passes through unchanged. */
  lemma {:induction false} CollapseSlashFree(a: string, t: string)
    requires '/' !in a
    ensures CollapseDoubleSlash(a + t) == a + CollapseDoubleSlash(t)
  {
    if a != [] {
      if |a + t| >= 2 {
        assert (a + t)[1..] == a[1..] + t;
        CollapseSlashFree(a[1..], t);
        assert [a[0]] + (a[1..] + CollapseDoubleSlash(t)) == a + CollapseDoubleSlash(t);
      } else {
        assert t == [] && a + t == a;
      }
    } else {
      assert a + t == t;
    }
  }

  // ---------------------------------------------------------------------
  // split() on whitespace

  /** The characters Python's `str.split()` treats as whitespace. */
  predicate IsSpace(c: char)
  {
    ('\t' <= c <= '\r') || ('\U{1C}' <= c <= '\U{1F}') || c == ' '
    || c == '\U{85}' || c == '\U{A0}' || c == '\U{1680}'
    || ('\U{2000}' <= c <= '\U{200A}') || c == '\U{2028}' || c == '\U{2029}'
    || c == '\U{202F}' || c == '\U{205F}' || c == '\U{3000}'
  }

  predicate IsWord(w: string)
  {
    w != [] && forall k :: 0 <= k < |w| ==> !IsSpace(w[k])
  }

  /** Length of the run of non-space characters at the front of `s`. */
  function WordLength(s: string): (n: nat)
    ensures n <= |s|
    ensures forall k :: 0 <= k < n ==> !IsSpace(s[k])
    ensures n < |s| ==> IsSpace(s[n])
  {
    if s == [] || IsSpace(s[0]) then 0 else 1 + WordLength(s[1..])
  }

  /** `s.split()`: the maximal runs of non-space characters, in order. */
  function Fields(s: string): (r: seq<string>)
    ensures forall k :: 0 <= k < |r| ==> IsWord(r[k])
    decreases |s|
  {
    if s == [] then []
    else if IsSpace(s[0]) then Fields(s[1..])
    else
      var n := WordLength(s);
      [s[..n]] + Fields(s[n..])
  }

  /** Words joined by single spaces (`' '.join(words)`). */
  function Unwords(words: seq<string>): string
  {
    if words == [] then ""
    else if |words| == 1 then words[0]
    else words[0] + " " + Unwords(words[1..])
  }

  lemma {:induction false} WordLengthOfWordThen(w: string, t: string)
    requires IsWord(w)
    requires t == [] || IsSpace(t[0])
    ensures WordLength(w + t) == |w|
  {
    if |w| > 1 {
      assert (w + t)[1..] == w[1..] + t;
      WordLengthOfWordThen(w[1..], t);
    } else {
      assert (w + t)[1..] == t;
    }
  }

  /** A word followed by a space or by nothing is split off whole. */
  lemma FieldsOfWordThen(w: string, t: string)
    requires IsWord(w)
    requires t == [] || IsSpace(t[0])
    ensures Fields(w + t) == [w] + Fields(t)
  {
    WordLengthOfWordThen(w, t);
    assert (w + t)[..|w|] == w;
    assert (w + t)[|w|..] == t;
  }

  /** Fields is a left inverse of Unwords on lists of words. */
  lemma {:induction false} FieldsOfUnwords(words: seq<string>)
    requires forall k :: 0 <= k < |words| ==> IsWord(words[k])
    ensures Fields(Unwords(words)) == words
  {
    if words != [] {
      var w := words[0];
      if |words| == 1 {
        assert w + "" == w;
        FieldsOfWordThen(w, "");
      } else {
        var rest := words[1..];
        var t := " " + Unwords(rest);
        assert Unwords(words) == w + t;
        FieldsOfWordThen(w, t);
        assert t[1..] == Unwords(rest);
        FieldsOfUnwords(rest);
        assert words == [w] + rest;
      }
    }
  }
}
