/**
  The few JavaScript `String.prototype` operations the application relies on, on strings
  modelled as sequences of characters: `startsWith`, `endsWith`, `trim`, `split` with a
  one-character separator, and an ASCII-only `toLowerCase`.
 */
module JsString {

  /** `s.startsWith(p)`. */
  predicate StartsWith(s: string, p: string)
  {
    |p| <= |s| && s[..|p|] == p
  }

  /** `s.endsWith(p)`. */
  predicate EndsWith(s: string, p: string)
  {
    |p| <= |s| && s[|s| - |p|..] == p
  }

  /**
    The characters `String.prototype.trim` removes: the WhiteSpace code points of
    ECMAScript (tab, vertical tab, form feed, space, no-break space, the byte order
    mark and every Unicode "space separator") and its LineTerminator code points.
   */
  predicate IsJsSpace(c: char)
  {
    || c == '\t' || c == '\n' || c == '\U{B}' || c == '\U{C}' || c == '\r' || c == ' '
    || c == '\U{A0}' || c == '\U{1680}' || ('\U{2000}' <= c <= '\U{200A}')
    || c == '\U{2028}' || c == '\U{2029}' || c == '\U{202F}' || c == '\U{205F}'
    || c == '\U{3000}' || c == '\U{FEFF}'
  }

  /** `s.trimStart()`: every leading white-space character dropped (see `TrimStartDrops`). */
  function TrimStart(s: string): (r: string)
    ensures |r| <= |s|
    ensures r == [] || !IsJsSpace(r[0])
  {
    if |s| > 0 && IsJsSpace(s[0]) then TrimStart(s[1..]) else s
  }

  /** `s.trimEnd()`: every trailing white-space character dropped (see `TrimEndDrops`). */
  function TrimEnd(s: string): (r: string)
    ensures |r| <= |s| && r == s[..|r|]
    ensures r == [] || !IsJsSpace(r[|r| - 1])
  {
    if |s| > 0 && IsJsSpace(s[|s| - 1]) then TrimEnd(s[..|s| - 1]) else s
  }

  /** `trimStart` keeps a suffix and drops only white space before it. */
  lemma {:induction false} TrimStartDrops(s: string)
    ensures var r := TrimStart(s);
      && r == s[|s| - |r|..]
      && forall i :: 0 <= i < |s| - |r| ==> IsJsSpace(s[i])
  {
    if |s| > 0 && IsJsSpace(s[0]) {
      TrimStartDrops(s[1..]);
      assert forall i :: 1 <= i < |s| ==> s[1..][i - 1] == s[i];
    }
  }

  /** `trimEnd` keeps a prefix and drops only white space after it. */
  lemma {:induction false} TrimEndDrops(s: string)
    ensures var r := TrimEnd(s);
      forall i :: |r| <= i < |s| ==> IsJsSpace(s[i])
  {
    if |s| > 0 && IsJsSpace(s[|s| - 1]) {
      TrimEndDrops(s[..|s| - 1]);
      assert forall i :: 0 <= i < |s| - 1 ==> s[..|s| - 1][i] == s[i];
    }
  }

  /** `s.trim()`. */
  function Trim(s: string): (r: string)
    ensures r == [] || (!IsJsSpace(r[0]) && !IsJsSpace(r[|r| - 1]))
  {
    TrimEnd(TrimStart(s))
  }

  /** A string that neither starts nor ends with white space is its own trim. */
  lemma TrimOfTrimmed(s: string)
    requires s == [] || (!IsJsSpace(s[0]) && !IsJsSpace(s[|s| - 1]))
    ensures Trim(s) == s
  {
  }

  /** Trimming is idempotent. */
  lemma TrimIdempotent(s: string)
    ensures Trim(Trim(s)) == Trim(s)
  {
    TrimOfTrimmed(Trim(s));
  }

  /** Text that starts and ends with non-white characters is its own trim, so it starts with its own first part. */
  lemma TrimmedStartsWith(p: string, t: string)
    requires p != [] && !IsJsSpace(p[0]) && t != [] && !IsJsSpace(t[|t| - 1])
    ensures StartsWith(Trim(p + t), p)
  {
    var s := p + t;
    assert s[0] == p[0] && s[|s| - 1] == t[|t| - 1];
    TrimOfTrimmed(s);
    assert s[..|p|] == p;
  }

  /** ASCII-only `toLowerCase`: maps `A`..`Z` to `a`..`z` and leaves every other character. */
  function LowerChar(c: char): (r: char)
    ensures 'A' <= c <= 'Z' ==> 'a' <= r <= 'z' && r as int - c as int == 32
    ensures !('A' <= c <= 'Z') ==> r == c
  {
    if 'A' <= c <= 'Z' then (c as int + 32) as char else c
  }

  function ToLower(s: string): (r: string)
    ensures |r| == |s|
    ensures forall i :: 0 <= i < |s| ==> r[i] == LowerChar(s[i])
  {
    if s == [] then [] else [LowerChar(s[0])] + ToLower(s[1..])
  }

  /** The inverse of `Split`: the parts glued back together with the separator between them. */
  function Join(parts: seq<string>, sep: char): string
    requires |parts| >= 1
  {
    if |parts| == 1 then parts[0] else parts[0] + [sep] + Join(parts[1..], sep)
  }

  /**
    `s.split(sep)` for a one-character separator: the maximal separator-free pieces of `s`,
    in order, including empty pieces between adjacent separators and at either end.
   */
  function Split(s: string, sep: char): (parts: seq<string>)
    ensures |parts| >= 1
    ensures forall i :: 0 <= i < |parts| ==> sep !in parts[i]
    ensures Join(parts, sep) == s
  {
    if s == [] then [""]
    else if s[0] == sep then [""] + Split(s[1..], sep)
    else
      var rest := Split(s[1..], sep);
      [[s[0]] + rest[0]] + rest[1..]
  }

  /** A string without the separator splits into itself alone. */
  lemma SplitNoSeparator(s: string, sep: char)
    requires sep !in s
    ensures Split(s, sep) == [s]
  {
    SplitJoin([s], sep);
  }

  /** Splitting at one separator occurrence: the pieces of the text before it, then the rest. */
  lemma {:induction false} SplitAt(a: string, b: string, sep: char)
    requires sep !in a
    ensures Split(a + [sep] + b, sep) == [a] + Split(b, sep)
  {
    var parts := [a] + Split(b, sep);
    assert parts[1..] == Split(b, sep);
    assert Join(parts, sep) == a + [sep] + b;
    SplitJoin(parts, sep);
  }

  /** Joining two part lists puts one separator between their joins. */
  lemma {:induction false} JoinAppend(p: seq<string>, q: seq<string>, sep: char)
    requires |p| >= 1 && |q| >= 1
    ensures Join(p + q, sep) == Join(p, sep) + [sep] + Join(q, sep)
  {
    if |p| > 1 {
      assert (p + q)[1..] == p[1..] + q;
      JoinAppend(p[1..], q, sep);
    } else {
      assert (p + q)[1..] == q;
    }
  }

  /** Splitting a concatenation around a separator splits each side independently. */
  lemma {:induction false} SplitAppend(a: string, b: string, sep: char)
    ensures Split(a + [sep] + b, sep) == Split(a, sep) + Split(b, sep)
  {
    var pa := Split(a, sep);
    var pb := Split(b, sep);
    var parts := pa + pb;
    JoinAppend(pa, pb, sep);
    assert Join(parts, sep) == a + [sep] + b;
    forall i | 0 <= i < |parts|
      ensures sep !in parts[i]
    {
      if i < |pa| {
        assert parts[i] == pa[i];
      } else {
        assert parts[i] == pb[i - |pa|];
      }
    }
    SplitJoin(parts, sep);
  }

  /** Round trip: separator-free parts, joined and split again, are given back. */
  lemma {:induction false} SplitJoin(parts: seq<string>, sep: char)
    requires |parts| >= 1
    requires forall i :: 0 <= i < |parts| ==> sep !in parts[i]
    ensures Split(Join(parts, sep), sep) == parts
    decreases |Join(parts, sep)|, |parts[0]|
  {
    if parts[0] != [] {
      var shorter := [parts[0][1..]] + parts[1..];
      assert shorter[1..] == parts[1..];
      JoinDropFirst(parts, sep);
      SplitJoin(shorter, sep);
      SplitJoinCharStep(parts, sep);
    } else if |parts| > 1 {
      assert Join(parts, sep) == [sep] + Join(parts[1..], sep);
      SplitJoin(parts[1..], sep);
      SplitJoinSepStep(parts, sep);
    }
  }

  /** Dropping the first character of a non-empty first part drops the first character of the join. */
  lemma {:induction false} JoinDropFirst(parts: seq<string>, sep: char)
    requires |parts| >= 1 && parts[0] != []
    ensures var j, shorter := Join(parts, sep), [parts[0][1..]] + parts[1..];
      |j| > 0 && j[0] == parts[0][0] && j[1..] == Join(shorter, sep)
  {
    var p := parts[0];
    var shorter := [p[1..]] + parts[1..];
    assert shorter[0] == p[1..];
    if |parts| > 1 {
      var rest := Join(parts[1..], sep);
      assert shorter[1..] == parts[1..];
      assert Join(shorter, sep) == p[1..] + [sep] + rest;
      assert Join(parts, sep) == p + [sep] + rest;
      assert p + [sep] + rest == [p[0]] + (p[1..] + [sep] + rest);
    } else {
      assert [p[0]] + p[1..] == p;
    }
  }

  /** The step for a first part that starts with a character other than the separator. */
  lemma SplitJoinCharStep(parts: seq<string>, sep: char)
    requires |parts| >= 1 && parts[0] != [] && parts[0][0] != sep
    requires var shorter := [parts[0][1..]] + parts[1..];
      Split(Join(shorter, sep), sep) == shorter
    ensures Split(Join(parts, sep), sep) == parts
  {
    var p := parts[0];
    var shorter := [p[1..]] + parts[1..];
    JoinDropFirst(parts, sep);
    var j := Join(parts, sep);
    assert j[0] != sep;
    assert Split(j, sep) == [[p[0]] + shorter[0]] + shorter[1..];
    assert [p[0]] + p[1..] == p;
    assert shorter[1..] == parts[1..];
    assert [p] + parts[1..] == parts;
  }

  /** The step for an empty first part: the join starts with the separator. */
  lemma SplitJoinSepStep(parts: seq<string>, sep: char)
    requires |parts| > 1 && parts[0] == []
    requires Split(Join(parts[1..], sep), sep) == parts[1..]
    ensures Split(Join(parts, sep), sep) == parts
  {
    var j := Join(parts, sep);
    assert j == [sep] + Join(parts[1..], sep);
    assert j[1..] == Join(parts[1..], sep);
    assert [""] + parts[1..] == parts;
  }
}
