/**
  The search box's URL detection and normalisation (`isValidUrl`, `normalizeUrl`): a query
  "looks like a URL" when, after trimming, it carries an `http://` / `https://` scheme, ends
  in one of a fixed list of top-level domains, or names a `localhost:` port.
 */
module UrlHandler {
  import opened JsString

  /** `COMMON_TLDS`. The entry `vercel.app` can never match: see `VercelAppNeverMatches`. */
  const CommonTlds: seq<string> := ["com", "org", "net", "tk", "vercel.app", "app", "io", "dev", "co", "gov", "edu", "ai"]

  predicate HasScheme(t: string)
  {
    StartsWith(t, "http://") || StartsWith(t, "https://")
  }

  /** The text after the last `.`, cut at its first `/` (`parts[parts.length - 1].split('/')[0]`). */
  function LastPart(t: string): string
  {
    var parts := Split(t, '.');
    Split(parts[|parts| - 1], '/')[0]
  }

  /** The top-level-domain rule as the code evaluates it. */
  predicate TldRule(t: string)
  {
    |Split(t, '.')| > 1 && LastPart(t) in CommonTlds
  }

  /** `isValidUrl(query)`. */
  function IsValidUrl(query: string): (valid: bool)
    ensures query == "" ==> !valid
    ensures query != "" && HasScheme(Trim(query)) ==> valid
    ensures query != "" && StartsWith(Trim(query), "localhost:") ==> valid
    ensures query != "" && TldRule(Trim(query)) ==> valid
    ensures valid ==> HasScheme(Trim(query)) || TldRule(Trim(query)) || StartsWith(Trim(query), "localhost:")
  {
    if query == "" then false
    else
      var t := Trim(query);
      if HasScheme(t) then true
      else if |Split(t, '.')| > 1 && LastPart(t) in CommonTlds then true
      else if StartsWith(t, "localhost:") then true
      else false
  }

  /** Position `i` holds the last `.` of `t`. */
  ghost predicate LastDotAt(t: string, i: int)
  {
    0 <= i < |t| && t[i] == '.' && forall j :: i < j < |t| ==> t[j] != '.'
  }

  /** `x` is `u` cut at its first `/`. */
  ghost predicate CutAtSlash(u: string, x: string)
  {
    '/' !in x && (u == x || StartsWith(u, x + "/"))
  }

  /** `u`, cut at its first `/`, is one of the listed TLDs. */
  ghost predicate ListedUpToSlash(u: string)
  {
    exists k :: 0 <= k < |CommonTlds| && CutAtSlash(u, CommonTlds[k])
  }

  /** Independent statement of the TLD rule: `t` has a `.`, and the text after the last one, cut at its first `/`, is listed. */
  ghost predicate EndsInCommonTld(t: string)
  {
    exists i :: LastDotAt(t, i) && ListedUpToSlash(t[i + 1..])
  }

  /** The last piece of a split is what follows the last separator, and there is more than one piece iff the separator occurs. */
  lemma {:induction false} SplitLast(s: string, c: char)
    ensures |Split(s, c)| > 1 <==> c in s
    ensures |Split(s, c)| > 1 ==>
      exists i :: 0 <= i < |s| && s[i] == c && c !in s[i + 1..] && Split(s, c)[|Split(s, c)| - 1] == s[i + 1..]
  {
    var parts := Split(s, c);
    var n := |parts|;
    if n > 1 {
      JoinAppend(parts[..n - 1], [parts[n - 1]], c);
      assert parts[..n - 1] + [parts[n - 1]] == parts;
      var front := Join(parts[..n - 1], c);
      assert s == front + [c] + parts[n - 1];
      var i := |front|;
      assert s[i] == c && s[i + 1..] == parts[n - 1];
    }
  }

  /** The first piece of a split by `/` is the text cut at the first `/`. */
  lemma {:induction false} SplitFirst(u: string, x: string)
    ensures Split(u, '/')[0] == x <==> CutAtSlash(u, x)
  {
    var parts := Split(u, '/');
    if |parts| > 1 {
      JoinAppend([parts[0]], parts[1..], '/');
      assert [parts[0]] + parts[1..] == parts;
      assert u == parts[0] + "/" + Join(parts[1..], '/');
      assert StartsWith(u, parts[0] + "/");
    } else {
      assert u == parts[0];
    }
    if CutAtSlash(u, x) {
      if u == x {
        SplitNoSeparator(u, '/');
      } else {
        var rest := u[|x| + 1..];
        assert u == x + ['/'] + rest;
        SplitAt(x, rest, '/');
      }
    }
  }

  /** With its last `.` at `i`, the last part of `t` is the text after `i` cut at its first `/`. */
  lemma LastPartAfterDot(t: string, i: int, x: string)
    requires LastDotAt(t, i) && Split(t, '.')[|Split(t, '.')| - 1] == t[i + 1..]
    ensures LastPart(t) == x <==> CutAtSlash(t[i + 1..], x)
  {
    assert LastPart(t) == Split(t[i + 1..], '/')[0];
    SplitFirst(t[i + 1..], x);
  }

  /** A string has at most one last `.`. */
  lemma LastDotUnique(t: string, i: int, i': int)
    requires LastDotAt(t, i) && LastDotAt(t, i')
    ensures i == i'
  {
  }

  /** With its last `.` at `i`, the TLD rule holds iff the text after `i`, cut at its first `/`, is listed. */
  lemma {:induction false} TldRuleAt(t: string, i: int)
    requires LastDotAt(t, i) && |Split(t, '.')| > 1 && Split(t, '.')[|Split(t, '.')| - 1] == t[i + 1..]
    ensures TldRule(t) <==> ListedUpToSlash(t[i + 1..])
  {
    if TldRule(t) {
      var k :| 0 <= k < |CommonTlds| && CommonTlds[k] == LastPart(t);
      LastPartAfterDot(t, i, CommonTlds[k]);
    }
    if ListedUpToSlash(t[i + 1..]) {
      var k :| 0 <= k < |CommonTlds| && CutAtSlash(t[i + 1..], CommonTlds[k]);
      LastPartAfterDot(t, i, CommonTlds[k]);
      assert LastPart(t) == CommonTlds[k];
    }
  }

  /** With its last `.` at `i`, the independent rule looks only after `i`. */
  lemma EndsInCommonTldAt(t: string, i: int)
    requires LastDotAt(t, i)
    ensures EndsInCommonTld(t) <==> ListedUpToSlash(t[i + 1..])
  {
    if EndsInCommonTld(t) {
      var i' :| LastDotAt(t, i') && ListedUpToSlash(t[i' + 1..]);
      LastDotUnique(t, i, i');
    }
  }

  /** A `.` with no `.` after it is the last one. */
  lemma LastDotFromSuffix(t: string, i: int)
    requires 0 <= i < |t| && t[i] == '.' && '.' !in t[i + 1..]
    ensures LastDotAt(t, i)
  {
    forall j | i < j < |t|
      ensures t[j] != '.'
    {
      assert t[j] == t[i + 1..][j - i - 1];
    }
  }

  /** Without a `.` there is no last one, so no listed TLD ends the text. */
  lemma NoDotNoTld(t: string)
    requires '.' !in t
    ensures !EndsInCommonTld(t)
  {
    forall i | 0 <= i < |t|
      ensures !LastDotAt(t, i)
    {
      assert t[i] in t;
    }
  }

  /** The split-based evaluation of the TLD rule agrees with its independent statement. */
  lemma {:induction false} TldRuleMeaning(t: string)
    ensures TldRule(t) <==> EndsInCommonTld(t)
  {
    SplitLast(t, '.');
    var parts := Split(t, '.');
    if |parts| > 1 {
      var i :| 0 <= i < |t| && t[i] == '.' && '.' !in t[i + 1..] && parts[|parts| - 1] == t[i + 1..];
      LastDotFromSuffix(t, i);
      TldRuleAt(t, i);
      EndsInCommonTldAt(t, i);
    } else {
      NoDotNoTld(t);
    }
  }

  /** A query is valid iff it is non-empty and, trimmed, has a scheme, ends in a listed TLD, or names a `localhost:` port. */
  lemma IsValidUrlMeaning(query: string)
    ensures IsValidUrl(query) <==>
      query != "" && (HasScheme(Trim(query)) || EndsInCommonTld(Trim(query)) || StartsWith(Trim(query), "localhost:"))
  {
    TldRuleMeaning(Trim(query));
  }

  /** The last part never contains a `.`, so the listed `vercel.app` is dead. */
  lemma VercelAppNeverMatches(t: string)
    ensures LastPart(t) != "vercel.app"
  {
    var parts := Split(t, '.');
    var last := parts[|parts| - 1];
    var pieces := Split(last, '/');
    var x := pieces[0];
    if |pieces| > 1 {
      JoinAppend([x], pieces[1..], '/');
      assert [x] + pieces[1..] == pieces;
    }
    assert last[..|x|] == x;
    assert '.' !in x;
    assert "vercel.app"[6] == '.';
  }

  /** `normalizeUrl(query)`: the trimmed query, given an `http://` scheme for `localhost:` and `https://` otherwise, unless it already has one. */
  function NormalizeUrl(query: string): (url: string)
    ensures HasScheme(url)
    ensures HasScheme(Trim(query)) ==> url == Trim(query)
    ensures !HasScheme(Trim(query)) && StartsWith(Trim(query), "localhost:") ==> url == "http://" + Trim(query)
    ensures !HasScheme(Trim(query)) && !StartsWith(Trim(query), "localhost:") ==> url == "https://" + Trim(query)
  {
    var url := Trim(query);
    if !StartsWith(url, "http://") && !StartsWith(url, "https://") then
      if StartsWith(url, "localhost:") then
        assert ("http://" + url)[..7] == "http://";
        "http://" + url
      else
        assert ("https://" + url)[..8] == "https://";
        "https://" + url
    else
      url
  }

  /** A normalised URL is its own trim. */
  lemma NormalizedIsTrimmed(query: string)
    ensures Trim(NormalizeUrl(query)) == NormalizeUrl(query)
  {
    var t := Trim(query);
    if !HasScheme(t) {
      var scheme := if StartsWith(t, "localhost:") then "http://" else "https://";
      PrefixedIsTrimmed(scheme, t);
    } else {
      TrimIdempotent(query);
    }
  }

  /** A scheme followed by trimmed text is its own trim. */
  lemma PrefixedIsTrimmed(scheme: string, t: string)
    requires scheme == "http://" || scheme == "https://"
    requires t == [] || (!IsJsSpace(t[0]) && !IsJsSpace(t[|t| - 1]))
    ensures Trim(scheme + t) == scheme + t
  {
    var url := scheme + t;
    assert url[0] == 'h';
    if t == [] {
      assert url[|url| - 1] == '/';
    } else {
      assert url[|url| - 1] == t[|t| - 1];
    }
    TrimOfTrimmed(url);
  }

  /** Normalising twice is normalising once. */
  lemma NormalizeIdempotent(query: string)
    ensures NormalizeUrl(NormalizeUrl(query)) == NormalizeUrl(query)
  {
    NormalizedIsTrimmed(query);
  }

  /** Whatever the query, its normalisation passes `isValidUrl`. */
  lemma NormalizedIsValid(query: string)
    ensures IsValidUrl(NormalizeUrl(query))
  {
    NormalizedIsTrimmed(query);
  }
}
