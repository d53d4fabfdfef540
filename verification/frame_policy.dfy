/**
  The frame-ability verdict of `canBeIframedFlow`: whether a page may be shown directly in an
  embedded frame, decided from two headers of a HEAD probe. It reads the `X-Frame-Options`
  header of RFC 7034 (section 2.1) and the `frame-ancestors` directive of Content Security
  Policy Level 2 (section 7.7), but departs from both in several ways, all modelled as the
  code behaves:
  - `'self'` is always treated as forbidding, and any probe failure as "not frame-able";
  - the directive name is matched by a case-sensitive prefix of the trimmed directive, so
    `Frame-Ancestors 'none'` is not recognised (and `frame-ancestorsx` is);
  - the source list is split on U+0020 only, so a tab or other white space before `'none'`
    hides it;
  - the keywords `'none'` and `'self'` are matched case-sensitively, so `'NONE'` allows framing;
  - several `Content-Security-Policy` headers reach the code comma-joined by `headers.get`
    and are read as one policy, so only the first `frame-ancestors` directive across all of
    them counts, and a second policy's directive may be glued to the first one's last source.
 */
module FramePolicy {
  import opened Wrappers
  import opened JsString

  /** The outcome of the HEAD probe: the two headers (absent as `None`), or a thrown failure. */
  datatype Probe =
    | ProbeFailed
    | Responded(xFrameOptions: Option<string>, csp: Option<string>)

  /** JavaScript truthiness of `headers.get(name)`: present and not the empty string. */
  predicate Present(h: Option<string>)
  {
    h.Some? && h.value != ""
  }

  /** `X-Frame-Options`, lower-cased, is exactly `deny` or `sameorigin`. */
  predicate XfoForbids(xfo: Option<string>)
  {
    Present(xfo) && (ToLower(xfo.value) == "deny" || ToLower(xfo.value) == "sameorigin")
  }

  /** A `;`-separated CSP piece is taken for the `frame-ancestors` directive when its trimmed text starts with that name. */
  predicate IsFrameAncestors(directive: string)
  {
    StartsWith(Trim(directive), "frame-ancestors")
  }

  /** Directive `i` is the first `frame-ancestors` directive of the list. */
  predicate FirstFrameAncestorsAt(directives: seq<string>, i: int)
  {
    && 0 <= i < |directives|
    && IsFrameAncestors(directives[i])
    && forall j :: 0 <= j < i ==> !IsFrameAncestors(directives[j])
  }

  /** The source list of a directive: its space-separated tokens after the first one. */
  function Sources(directive: string): seq<string>
  {
    Split(directive, ' ')[1..]
  }

  /** The source list names `'none'` or `'self'`, exactly and case-sensitively. */
  predicate ListsNoneOrSelf(directive: string)
  {
    "'none'" in Sources(directive) || "'self'" in Sources(directive)
  }

  /** Independent statement of the CSP rule: the first `frame-ancestors` directive lists `'none'` or `'self'`. */
  ghost predicate CspForbids(csp: string)
  {
    var directives := Split(csp, ';');
    exists i :: FirstFrameAncestorsAt(directives, i) && ListsNoneOrSelf(directives[i])
  }

  /** The position `directives.find(d => d.trim().startsWith('frame-ancestors'))` stops at, searching from `k`. */
  function FindFrameAncestorsFrom(directives: seq<string>, k: nat): (r: Option<nat>)
    requires k <= |directives|
    ensures r.Some? ==> k <= r.value < |directives| && IsFrameAncestors(directives[r.value])
    ensures r.Some? ==> forall j :: k <= j < r.value ==> !IsFrameAncestors(directives[j])
    ensures r.None? ==> forall j :: k <= j < |directives| ==> !IsFrameAncestors(directives[j])
    decreases |directives| - k
  {
    if k == |directives| then None
    else if IsFrameAncestors(directives[k]) then Some(k)
    else FindFrameAncestorsFrom(directives, k + 1)
  }

  /** `directives.find(d => d.trim().startsWith('frame-ancestors'))`: the first such directive. */
  function FindFrameAncestors(directives: seq<string>): (r: Option<string>)
    ensures r.None? <==> forall j :: 0 <= j < |directives| ==> !IsFrameAncestors(directives[j])
    ensures r.Some? ==> exists i :: FirstFrameAncestorsAt(directives, i) && r.value == directives[i]
  {
    match FindFrameAncestorsFrom(directives, 0)
    case Some(i) => Some(directives[i])
    case None => None
  }

  /** The verdict: `true` when the page may be framed directly. */
  function CanBeIframed(probe: Probe): (verdict: bool)
    ensures probe.ProbeFailed? ==> !verdict
    ensures probe.Responded? ==>
      (verdict <==> !XfoForbids(probe.xFrameOptions)
                    && !(Present(probe.csp) && CspForbids(probe.csp.value)))
  {
    match probe
    case ProbeFailed => false
    case Responded(xfo, csp) =>
      if Present(xfo) && (ToLower(xfo.value) == "deny" || ToLower(xfo.value) == "sameorigin") then
        false
      else if Present(csp) then
        var found := FindFrameAncestors(Split(csp.value, ';'));
        if found.Some? && found.value != "" then
          var sources := Split(found.value, ' ')[1..];
          assert sources == Sources(found.value);
          if "'none'" in sources || "'self'" in sources then false else true
        else
          true
      else
        true
  }

  /** A forbidding `X-Frame-Options` decides the verdict whatever the CSP says. */
  lemma XfoForbidsWins(xfo: Option<string>, csp: Option<string>)
    requires XfoForbids(xfo)
    ensures !CanBeIframed(Responded(xfo, csp))
  {
  }

  /** Any other `X-Frame-Options` value (or none) leaves the verdict to the CSP alone. */
  lemma OtherXfoFallsThrough(xfo: Option<string>, csp: Option<string>)
    requires !XfoForbids(xfo)
    ensures CanBeIframed(Responded(xfo, csp)) == CanBeIframed(Responded(None, csp))
  {
  }

  /** With neither header present the page is frame-able. */
  lemma NoHeadersFramable()
    ensures CanBeIframed(Responded(None, None))
    ensures CanBeIframed(Responded(Some(""), Some("")))
  {
  }

  /** When directive `i` is the first `frame-ancestors` one, it alone decides the CSP rule. */
  lemma FirstDirectiveDecides(csp: string, i: int)
    requires FirstFrameAncestorsAt(Split(csp, ';'), i)
    ensures CanBeIframed(Responded(None, Some(csp))) == !ListsNoneOrSelf(Split(csp, ';')[i])
  {
    // the first `frame-ancestors` directive is unique
    forall k | FirstFrameAncestorsAt(Split(csp, ';'), k)
      ensures k == i
    {
    }
  }

  /** Directives appended after a CSP that already has a `frame-ancestors` directive are never consulted. */
  lemma {:induction false} LaterDirectivesIgnored(csp: string, tail: string, i: int)
    requires FirstFrameAncestorsAt(Split(csp, ';'), i)
    ensures CanBeIframed(Responded(None, Some(csp + ";" + tail))) == CanBeIframed(Responded(None, Some(csp)))
  {
    SplitAppend(csp, tail, ';');
    assert csp + ";" + tail == csp + [';'] + tail;
    var ds := Split(csp + ";" + tail, ';');
    assert ds == Split(csp, ';') + Split(tail, ';');
    assert FirstFrameAncestorsAt(ds, i);
    FirstDirectiveDecides(csp, i);
    FirstDirectiveDecides(csp + ";" + tail, i);
  }

  /** `X-Frame-Options` is compared case-insensitively: values equal up to case give the same verdict. */
  lemma XfoCaseInsensitive(a: string, b: string, csp: Option<string>)
    requires ToLower(a) == ToLower(b)
    ensures CanBeIframed(Responded(Some(a), csp)) == CanBeIframed(Responded(Some(b), csp))
  {
    assert |a| == |ToLower(a)|;
  }

  /** A token of a source list: non-empty, without white space, `;` or space. */
  predicate PlainToken(t: string)
  {
    t != [] && ';' !in t && forall i :: 0 <= i < |t| ==> !IsJsSpace(t[i])
  }

  /** The last character of a join is the last character of the last part. */
  lemma {:induction false} JoinLast(parts: seq<string>, sep: char)
    requires |parts| >= 1 && parts[|parts| - 1] != []
    ensures var j := Join(parts, sep); |j| > 0 && j[|j| - 1] == parts[|parts| - 1][|parts[|parts| - 1]| - 1]
  {
    if |parts| > 1 {
      JoinLast(parts[1..], sep);
    }
  }

  /** A character that is not the separator and occurs in no part does not occur in the join. */
  lemma {:induction false} JoinAvoids(parts: seq<string>, sep: char, c: char)
    requires |parts| >= 1 && c != sep
    requires forall i :: 0 <= i < |parts| ==> c !in parts[i]
    ensures c !in Join(parts, sep)
  {
    if |parts| > 1 {
      JoinAvoids(parts[1..], sep, c);
    }
  }

  /** `frame-ancestors` followed by a space-joined list of plain tokens holds no `;`, so it is a single directive. */
  lemma {:induction false} SingleDirectiveSplit(tokens: seq<string>)
    requires |tokens| >= 1
    requires forall i :: 0 <= i < |tokens| ==> PlainToken(tokens[i])
    ensures var csp := "frame-ancestors " + Join(tokens, ' ');
      Split(csp, ';') == [csp]
  {
    var name := "frame-ancestors";
    var list := Join(tokens, ' ');
    var csp := "frame-ancestors " + list;
    assert csp == name + [' '] + list;
    JoinAvoids(tokens, ' ', ';');
    assert ';' !in name;
    assert ';' !in csp;
    SplitNoSeparator(csp, ';');
  }

  /** That directive is recognised as `frame-ancestors`. */
  lemma {:induction false} SingleDirectiveRecognised(tokens: seq<string>)
    requires |tokens| >= 1
    requires forall i :: 0 <= i < |tokens| ==> PlainToken(tokens[i])
    ensures IsFrameAncestors("frame-ancestors " + Join(tokens, ' '))
  {
    var list := Join(tokens, ' ');
    var t := " " + list;
    JoinLast(tokens, ' ');
    assert t[|t| - 1] == list[|list| - 1];
    TrimmedStartsWith("frame-ancestors", t);
    assert "frame-ancestors" + t == "frame-ancestors " + list;
  }

  /** The sources of that directive are exactly the tokens. */
  lemma {:induction false} SingleDirectiveSources(tokens: seq<string>)
    requires |tokens| >= 1
    requires forall i :: 0 <= i < |tokens| ==> PlainToken(tokens[i])
    ensures Sources("frame-ancestors " + Join(tokens, ' ')) == tokens
  {
    var name := "frame-ancestors";
    var list := Join(tokens, ' ');
    assert "frame-ancestors " + list == name + [' '] + list;
    forall i | 0 <= i < |tokens|
      ensures ' ' !in tokens[i]
    {
      assert IsJsSpace(' ');
    }
    assert ' ' !in name;
    SplitAt(name, list, ' ');
    SplitJoin(tokens, ' ');
  }

  /**
    A policy made of one `frame-ancestors` directive with source list `tokens` forbids framing
    exactly when one of the tokens is `'none'` or `'self'`, character for character.
   */
  lemma {:induction false} SingleDirective(tokens: seq<string>)
    requires |tokens| >= 1
    requires forall i :: 0 <= i < |tokens| ==> PlainToken(tokens[i])
    ensures CanBeIframed(Responded(None, Some("frame-ancestors " + Join(tokens, ' '))))
            <==> "'none'" !in tokens && "'self'" !in tokens
  {
    var csp := "frame-ancestors " + Join(tokens, ' ');
    SingleDirectiveSplit(tokens);
    SingleDirectiveRecognised(tokens);
    SingleDirectiveSources(tokens);
    assert FirstFrameAncestorsAt(Split(csp, ';'), 0);
    FirstDirectiveDecides(csp, 0);
  }
}
