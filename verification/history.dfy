/**
  The search history of `HistoryProvider`: most recent query first, at most one entry per
  query up to (ASCII) case, capped at `MaxEntries`. The two `Date.now()` readings of
  `addToHistory` (one for the id, one for the timestamp) are parameters.
 */
module SearchHistory {
  import opened JsString

  /** `HistoryItem`: the id and timestamp are epoch milliseconds. */
  datatype Entry = Entry(id: int, query: string, timestamp: int)

  /** `.slice(0, 100)`. */
  const MaxEntries: nat := 100

  predicate SameQuery(a: string, b: string)
  {
    ToLower(a) == ToLower(b)
  }

  /** `prevHistory.filter(item => item.query.toLowerCase() !== query.toLowerCase())`. */
  function Others(history: seq<Entry>, query: string): (r: seq<Entry>)
    ensures forall e :: e in r <==> e in history && !SameQuery(e.query, query)
    ensures |r| <= |history|
  {
    if history == [] then []
    else if SameQuery(history[0].query, query) then Others(history[1..], query)
    else [history[0]] + Others(history[1..], query)
  }

  /** The number of entries whose query matches `query` up to case. */
  function CountSame(history: seq<Entry>, query: string): nat
  {
    if history == [] then 0
    else (if SameQuery(history[0].query, query) then 1 else 0) + CountSame(history[1..], query)
  }

  /** `addToHistory(query)`; with `saveHistory` off the history is left as it was. */
  function AddToHistory(history: seq<Entry>, saveHistory: bool, query: string, idNow: int, stampNow: int): (r: seq<Entry>)
    ensures !saveHistory ==> r == history
    ensures saveHistory ==> |r| >= 1 && r[0] == Entry(idNow, query, stampNow)
    ensures saveHistory ==> |r| <= MaxEntries
    ensures saveHistory ==> forall e :: e in r[1..] ==> e in history && !SameQuery(e.query, query)
    ensures saveHistory ==> |r| == if 1 + |Others(history, query)| < MaxEntries then 1 + |Others(history, query)| else MaxEntries
    ensures saveHistory ==> r[1..] == Others(history, query)[..|r| - 1]
  {
    if !saveHistory then history
    else
      var kept := Others(history, query);
      var r := ([Entry(idNow, query, stampNow)] + kept)[..if 1 + |kept| < MaxEntries then 1 + |kept| else MaxEntries];
      assert r[1..] == kept[..|r| - 1];
      assert forall e :: e in r[1..] ==> e in kept;
      r
  }

  /** `clearHistory()`. */
  function ClearHistory(history: seq<Entry>): (r: seq<Entry>)
    ensures |r| == 0
  {
    []
  }

  /** `SameQuery` is an equivalence, so the new entry is counted once and the kept ones never. */
  lemma {:induction false} OthersHaveNoneSame(history: seq<Entry>, query: string)
    ensures CountSame(Others(history, query), query) == 0
  {
    if history != [] {
      OthersHaveNoneSame(history[1..], query);
      if !SameQuery(history[0].query, query) {
        var rest := Others(history[1..], query);
        assert ([history[0]] + rest)[1..] == rest;
      }
    }
  }

  lemma {:induction false} CountSamePrefix(s: seq<Entry>, n: nat, query: string)
    requires n <= |s|
    ensures CountSame(s[..n], query) <= CountSame(s, query)
  {
    if n > 0 {
      assert s[..n][1..] == s[1..][..n - 1];
      CountSamePrefix(s[1..], n - 1, query);
    }
  }

  /** After adding `query`, exactly one entry matches it up to case. */
  lemma ExactlyOneMatch(history: seq<Entry>, query: string, idNow: int, stampNow: int)
    ensures CountSame(AddToHistory(history, true, query, idNow, stampNow), query) == 1
  {
    var kept := Others(history, query);
    var r := AddToHistory(history, true, query, idNow, stampNow);
    OthersHaveNoneSame(history, query);
    CountSamePrefix(kept, |r| - 1, query);
    assert CountSame(r[1..], query) == 0;
    assert SameQuery(r[0].query, query);
  }

  /** Filtering keeps the relative order of what it keeps: it distributes over concatenation. */
  lemma {:induction false} OthersAppend(a: seq<Entry>, b: seq<Entry>, query: string)
    ensures Others(a + b, query) == Others(a, query) + Others(b, query)
  {
    if a != [] {
      assert (a + b)[0] == a[0];
      assert (a + b)[1..] == a[1..] + b;
      OthersAppend(a[1..], b, query);
      if !SameQuery(a[0].query, query) {
        assert [a[0]] + (Others(a[1..], query) + Others(b, query)) == [a[0]] + Others(a[1..], query) + Others(b, query);
      }
    } else {
      assert a + b == b;
    }
  }
}
