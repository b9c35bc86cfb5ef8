/** The end of the relevance ranker (script.js lines 67-69 and 93-96): the
    Map's entries are sorted by descending score with a comparator that
    subtracts the first entry's score from the second's, cut to the
    optional number of results with `slice`, and returned as (name, score)
    pairs or as names alone. */
module Ranking {
  import opened JsText
  import opened JsMap
  import opened Scoring

  /** No entry scores more than the one before it. */
  predicate NonIncreasing(p: seq<Entry>) {
    forall i, j :: 0 <= i < j < |p| ==> p[i].score >= p[j].score
  }

  /** `x` placed after every entry of `p` that it does not beat: moving from
      the back, `x` passes only entries with a strictly lower score. */
  function Insert(p: seq<Entry>, x: Entry): seq<Entry> {
    if p == [] || p[|p| - 1].score >= x.score then p + [x]
    else Insert(p[..|p| - 1], x) + [p[|p| - 1]]
  }

  /** The stable sort by descending score: each entry in turn inserted into
      the sorted prefix. */
  function SortByScore(p: seq<Entry>): seq<Entry> {
    if p == [] then [] else Insert(SortByScore(p[..|p| - 1]), p[|p| - 1])
  }

  /** The entries of `p` that have score `s`, in their order in `p`. */
  function WithScore(p: seq<Entry>, s: int): seq<Entry> {
    if p == [] then []
    else WithScore(p[..|p| - 1], s) + (if p[|p| - 1].score == s then [p[|p| - 1]] else [])
  }

  lemma {:induction false} WithScoreAppend(p: seq<Entry>, q: seq<Entry>, s: int)
    ensures WithScore(p + q, s) == WithScore(p, s) + WithScore(q, s)
    decreases |q|
  {
    if q == [] {
      assert p + q == p;
    } else {
      assert (p + q)[..|p + q| - 1] == p + q[..|q| - 1];
      WithScoreAppend(p, q[..|q| - 1], s);
    }
  }

  /** Inserting `x` adds `x` and keeps every other entry. */
  lemma {:induction false} InsertMultiset(p: seq<Entry>, x: Entry)
    ensures multiset(Insert(p, x)) == multiset(p) + multiset{x}
  {
    if !(p == [] || p[|p| - 1].score >= x.score) {
      var init, last := p[..|p| - 1], p[|p| - 1];
      assert p == init + [last];
      InsertMultiset(init, x);
    }
  }

  /** Every entry of `Insert(p, x)` is `x` or an entry of `p`. */
  lemma InsertMembers(p: seq<Entry>, x: Entry, e: Entry)
    requires e in Insert(p, x)
    ensures e == x || exists k :: 0 <= k < |p| && p[k] == e
  {
    InsertMultiset(p, x);
    assert e in multiset(Insert(p, x));
    if e != x {
      assert e in multiset(p);
    }
  }

  /** Inserting `x` keeps the order of the entries of each score. */
  lemma {:induction false} InsertStable(p: seq<Entry>, x: Entry, s: int)
    ensures WithScore(Insert(p, x), s) == WithScore(p + [x], s)
  {
    if !(p == [] || p[|p| - 1].score >= x.score) {
      var init, last := p[..|p| - 1], p[|p| - 1];
      assert p == init + [last];
      InsertStable(init, x, s);
      var q := Insert(init, x);
      calc {
        WithScore(Insert(p, x), s);
        WithScore(q + [last], s);
        { WithScoreAppend(q, [last], s); }
        WithScore(q, s) + WithScore([last], s);
        WithScore(init + [x], s) + WithScore([last], s);
        { WithScoreAppend(init, [x], s); }
        WithScore(init, s) + WithScore([x], s) + WithScore([last], s);
        { assert last.score < x.score; }
        WithScore(init, s) + WithScore([last], s) + WithScore([x], s);
        { WithScoreAppend(init, [last], s); }
        WithScore(p, s) + WithScore([x], s);
        { WithScoreAppend(p, [x], s); }
        WithScore(p + [x], s);
      }
    }
  }

  /** Inserting into a sorted sequence keeps it sorted. */
  lemma {:induction false} InsertSorted(p: seq<Entry>, x: Entry)
    requires NonIncreasing(p)
    ensures NonIncreasing(Insert(p, x))
  {
    if !(p == [] || p[|p| - 1].score >= x.score) {
      var init, last := p[..|p| - 1], p[|p| - 1];
      assert NonIncreasing(init);
      InsertSorted(init, x);
      var q := Insert(init, x);
      forall i, j | 0 <= i < j < |q| + 1
        ensures (q + [last])[i].score >= (q + [last])[j].score
      {
        if j == |q| {
          InsertMembers(init, x, q[i]);
          if q[i] != x {
            var k :| 0 <= k < |init| && init[k] == q[i];
            assert p[k] == q[i];
          }
        }
      }
    }
  }

  /** The sort keeps the entries, orders them by non-increasing score, and
      keeps entries of equal score in their original order (it is
      stable). */
  lemma {:induction false} SortFacts(p: seq<Entry>, s: int)
    ensures multiset(SortByScore(p)) == multiset(p)
    ensures |SortByScore(p)| == |p|
    ensures NonIncreasing(SortByScore(p))
    ensures WithScore(SortByScore(p), s) == WithScore(p, s)
  {
    if p != [] {
      var init, last := p[..|p| - 1], p[|p| - 1];
      assert p == init + [last];
      SortFacts(init, s);
      InsertMultiset(SortByScore(init), last);
      InsertStable(SortByScore(init), last, s);
      InsertSorted(SortByScore(init), last);
      calc {
        WithScore(SortByScore(p), s);
        WithScore(SortByScore(init) + [last], s);
        { WithScoreAppend(SortByScore(init), [last], s); }
        WithScore(SortByScore(init), s) + WithScore([last], s);
        { WithScoreAppend(init, [last], s); }
        WithScore(p, s);
      }
      assert |SortByScore(p)| == |multiset(SortByScore(p))|;
    }
  }

  /** Sorting keeps keys distinct. */
  lemma {:induction false} SortUnique(p: seq<Entry>)
    requires UniqueKeys(p)
    ensures UniqueKeys(SortByScore(p))
  {
    if p != [] {
      var init, last := p[..|p| - 1], p[|p| - 1];
      assert UniqueKeys(init);
      SortUnique(init);
      SortFacts(init, 0);
      forall e | e in SortByScore(init)
        ensures e.name != last.name
      {
        assert e in multiset(init);
        var k :| 0 <= k < |init| && init[k] == e;
        assert p[k] == e;
      }
      InsertUnique(SortByScore(init), last);
    }
  }

  lemma {:induction false} InsertUnique(p: seq<Entry>, x: Entry)
    requires UniqueKeys(p)
    requires forall e :: e in p ==> e.name != x.name
    ensures UniqueKeys(Insert(p, x))
  {
    if !(p == [] || p[|p| - 1].score >= x.score) {
      var init, last := p[..|p| - 1], p[|p| - 1];
      assert UniqueKeys(init);
      InsertUnique(init, x);
      var q := Insert(init, x);
      forall e | e in q
        ensures e.name != last.name
      {
        InsertMembers(init, x, e);
        if e != x {
          var k :| 0 <= k < |init| && init[k] == e;
          assert p[k] == e;
        }
      }
      forall i, j | 0 <= i < j < |q| + 1
        ensures (q + [last])[i].name != (q + [last])[j].name
      {
        if j == |q| {
          assert q[i] in q;
        }
      }
    }
  }

  /** `x` lands at `j` when it beats every entry from `j` on and not the
      entry before `j`. */
  lemma {:induction false} InsertAt(p: seq<Entry>, j: nat, x: Entry)
    requires j <= |p| && (j == 0 || p[j - 1].score >= x.score)
    requires forall k :: j <= k < |p| ==> p[k].score < x.score
    ensures Insert(p, x) == p[..j] + [x] + p[j..]
    decreases |p|
  {
    if j < |p| {
      var init, last := p[..|p| - 1], p[|p| - 1];
      InsertAt(init, j, x);
      assert init[..j] == p[..j] && init[j..] + [last] == p[j..];
    } else {
      assert p[..j] == p && p[j..] == [];
    }
  }

  /** A sequence that agrees with `p` before `j`, holds `x` at `j`, and
      agrees with `p` shifted by one after `j` is `p` with `x` put at `j`. */
  lemma Reassembled(r: seq<Entry>, p: seq<Entry>, j: nat, x: Entry)
    requires j <= |p| && |r| == |p| + 1
    requires forall k :: 0 <= k < j ==> r[k] == p[k]
    requires r[j] == x
    requires forall k :: j < k < |r| ==> r[k] == p[k - 1]
    ensures r == p[..j] + [x] + p[j..]
  {
    var placed := p[..j] + [x] + p[j..];
    forall k | 0 <= k < |r|
      ensures r[k] == placed[k]
    {
      if k > j {
        assert placed[k] == p[j..][k - j - 1];
      }
    }
  }

  /** One pass of the insertion sort: the entries at the end of the sorted
      prefix `a[..i]` that score strictly less than `a[i]` each shift one
      place back, and `a[i]` goes into the gap. */
  method InsertLast(a: array<Entry>, i: nat)
    requires i < a.Length
    modifies a
    ensures a[..i + 1] == Insert(old(a[..i]), old(a[i]))
    ensures a[i + 1..] == old(a[i + 1..])
  {
    ghost var sorted := a[..i];
    var x := a[i];
    var j := i;
    while j > 0 && a[j - 1].score < x.score
      invariant 0 <= j <= i
      invariant forall k :: 0 <= k < j ==> a[k] == sorted[k]
      invariant forall k :: j < k <= i ==> a[k] == sorted[k - 1]
      invariant forall k :: i < k < a.Length ==> a[k] == old(a[k])
      invariant forall k :: j <= k < i ==> sorted[k].score < x.score
    {
      a[j] := a[j - 1];
      j := j - 1;
    }
    a[j] := x;
    InsertAt(sorted, j, x);
    Reassembled(a[..i + 1], sorted, j, x);
  }

  /** Sorting one more entry inserts it into the sorted prefix. */
  lemma SortStep(p: seq<Entry>, i: nat)
    requires i < |p|
    ensures SortByScore(p[..i + 1]) == Insert(SortByScore(p[..i]), p[i])
  {
    assert p[..i + 1][..i] == p[..i];
  }

  /** The engine's `sort` by descending score, done in
      place as an insertion sort; an entry never passes one of equal score,
      so the sort is stable. */
  method SortInPlace(a: array<Entry>)
    modifies a
    ensures a[..] == SortByScore(old(a[..]))
  {
    ghost var input := a[..];
    for i := 0 to a.Length
      invariant a[..i] == SortByScore(input[..i])
      invariant a[i..] == input[i..]
    {
      assert a[i] == input[i];
      SortStep(input, i);
      InsertLast(a, i);
    }
    assert input[..a.Length] == input;
  }

  /** `p.slice(0, end)`, `end` being `undefined` or a number: the first
      `end` entries (all of them when there are fewer), and for a negative
      `end` all but the last `-end`. */
  function Slice(p: seq<Entry>, end: Option<int>): (r: seq<Entry>)
    ensures |r| <= |p| && r == p[..|r|]
    ensures end == None ==> r == p
    ensures end.Some? && end.value >= 0 ==>
      |r| == if end.value < |p| then end.value else |p|
    ensures end.Some? && end.value < 0 ==>
      |r| == if |p| + end.value < 0 then 0 else |p| + end.value
  {
    match end
    case None => p
    case Some(n) =>
      if n < 0 then p[..if |p| + n < 0 then 0 else |p| + n]
      else p[..if n < |p| then n else |p|]
  }

  /** `resultsAmount` after script.js lines 67-69: omitted (the default 0) and
      0 both mean no limit. */
  function EffectiveLimit(amount: Option<int>): Option<int> {
    if amount == Some(0) then None else amount
  }

  /** The ranked (name, score) pairs `sortRelevance(str, amount)` computes. */
  function Ranking(lower: Fold, str: JsString, cands: seq<JsString>, amount: Option<int>): seq<Entry> {
    Slice(SortByScore(Tally(lower, str, cands)), EffectiveLimit(amount))
  }

  /** What `sortRelevance` returns: the pairs when relevance is shown,
      otherwise only the names. */
  datatype Output = Pairs(entries: seq<Entry>) | Names(names: seq<JsString>)

  function NamesOf(p: seq<Entry>): seq<JsString> {
    seq(|p|, i requires 0 <= i < |p| => p[i].name)
  }

  /** Line 96: the pairs themselves when the relevance checkbox is ticked,
      otherwise the name of each pair, in the same order. */
  function Present(p: seq<Entry>, showRelevance: bool): Output {
    if showRelevance then Pairs(p) else Names(NamesOf(p))
  }

  /** The number of results. */
  function Size(o: Output): nat {
    match o
    case Pairs(p) => |p|
    case Names(n) => |n|
  }

  /** The ranking is ordered by non-increasing score. */
  lemma RankingOrdered(lower: Fold, str: JsString, cands: seq<JsString>, amount: Option<int>)
    ensures NonIncreasing(Ranking(lower, str, cands, amount))
  {
    SortFacts(Tally(lower, str, cands), 0);
  }

  /** A positive limit bounds the length; 0 or an omitted limit means no
      truncation; and there is never more than one result per candidate. */
  lemma RankingLength(lower: Fold, str: JsString, cands: seq<JsString>, amount: Option<int>)
    ensures |Ranking(lower, str, cands, amount)| <= |cands|
    ensures amount.Some? && amount.value > 0 ==> |Ranking(lower, str, cands, amount)| <= amount.value
    ensures amount == None || amount == Some(0) ==>
      Ranking(lower, str, cands, amount) == SortByScore(Tally(lower, str, cands))
  {
    TallyShape(lower, str, cands);
    SortFacts(Tally(lower, str, cands), 0);
  }

  /** A prefix of a Map with distinct keys has distinct keys. */
  lemma PrefixUnique(p: seq<Entry>, n: nat)
    requires UniqueKeys(p) && n <= |p|
    ensures UniqueKeys(p[..n])
  {
  }

  /** Every entry of the sorted Map was in the Map. */
  lemma SortMember(p: seq<Entry>, e: Entry)
    requires e in SortByScore(p)
    ensures e in p
  {
    SortFacts(p, 0);
    assert e in multiset(SortByScore(p));
  }

  /** Every result names a candidate, at most once, with a score of at least
      2; and its score is that candidate's score summed over its
      occurrences. */
  lemma RankingEntries(lower: Fold, str: JsString, cands: seq<JsString>, amount: Option<int>)
    ensures UniqueKeys(Ranking(lower, str, cands, amount))
    ensures forall e :: e in Ranking(lower, str, cands, amount) ==>
      e.name in cands && e.score >= 2 && e.score == Total(lower, str, cands, e.name)
  {
    var t := Tally(lower, str, cands);
    var r := Ranking(lower, str, cands, amount);
    TallyShape(lower, str, cands);
    SortUnique(t);
    PrefixUnique(SortByScore(t), |r|);
    forall e | e in r
      ensures e.name in cands && e.score >= 2 && e.score == Total(lower, str, cands, e.name)
    {
      SortMember(t, e);
      var i :| 0 <= i < |t| && t[i] == e;
      GetAt(t, i);
      TallyEntry(lower, str, cands, e.name);
    }
  }

  /** A candidate equal to the query ignoring case is ranked, with a score of
      at least 30, whenever the result is not truncated. */
  lemma RankingExactMatch(lower: Fold, str: JsString, cands: seq<JsString>, amount: Option<int>, v: JsString)
    requires v in cands && Lower(lower, str) == Lower(lower, v)
    requires amount == None || amount == Some(0)
    ensures exists e :: e in Ranking(lower, str, cands, amount) && e.name == v && e.score >= 30
  {
    var t := Tally(lower, str, cands);
    ExactMatchScore(lower, str, v);
    TallyEntry(lower, str, cands, v);
    TallyShape(lower, str, cands);
    HasAt(t, v);
    var i :| 0 <= i < |t| && t[i].name == v;
    GetAt(t, i);
    SortFacts(t, 0);
    assert t[i] in multiset(SortByScore(t));
  }

  /** A candidate sharing no code unit with a non-empty query, ignoring case,
      is never ranked. */
  lemma RankingOmitsUnrelated(lower: Fold, str: JsString, cands: seq<JsString>, amount: Option<int>, v: JsString)
    requires str != [] && Unrelated(lower, v, str)
    ensures forall e :: e in Ranking(lower, str, cands, amount) ==> e.name != v
  {
    UnrelatedScoresZero(lower, str, v);
    RankingEntries(lower, str, cands, amount);
  }

  /** The entries of score `s` in a prefix are a prefix of those in the
      whole sequence. */
  lemma WithScorePrefix(p: seq<Entry>, n: nat, s: int)
    requires n <= |p|
    ensures WithScore(p[..n], s) <= WithScore(p, s)
  {
    assert p == p[..n] + p[n..];
    WithScoreAppend(p[..n], p[n..], s);
  }

  /** With distinct candidates, results of equal score come in
      candidate-list order: under any limit they are the first of the
      candidates of that score, and without truncation all of them. */
  lemma RankingTiesInListOrder(lower: Fold, str: JsString, cands: seq<JsString>, amount: Option<int>, s: int)
    requires Distinct(cands)
    ensures WithScore(Ranking(lower, str, cands, amount), s) <= WithScore(Scored(lower, str, cands), s)
    ensures amount == None || amount == Some(0) ==>
      WithScore(Ranking(lower, str, cands, amount), s) == WithScore(Scored(lower, str, cands), s)
  {
    var sorted := SortByScore(Tally(lower, str, cands));
    var r := Ranking(lower, str, cands, amount);
    TallyDistinct(lower, str, cands);
    SortFacts(Tally(lower, str, cands), s);
    WithScorePrefix(sorted, |r|, s);
  }

  /** `sortRelevance(str, resultsAmount)` of script.js lines 67-97, with the
      candidate list and the relevance checkbox passed in. */
  method SortRelevance(lower: Fold, str: JsString, cands: seq<JsString>, amount: Option<int>, showRelevance: bool)
    returns (out: Output)
    ensures out == Present(Ranking(lower, str, cands, amount), showRelevance)
  {
    var end := EffectiveLimit(amount);
    var tally := AccumulateScores(lower, str, cands);
    var a := new Entry[|tally|](i requires 0 <= i < |tally| => tally[i]);
    assert a[..] == tally;
    SortInPlace(a);
    var ranked := Slice(a[..], end);
    out := Present(ranked, showRelevance);
  }
}
