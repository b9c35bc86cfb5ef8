/** Score accumulation of the relevance ranker (script.js lines 75-92): a
    `reduce` over the candidate list that credits each candidate in a Map
    with 15 when it equals the query ignoring case, 15 when it contains the
    query ignoring case, and for every pair of (candidate substring, query
    substring) 5 when they are equal ignoring case or else 2 when the first
    contains the second. */
module Scoring {
  import opened JsText
  import opened Substrings
  import opened JsMap

  /** script.js lines 76-77. */
  function EqualityBonus(lower: Fold, str: JsString, v: JsString): int {
    if Lower(lower, str) == Lower(lower, v) then 15 else 0
  }

  /** script.js lines 78-79. */
  function ContainmentBonus(lower: Fold, str: JsString, v: JsString): int {
    if Includes(Lower(lower, v), Lower(lower, str)) then 15 else 0
  }

  /** script.js lines 88-91: what one (candidate substring `item`, query
      substring `item2`) pair adds. It adds something exactly when `item`
      contains `item2` ignoring case, 5 of it exactly when they are equal
      ignoring case, and never both 5 and 2. */
  function PairBonus(lower: Fold, item: JsString, item2: JsString): (r: int)
    ensures r == 0 || r == 2 || r == 5
    ensures r == 5 <==> Lower(lower, item2) == Lower(lower, item)
    ensures r > 0 <==> Includes(Lower(lower, item), Lower(lower, item2))
  {
    IncludesItself(Lower(lower, item));
    if Lower(lower, item2) == Lower(lower, item) then 5
    else if Includes(Lower(lower, item), Lower(lower, item2)) then 2
    else 0
  }

  /** What `item` collects against every query substring (line 87). */
  function RowTotal(lower: Fold, item: JsString, strSet: seq<JsString>): (r: int)
    ensures r == 0 || r >= 2
  {
    if strSet == [] then 0
    else RowTotal(lower, item, strSet[..|strSet| - 1]) + PairBonus(lower, item, strSet[|strSet| - 1])
  }

  /** What every candidate substring collects against every query substring
      (lines 86-91). */
  function PairTotal(lower: Fold, fruitSet: seq<JsString>, strSet: seq<JsString>): (r: int)
    ensures r == 0 || r >= 2
  {
    if fruitSet == [] then 0
    else PairTotal(lower, fruitSet[..|fruitSet| - 1], strSet) + RowTotal(lower, fruitSet[|fruitSet| - 1], strSet)
  }

  /** Everything one occurrence of candidate `v` collects for query `str`.
      Every bonus is 15, 5 or 2, so a score is 0 or at least 2. */
  function Score(lower: Fold, str: JsString, v: JsString): (r: int)
    ensures r == 0 || r >= 2
  {
    EqualityBonus(lower, str, v) + ContainmentBonus(lower, str, v)
      + PairTotal(lower, NGrams(v), NGrams(str))
  }

  /** The Map after the `reduce` over `cands`: every candidate occurrence adds
      its score, and only a candidate that collected something gets an
      entry. */
  function Tally(lower: Fold, str: JsString, cands: seq<JsString>): ScoreMap {
    if cands == [] then []
    else
      var v := cands[|cands| - 1];
      Award(Tally(lower, str, cands[..|cands| - 1]), v, Score(lower, str, v))
  }

  /** The score of `v` summed over its occurrences in `cands`. */
  function Total(lower: Fold, str: JsString, cands: seq<JsString>, v: JsString): (r: int)
    ensures v !in cands ==> r == 0
    ensures v in cands ==> r >= Score(lower, str, v)
    ensures Score(lower, str, v) == 0 ==> r == 0
  {
    if cands == [] then 0
    else
      var last := cands[|cands| - 1];
      assert cands == cands[..|cands| - 1] + [last];
      Total(lower, str, cands[..|cands| - 1], v) + (if last == v then Score(lower, str, v) else 0)
  }

  /** Reference order: the candidates in list order, each with its score,
      leaving out those that scored nothing. */
  function Scored(lower: Fold, str: JsString, cands: seq<JsString>): seq<Entry> {
    if cands == [] then []
    else
      var v := cands[|cands| - 1];
      var s := Score(lower, str, v);
      Scored(lower, str, cands[..|cands| - 1]) + (if s == 0 then [] else [Entry(v, s)])
  }

  /** A candidate equal to the query ignoring case gets both 15-point
      bonuses. */
  lemma ExactMatchScore(lower: Fold, str: JsString, v: JsString)
    requires Lower(lower, str) == Lower(lower, v)
    ensures Score(lower, str, v) >= 30
  {
    IncludesItself(Lower(lower, v));
  }

  /** A candidate that contains the query ignoring case gets the containment
      bonus. */
  lemma ContainmentScore(lower: Fold, str: JsString, v: JsString)
    requires Includes(Lower(lower, v), Lower(lower, str))
    ensures Score(lower, str, v) >= 15
  {
  }

  /** `a` and `b` have no code unit in common once folded. */
  predicate Unrelated(lower: Fold, a: JsString, b: JsString) {
    forall c :: c in Lower(lower, a) ==> c !in Lower(lower, b)
  }

  /** A substring pair of two unrelated strings earns nothing. */
  lemma {:induction false} UnrelatedPair(lower: Fold, v: JsString, str: JsString, item: JsString, item2: JsString)
    requires Unrelated(lower, v, str)
    requires Includes(v, item) && Includes(str, item2) && item2 != []
    ensures PairBonus(lower, item, item2) == 0
  {
    var a: int :| 0 <= a <= |v| - |item| && OccursAt(v, item, a);
    var b: int :| 0 <= b <= |str| - |item2| && OccursAt(str, item2, b);
    LowerSlice(lower, v, a, a + |item|);
    LowerSlice(lower, str, b, b + |item2|);
    var c := Lower(lower, item2)[0];
    assert c in Lower(lower, str) by {
      assert c == Lower(lower, str)[b];
    }
    forall t | 0 <= t < |item|
      ensures Lower(lower, item)[t] != c
    {
      assert Lower(lower, item)[t] == Lower(lower, v)[a + t];
      assert Lower(lower, v)[a + t] in Lower(lower, v);
    }
    if Includes(Lower(lower, item), Lower(lower, item2)) {
      IncludedUnit(Lower(lower, item), Lower(lower, item2));
    }
  }

  lemma {:induction false} RowTotalZero(lower: Fold, item: JsString, strSet: seq<JsString>)
    requires forall item2 :: item2 in strSet ==> PairBonus(lower, item, item2) == 0
    ensures RowTotal(lower, item, strSet) == 0
  {
    if strSet != [] {
      RowTotalZero(lower, item, strSet[..|strSet| - 1]);
    }
  }

  lemma {:induction false} PairTotalZero(lower: Fold, fruitSet: seq<JsString>, strSet: seq<JsString>)
    requires forall item, item2 :: item in fruitSet && item2 in strSet ==> PairBonus(lower, item, item2) == 0
    ensures PairTotal(lower, fruitSet, strSet) == 0
  {
    if fruitSet != [] {
      PairTotalZero(lower, fruitSet[..|fruitSet| - 1], strSet);
      RowTotalZero(lower, fruitSet[|fruitSet| - 1], strSet);
    }
  }

  /** A candidate sharing no code unit with a non-empty query, ignoring case,
      earns no bonus at all. */
  lemma UnrelatedScoresZero(lower: Fold, str: JsString, v: JsString)
    requires str != [] && Unrelated(lower, v, str)
    ensures Score(lower, str, v) == 0
  {
    assert Lower(lower, str)[0] in Lower(lower, str);
    if Includes(Lower(lower, v), Lower(lower, str)) {
      IncludedUnit(Lower(lower, v), Lower(lower, str));
    }
    NGramsAreSubstrings(v);
    NGramsAreSubstrings(str);
    forall item, item2 | item in NGrams(v) && item2 in NGrams(str)
      ensures PairBonus(lower, item, item2) == 0
    {
      UnrelatedPair(lower, v, str, item, item2);
    }
    PairTotalZero(lower, NGrams(v), NGrams(str));
  }

  /** The Map holds an entry for `v` exactly when `v` is a candidate that
      collected something, and that entry is the sum over `v`'s
      occurrences. */
  lemma {:induction false} TallyEntry(lower: Fold, str: JsString, cands: seq<JsString>, v: JsString)
    ensures Has(Tally(lower, str, cands), v) <==> v in cands && Score(lower, str, v) > 0
    ensures Has(Tally(lower, str, cands), v) ==>
      Get(Tally(lower, str, cands), v) == Total(lower, str, cands, v)
  {
    if cands != [] {
      var prefix, x := cands[..|cands| - 1], cands[|cands| - 1];
      assert cands == prefix + [x];
      TallyEntry(lower, str, prefix, v);
      var s := Score(lower, str, x);
      if s != 0 {
        CreditEffect(Tally(lower, str, prefix), x, s, v);
      }
    }
  }

  /** The Map has distinct keys and at most one entry per candidate. */
  lemma {:induction false} TallyShape(lower: Fold, str: JsString, cands: seq<JsString>)
    ensures UniqueKeys(Tally(lower, str, cands))
    ensures |Tally(lower, str, cands)| <= |cands|
  {
    if cands != [] {
      var prefix, x := cands[..|cands| - 1], cands[|cands| - 1];
      TallyShape(lower, str, prefix);
      AwardShape(Tally(lower, str, prefix), x, Score(lower, str, x));
    }
  }

  /** Every entry of the Map names a candidate and holds a score of at least
      2, since entries are only created by a positive bonus. */
  lemma TallyEntriesScored(lower: Fold, str: JsString, cands: seq<JsString>)
    ensures forall e :: e in Tally(lower, str, cands) ==> e.name in cands && e.score >= 2
  {
    var t := Tally(lower, str, cands);
    TallyShape(lower, str, cands);
    forall e | e in t
      ensures e.name in cands && e.score >= 2
    {
      var i :| 0 <= i < |t| && t[i] == e;
      GetAt(t, i);
      TallyEntry(lower, str, cands, e.name);
    }
  }

  /** With distinct candidates the Map lists, in candidate-list order, exactly
      the candidates that scored, each with its score. */
  lemma {:induction false} TallyDistinct(lower: Fold, str: JsString, cands: seq<JsString>)
    requires Distinct(cands)
    ensures Tally(lower, str, cands) == Scored(lower, str, cands)
  {
    if cands != [] {
      var prefix, x := cands[..|cands| - 1], cands[|cands| - 1];
      assert Distinct(prefix);
      TallyDistinct(lower, str, prefix);
      var s := Score(lower, str, x);
      if s != 0 {
        TallyEntry(lower, str, prefix, x);
        SetAppends(Tally(lower, str, prefix), x, s);
      }
    }
  }

  /** The row total grows by one pair bonus per query substring. */
  lemma RowStep(lower: Fold, item: JsString, strSet: seq<JsString>, k: nat)
    requires k < |strSet|
    ensures RowTotal(lower, item, strSet[..k + 1])
      == RowTotal(lower, item, strSet[..k]) + PairBonus(lower, item, strSet[k])
  {
    assert strSet[..k + 1][..k] == strSet[..k];
  }

  /** The inner loop of script.js lines 87-91 for candidate substring
      `item`, run on the Map `acc0` in which the earlier pairs credited `v`
      with `done` in all: each query substring credits 5, 2 or nothing. */
  method CreditRow(lower: Fold, ghost a: ScoreMap, v: JsString, ghost done: int, acc0: ScoreMap,
                   item: JsString, strSet: seq<JsString>)
    returns (acc: ScoreMap)
    requires done >= 0 && acc0 == Award(a, v, done)
    ensures acc == Award(a, v, done + RowTotal(lower, item, strSet))
  {
    acc := acc0;
    for k := 0 to |strSet|
      invariant acc == Award(a, v, done + RowTotal(lower, item, strSet[..k]))
    {
      var item2 := strSet[k];
      ghost var sofar := done + RowTotal(lower, item, strSet[..k]);
      RowStep(lower, item, strSet, k);
      if Lower(lower, item2) == Lower(lower, item) {
        CreditAfterAward(a, v, sofar, 5);
        acc := Credit(acc, v, 5);
      } else if Includes(Lower(lower, item), Lower(lower, item2)) {
        CreditAfterAward(a, v, sofar, 2);
        acc := Credit(acc, v, 2);
      }
    }
    assert strSet[..|strSet|] == strSet;
  }

  /** The pair loops of script.js lines 86-91 for candidate `v`: one Map is
      carried through every row, and every (candidate substring, query
      substring) pair credits 5, 2 or nothing. */
  method CreditPairs(lower: Fold, a: ScoreMap, v: JsString, fruitSet: seq<JsString>, strSet: seq<JsString>)
    returns (acc: ScoreMap)
    ensures acc == Award(a, v, PairTotal(lower, fruitSet, strSet))
  {
    acc := a;
    for j := 0 to |fruitSet|
      invariant acc == Award(a, v, PairTotal(lower, fruitSet[..j], strSet))
    {
      assert fruitSet[..j + 1][..j] == fruitSet[..j];
      acc := CreditRow(lower, a, v, PairTotal(lower, fruitSet[..j], strSet), acc, fruitSet[j], strSet);
    }
    assert fruitSet[..|fruitSet|] == fruitSet;
  }

  /** The callback of the `reduce` (script.js lines 75-92) for candidate `v`:
      the two 15-point tests, then the pair loops over `v`'s Set and the
      query's Set. */
  method CreditCandidate(lower: Fold, str: JsString, strSet: seq<JsString>, a: ScoreMap, v: JsString)
    returns (acc: ScoreMap)
    requires strSet == NGrams(str)
    ensures acc == Award(a, v, Score(lower, str, v))
  {
    acc := a;
    if Lower(lower, str) == Lower(lower, v) {
      acc := Credit(acc, v, 15);
    }
    if Includes(Lower(lower, v), Lower(lower, str)) {
      CreditAfterAward(a, v, EqualityBonus(lower, str, v), 15);
      acc := Credit(acc, v, 15);
    }
    ghost var base := EqualityBonus(lower, str, v) + ContainmentBonus(lower, str, v);
    assert acc == Award(a, v, base);
    var fruitSet := CollectNGrams(v);
    acc := CreditPairs(lower, acc, v, fruitSet, strSet);
    AwardTwice(a, v, base, PairTotal(lower, fruitSet, strSet));
  }

  /** The query's Set and the `reduce` of script.js lines 70-92, crediting
      every candidate in list order into an initially empty Map. */
  method AccumulateScores(lower: Fold, str: JsString, cands: seq<JsString>) returns (acc: ScoreMap)
    ensures acc == Tally(lower, str, cands)
  {
    var strSet := CollectNGrams(str);
    acc := [];
    for n := 0 to |cands|
      invariant acc == Tally(lower, str, cands[..n])
    {
      acc := CreditCandidate(lower, str, strSet, acc, cands[n]);
      assert cands[..n + 1][..n] == cands[..n];
    }
    assert cands[..|cands|] == cands;
  }
}
