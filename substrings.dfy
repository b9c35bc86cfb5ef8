/** The substring sets that the relevance ranker builds for the query and for
    every candidate (script.js lines 70-74 and 81-85).

    An outer loop runs while the start offset is inside the string; an inner
    loop counts a length `i` up from 1 while a slice of that length still
    fits, and adds to the Set the slice of length `i` at the offset,
    advancing the offset by one on every insertion. Because the offset
    advances on every insertion while `i` restarts only when the outer loop
    re-enters, it does not enumerate every substring: it inserts exactly one
    string per start offset, and inside one run the k-th string has length
    k. */
module Substrings {
  import opened JsText

  /** The strings the loop inserts, in order, from the loop state in which
      `offset` and `i` hold the given values and the `for` test is next. */
  function Steps(s: JsString, offset: nat, i: nat): seq<JsString>
    requires 1 <= i && offset <= |s|
    decreases |s| - offset, if i + offset <= |s| then 0 else 1
  {
    if i + offset <= |s| then [s[offset..offset + i]] + Steps(s, offset + 1, i + 1)
    else if offset < |s| then Steps(s, offset, 1)
    else []
  }

  /** Every string the loop inserts for `s`, in insertion order. */
  function Insertions(s: JsString): seq<JsString> {
    Steps(s, 0, 1)
  }

  /** From any loop state, one insertion remains per offset not yet passed. */
  lemma {:induction false} StepsLength(s: JsString, offset: nat, i: nat)
    requires 1 <= i && offset <= |s|
    ensures |Steps(s, offset, i)| == |s| - offset
    decreases |s| - offset, if i + offset <= |s| then 0 else 1
  {
    if i + offset <= |s| {
      StepsLength(s, offset + 1, i + 1);
    } else if offset < |s| {
      StepsLength(s, offset, 1);
    }
  }

  /** The n-th string still to be inserted is non-empty and starts at
      `offset + n`. */
  lemma {:induction false} StepsAt(s: JsString, offset: nat, i: nat, n: nat)
    requires 1 <= i && offset <= |s| && n < |s| - offset
    ensures |Steps(s, offset, i)| == |s| - offset
    ensures var w := Steps(s, offset, i)[n];
      w != [] && offset + n + |w| <= |s| && w == s[offset + n..offset + n + |w|]
    decreases |s| - offset, if i + offset <= |s| then 0 else 1
  {
    StepsLength(s, offset, i);
    if i + offset <= |s| {
      if n > 0 {
        StepsAt(s, offset + 1, i + 1, n - 1);
      }
    } else {
      StepsAt(s, offset, 1, n);
    }
  }

  /** Inside one run of the `for` loop, as long as its test keeps passing,
      the t-th string after the current state has length `i + t` and starts
      at `offset + t`. */
  lemma {:induction false} StepsInRun(s: JsString, offset: nat, i: nat, t: nat)
    requires 1 <= i && (i + t) + (offset + t) <= |s|
    ensures t < |Steps(s, offset, i)|
    ensures Steps(s, offset, i)[t] == s[offset + t..offset + t + i + t]
    decreases t
  {
    StepsLength(s, offset, i);
    if t > 0 {
      StepsInRun(s, offset + 1, i + 1, t - 1);
    }
  }

  /** The loop inserts exactly `|s|` strings; the n-th of them is a non-empty
      substring of `s` starting at offset n. */
  lemma InsertionAt(s: JsString, n: nat)
    requires n < |s|
    ensures |Insertions(s)| == |s|
    ensures var w := Insertions(s)[n];
      w != [] && n + |w| <= |s| && w == s[n..n + |w|]
  {
    StepsAt(s, 0, 1, n);
  }

  /** A run of the `for` loop that starts at offset o: its k-th insertion
      (counting from 1) has length k and starts at o + k - 1, for as long as
      `k + (o + k - 1) <= |s|`. */
  lemma RunShape(s: JsString, o: nat, k: nat)
    requires 1 <= k && 2 * k + o - 1 <= |s|
    ensures k - 1 < |Steps(s, o, 1)|
    ensures Steps(s, o, 1)[k - 1] == s[o + k - 1..o + 2 * k - 1]
  {
    StepsInRun(s, o, 1, k - 1);
  }

  /** For a three-unit string such as "abc" the loop inserts "a", "bc" and
      "c", so "ab" is missing from the Set whenever its two units differ. */
  lemma ThreeUnits(s: JsString)
    requires |s| == 3
    ensures Insertions(s) == [s[..1], s[1..], s[2..]]
    ensures s[0] != s[1] ==> s[..2] !in NGrams(s)
  {
    calc {
      Insertions(s);
      [s[0..1]] + Steps(s, 1, 2);
      [s[0..1]] + [s[1..3]] + Steps(s, 2, 3);
      [s[0..1]] + [s[1..3]] + Steps(s, 2, 1);
      [s[0..1]] + [s[1..3]] + [s[2..3]] + Steps(s, 3, 2);
      { assert Steps(s, 3, 2) == []; }
      [s[0..1], s[1..3], s[2..3]];
      { assert s[0..1] == s[..1] && s[1..3] == s[1..] && s[2..3] == s[2..]; }
      [s[..1], s[1..], s[2..]];
    }
    if s[0] != s[1] {
      assert s[..2][1] != s[..1][0];
    }
  }

  /** `set.add(x)` on a JavaScript Set, kept in insertion order. */
  function SetAdd(members: seq<JsString>, x: JsString): seq<JsString> {
    if x in members then members else members + [x]
  }

  /** The Set obtained by adding the elements of `xs` one after another to an
      empty Set. */
  function Dedup(xs: seq<JsString>): (r: seq<JsString>)
    ensures forall x :: x in r <==> x in xs
    ensures Distinct(r)
    ensures |r| <= |xs|
  {
    if xs == [] then [] else SetAdd(Dedup(xs[..|xs| - 1]), xs[|xs| - 1])
  }

  /** `strSet` / `fruitSet`: the Set the loop builds for `s`. */
  function NGrams(s: JsString): seq<JsString> {
    Dedup(Insertions(s))
  }

  /** The Set holds at most `|s|` strings, each a non-empty contiguous
      substring of `s`. */
  lemma NGramsAreSubstrings(s: JsString)
    ensures |NGrams(s)| <= |s|
    ensures forall w :: w in NGrams(s) ==> w != [] && Includes(s, w)
  {
    StepsLength(s, 0, 1);
    forall w | w in NGrams(s)
      ensures w != [] && Includes(s, w)
    {
      var n :| 0 <= n < |Insertions(s)| && Insertions(s)[n] == w;
      InsertionAt(s, n);
      assert OccursAt(s, w, n);
    }
  }

  /** One pass of the `for` body: the next string inserted is the slice at
      `offset` of length `i`. */
  lemma ForStep(s: JsString, offset: nat, i: nat, done: seq<JsString>)
    requires 1 <= i && i + offset <= |s|
    requires done + Steps(s, offset, i) == Insertions(s)
    ensures (done + [s[offset..offset + i]]) + Steps(s, offset + 1, i + 1) == Insertions(s)
  {
  }

  /** When the `for` test fails, the loop goes on as if `i` were 1. */
  lemma ForExit(s: JsString, offset: nat, i: nat)
    requires 1 <= i && offset <= |s| < i + offset
    ensures Steps(s, offset, i) == Steps(s, offset, 1)
  {
  }

  /** Adding one more string to the Set. */
  lemma DedupStep(done: seq<JsString>, w: JsString)
    ensures Dedup(done + [w]) == SetAdd(Dedup(done), w)
  {
    assert (done + [w])[..|done|] == done;
  }

  /** The loop of script.js lines 70-74, building the Set for `s`. */
  method CollectNGrams(s: JsString) returns (grams: seq<JsString>)
    ensures grams == NGrams(s)
  {
    var offset := 0;
    grams := [];
    ghost var done: seq<JsString> := [];
    while offset < |s|
      invariant offset <= |s|
      invariant done + Steps(s, offset, 1) == Insertions(s)
      invariant grams == Dedup(done)
      decreases |s| - offset
    {
      ghost var start := offset;
      var i := 1;
      while i + offset <= |s|
        invariant 1 <= i && offset <= |s| && offset == start + i - 1
        invariant done + Steps(s, offset, i) == Insertions(s)
        invariant grams == Dedup(done)
        decreases |s| - offset
      {
        var w := s[offset..offset + i];
        ForStep(s, offset, i, done);
        DedupStep(done, w);
        grams := SetAdd(grams, w);
        done := done + [w];
        offset := offset + 1;
        i := i + 1;
      }
      ForExit(s, offset, i);
    }
    assert Steps(s, offset, 1) == [];
    assert done == Insertions(s);
  }
}
