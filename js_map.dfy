/** The JavaScript `Map` in which the ranker accumulates scores (script.js
    lines 75-92). Keys are candidate names and values integer scores; a Map
    iterates in insertion order, and `set` on a key already present keeps
    that key's position. The Map is a sequence of entries in iteration
    order. */
module JsMap {
  import opened JsText

  datatype Entry = Entry(name: JsString, score: int)

  type ScoreMap = seq<Entry>

  /** `m.has(k)`. */
  predicate Has(m: ScoreMap, k: JsString) {
    m != [] && (m[0].name == k || Has(m[1..], k))
  }

  /** `m.get(k)` for a key that is present. */
  function Get(m: ScoreMap, k: JsString): int
    requires Has(m, k)
  {
    if m[0].name == k then m[0].score else Get(m[1..], k)
  }

  /** `m.set(k, v)`: replaces the value of a present key in place, and
      otherwise appends a new entry. */
  function Set(m: ScoreMap, k: JsString, v: int): ScoreMap {
    if m == [] then [Entry(k, v)]
    else if m[0].name == k then [Entry(k, v)] + m[1..]
    else [m[0]] + Set(m[1..], k, v)
  }

  /** The update the ranker makes for every bonus: a present key gets `n`
      added to its score, an absent one is set to `n`. */
  function Credit(m: ScoreMap, k: JsString, n: int): ScoreMap {
    if Has(m, k) then Set(m, k, Get(m, k) + n) else Set(m, k, n)
  }

  /** The net effect of bonuses adding up to `n` for key `k`: nothing when
      there were none, otherwise one credit of their sum. */
  function Award(m: ScoreMap, k: JsString, n: int): ScoreMap {
    if n == 0 then m else Credit(m, k, n)
  }

  /** No key occurs twice. */
  predicate UniqueKeys(m: ScoreMap) {
    forall i, j :: 0 <= i < j < |m| ==> m[i].name != m[j].name
  }

  /** `has` finds exactly the names of the entries. */
  lemma {:induction false} HasAt(m: ScoreMap, k: JsString)
    ensures Has(m, k) <==> exists i :: 0 <= i < |m| && m[i].name == k
  {
    if m != [] {
      HasAt(m[1..], k);
      if Has(m[1..], k) {
        var i :| 0 <= i < |m[1..]| && m[1..][i].name == k;
        assert m[i + 1].name == k;
      }
      if exists i :: 0 <= i < |m| && m[i].name == k {
        var i :| 0 <= i < |m| && m[i].name == k;
        if i > 0 {
          assert m[1..][i - 1].name == k;
        }
      }
    }
  }

  /** With distinct keys, `get` returns the score stored beside the key. */
  lemma {:induction false} GetAt(m: ScoreMap, i: nat)
    requires UniqueKeys(m) && i < |m|
    ensures Has(m, m[i].name) && Get(m, m[i].name) == m[i].score
  {
    if i > 0 {
      GetAt(m[1..], i - 1);
    }
  }

  /** What `set` does to one key `j`: `k` is present with the new value, every
      other key keeps its presence and its value. */
  lemma {:induction false} SetEffect(m: ScoreMap, k: JsString, v: int, j: JsString)
    ensures Has(Set(m, k, v), j) <==> Has(m, j) || j == k
    ensures j == k ==> Get(Set(m, k, v), j) == v
    ensures j != k && Has(m, j) ==> Get(Set(m, k, v), j) == Get(m, j)
  {
    if m != [] && m[0].name != k {
      SetEffect(m[1..], k, v, j);
      assert Set(m, k, v)[1..] == Set(m[1..], k, v);
    }
  }

  /** `set` of an absent key appends it. */
  lemma {:induction false} SetAppends(m: ScoreMap, k: JsString, v: int)
    requires !Has(m, k)
    ensures Set(m, k, v) == m + [Entry(k, v)]
  {
    if m != [] {
      SetAppends(m[1..], k, v);
      assert m == [m[0]] + m[1..];
    }
  }

  /** `set` keeps keys distinct and adds at most one entry. */
  lemma {:induction false} SetUnique(m: ScoreMap, k: JsString, v: int)
    requires UniqueKeys(m)
    ensures UniqueKeys(Set(m, k, v))
    ensures |Set(m, k, v)| <= |m| + 1
  {
    if m != [] && m[0].name != k {
      SetUnique(m[1..], k, v);
      var r := Set(m, k, v);
      assert r[1..] == Set(m[1..], k, v);
      forall i | 1 <= i < |r|
        ensures r[i].name != m[0].name
      {
        SetEffect(m[1..], k, v, m[0].name);
        HasAt(m[1..], m[0].name);
        HasAt(r[1..], m[0].name);
        assert r[1..][i - 1] == r[i];
      }
    }
  }

  /** Setting a key twice keeps only the second value. */
  lemma {:induction false} SetTwice(m: ScoreMap, k: JsString, a: int, b: int)
    ensures Set(Set(m, k, a), k, b) == Set(m, k, b)
  {
    if m != [] && m[0].name != k {
      SetTwice(m[1..], k, a, b);
      assert Set(m, k, a)[1..] == Set(m[1..], k, a);
    }
  }

  /** One credit of `n` for key `k`: `k` ends up present with its old score
      (or nothing) plus `n`, and every other key is untouched. */
  lemma CreditEffect(m: ScoreMap, k: JsString, n: int, j: JsString)
    ensures Has(Credit(m, k, n), j) <==> Has(m, j) || j == k
    ensures j == k ==> Get(Credit(m, k, n), j) == (if Has(m, k) then Get(m, k) else 0) + n
    ensures j != k && Has(m, j) ==> Get(Credit(m, k, n), j) == Get(m, j)
  {
    if Has(m, k) {
      SetEffect(m, k, Get(m, k) + n, j);
    } else {
      SetEffect(m, k, n, j);
    }
  }

  /** One more positive bonus after bonuses summing to `a` is the same as
      bonuses summing to `a + b`. */
  lemma CreditAfterAward(m: ScoreMap, k: JsString, a: int, b: int)
    requires a >= 0 && b > 0
    ensures Credit(Award(m, k, a), k, b) == Award(m, k, a + b)
  {
    if a > 0 {
      var x := (if Has(m, k) then Get(m, k) else 0) + a;
      var once := Set(m, k, x);
      SetEffect(m, k, x, k);
      assert Credit(once, k, b) == Set(once, k, x + b);
      SetTwice(m, k, x, x + b);
    }
  }

  /** Two groups of bonuses for the same key add up. */
  lemma AwardTwice(m: ScoreMap, k: JsString, a: int, b: int)
    requires a >= 0 && b >= 0
    ensures Award(Award(m, k, a), k, b) == Award(m, k, a + b)
  {
    if b > 0 {
      CreditAfterAward(m, k, a, b);
    }
  }

  /** An award keeps keys distinct and adds at most one entry. */
  lemma AwardShape(m: ScoreMap, k: JsString, n: int)
    requires UniqueKeys(m)
    ensures UniqueKeys(Award(m, k, n))
    ensures |Award(m, k, n)| <= |m| + 1
  {
    if n != 0 {
      if Has(m, k) {
        SetUnique(m, k, Get(m, k) + n);
      } else {
        SetUnique(m, k, n);
      }
    }
  }
}
