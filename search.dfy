/** The front door `search` (script.js lines 8-12) and the candidate list
    `fruit` (line 6). The page's text box and its two checkboxes become
    parameters: `input` is the box's value, `extended` and `showRelevance`
    the states of the "extended" and "relevance" checkboxes. */
module Search {
  import opened JsText
  import opened JsMap
  import opened Scoring
  import opened Ranking

  /** The `fruit` list of script.js line 6, as written in the source.
      "Avocado 🥑" is the one name outside the Basic Multilingual Plane. */
  const FruitNames: seq<string> :=
    ["Apple", "Apricot", "Avocado \U{1F951}", "Banana", "Bilberry", "Blackberry", "Blackcurrant", "Blueberry"] +
    ["Boysenberry", "Currant", "Cherry", "Coconut", "Cranberry", "Cucumber", "Custard apple", "Damson"] +
    ["Date", "Dragonfruit", "Durian", "Elderberry", "Feijoa", "Fig", "Gooseberry", "Grape"] +
    ["Raisin", "Grapefruit", "Guava", "Honeyberry", "Huckleberry", "Jabuticaba", "Jackfruit", "Jambul"] +
    ["Juniper berry", "Kiwifruit", "Kumquat", "Lemon", "Lime", "Loquat", "Longan", "Lychee"] +
    ["Mango", "Mangosteen", "Marionberry", "Melon", "Cantaloupe", "Honeydew", "Watermelon", "Miracle fruit"] +
    ["Mulberry", "Nectarine", "Nance", "Olive", "Orange", "Clementine", "Mandarine", "Tangerine"] +
    ["Papaya", "Passionfruit", "Peach", "Pear", "Persimmon", "Plantain", "Plum", "Pineapple"] +
    ["Pomegranate", "Pomelo", "Quince", "Raspberry", "Salmonberry", "Rambutan", "Redcurrant", "Salak"] +
    ["Satsuma", "Soursop", "Star fruit", "Strawberry", "Tamarillo", "Tamarind", "Yuzu"]

  /** The list as the engine holds it, in UTF-16 code units. */
  const Fruit: seq<JsString> := seq(|FruitNames|, i requires 0 <= i < |FruitNames| => Utf16(FruitNames[i]))

  /** The number of results shown when extended mode is off. */
  const DefaultLimit := 7

  /** `search(input)`: no results for an empty input; otherwise the
      lowercased input ranked against the candidates, cut to 7 results
      unless extended mode is on. */
  function Search(lower: Fold, input: JsString, cands: seq<JsString>, extended: bool, showRelevance: bool)
    : (out: Output)
    ensures |input| == 0 ==> Size(out) == 0
    ensures !extended ==> Size(out) <= DefaultLimit
    ensures Size(out) <= |cands|
    ensures out.Pairs? <==> showRelevance
  {
    if |input| == 0 then Present([], showRelevance)
    else
      var amount := if extended then None else Some(DefaultLimit);
      RankingLength(lower, Lower(lower, input), cands, amount);
      Present(Ranking.Ranking(lower, Lower(lower, input), cands, amount), showRelevance)
  }

  /** Names mode lists the first components of the pairs, in the same
      order. */
  lemma SearchNamesMode(lower: Fold, input: JsString, cands: seq<JsString>, extended: bool)
    ensures Search(lower, input, cands, extended, false)
      == Names(NamesOf(Search(lower, input, cands, extended, true).entries))
  {
  }

  /** A fold that gives the same result when applied twice, as
      `toLowerCase` does. */
  predicate Idempotent(lower: Fold) {
    forall c :: lower(lower(c)) == lower(c)
  }

  lemma LowerTwice(lower: Fold, s: JsString)
    requires Idempotent(lower)
    ensures Lower(lower, Lower(lower, s)) == Lower(lower, s)
  {
  }

  /** For a non-empty input the pairs are ordered by non-increasing score,
      each naming a distinct candidate with a score of at least 2; in
      extended mode they are all the candidates that scored, and otherwise
      the first 7 of them (all of them when fewer scored). */
  lemma SearchResults(lower: Fold, input: JsString, cands: seq<JsString>, extended: bool)
    requires |input| > 0
    ensures var r := Search(lower, input, cands, extended, true).entries;
      NonIncreasing(r) && UniqueKeys(r) &&
      (forall e :: e in r ==> e.name in cands && e.score >= 2)
    ensures var r := Search(lower, input, cands, extended, true).entries;
      var all := SortByScore(Tally(lower, Lower(lower, input), cands));
      (extended ==> r == all) &&
      (!extended ==> r == all[..if DefaultLimit < |all| then DefaultLimit else |all|])
  {
    var amount := if extended then None else Some(DefaultLimit);
    RankingOrdered(lower, Lower(lower, input), cands, amount);
    RankingEntries(lower, Lower(lower, input), cands, amount);
    RankingLength(lower, Lower(lower, input), cands, amount);
  }

  /** In extended mode, a candidate equal to the input ignoring case is
      listed with a score of at least 30. */
  lemma SearchExactMatch(lower: Fold, input: JsString, cands: seq<JsString>, v: JsString)
    requires Idempotent(lower) && |input| > 0
    requires v in cands && Lower(lower, input) == Lower(lower, v)
    ensures exists e :: e in Search(lower, input, cands, true, true).entries && e.name == v && e.score >= 30
  {
    LowerTwice(lower, input);
    RankingExactMatch(lower, Lower(lower, input), cands, None, v);
  }

  /** A candidate sharing no code unit with the input, ignoring case, is
      never suggested. */
  lemma SearchOmitsUnrelated(lower: Fold, input: JsString, cands: seq<JsString>, extended: bool, v: JsString)
    requires Idempotent(lower) && Unrelated(lower, v, input)
    ensures forall e :: e in Search(lower, input, cands, extended, true).entries ==> e.name != v
  {
    if |input| > 0 {
      LowerTwice(lower, input);
      var amount := if extended then None else Some(DefaultLimit);
      assert Unrelated(lower, v, Lower(lower, input));
      RankingOmitsUnrelated(lower, Lower(lower, input), cands, amount, v);
    }
  }

  /** The list holds 79 names; the third, "Avocado 🥑", is ten code units
      long and ends in the high and the low surrogate of U+1F951, which
      `split('')` separates, so the emoji's two halves become separate
      one-unit strings in its substring Set. */
  lemma AvocadoUnits()
    ensures |Fruit| == 79
    ensures |Fruit[2]| == 10 && Fruit[2][8] == 0xD83E && Fruit[2][9] == 0xDD51
  {
    var prefix, emoji := "Avocado ", "\U{1F951}";
    assert FruitNames[2] == prefix + emoji;
    Utf16Concat(prefix, emoji);
    assert Utf16(emoji) == [0xD83E, 0xDD51];
    assert |Utf16(prefix)| == 8;
  }
}
