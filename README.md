# Predictive fruit search: the relevance ranker

This project models the relevance ranker behind a predictive fruit-name
search box, `sortRelevance` and its front door `search` in `script.js`, and
proves what the ranker guarantees.

Given a query, the ranker proceeds in four steps.

1. It builds a Set of substrings of the query with a `while`/`for` loop.
2. It runs a `reduce` over the fixed candidate list (`fruit`), accumulating
   an integer score per candidate in a `Map`:
   - +15 when the candidate equals the query, ignoring case;
   - +15 when the candidate contains the query, ignoring case;
   - for every pair of (candidate substring, query substring), +5 when the
     two are equal ignoring case, otherwise +2 when the first contains the
     second.
3. It sorts the Map's entries by descending score and cuts them to an
   optional limit.
4. It returns either (name, score) pairs or the names alone.

`search` returns nothing for an empty input. Otherwise it ranks the
lowercased input, limited to 7 results unless "extended" mode is on.

Modules:

- `JsText`: strings as UTF-16 code units, `includes`, and `toLowerCase` as a
  per-unit fold (`Fold`) passed in as a parameter.
- `Substrings`: the substring loop. `Steps` gives the insertion sequence
  from any loop state. `CollectNGrams` is the imperative loop, proved equal
  to `NGrams`.
- `JsMap`: the insertion-ordered `Map` with `has`, `get` and `set`, and the
  ranker's update for every bonus, which adds to a present key's score or
  sets an absent key (`Credit`).
- `Scoring`: the bonuses, the score of one candidate, and the Map after the
  `reduce` (`Tally`). The methods `CreditRow`, `CreditPairs`,
  `CreditCandidate` and `AccumulateScores` are the nested loops. They carry
  one Map from step to step, and each is proved to leave it equal to those
  functions.
- `Ranking`: the stable sort, which an in-place insertion sort on an array
  (`SortInPlace`) implements. It also holds the `slice`, the output mode,
  the whole `sortRelevance` method (`SortRelevance`), and the lemmas about
  its result.
- `Search`: `search`, the candidate list, and the end-to-end lemmas.

Two behaviours of the code worth knowing, both modelled as the code
behaves:

- The substring loop does not enumerate all substrings. The start offset
  advances on every insertion, while the length restarts at 1 only when the
  outer loop re-enters. The loop therefore inserts exactly one string per start
  offset, and within one run the k-th string has length k. For "abc" the
  Set is {"a", "bc", "c"} (`Substrings.ThreeUnits`).
- Strings are split into UTF-16 code units. "Avocado 🥑" is ten units long,
  and `split('')` separates the emoji's two surrogates
  (`Search.AvocadoUnits`).

## Model

| member | source | states |
|---|---|---|
| Substrings.StepsLength | script.js:72-74 | from any loop state (offset, i), exactly `length - offset` insertions remain, so the loop makes `str.length` insertions in all |
| Substrings.StepsAt | script.js:72-74 | the n-th remaining insertion is a non-empty contiguous substring starting at `offset + n` |
| Substrings.StepsInRun | script.js:73-74 | while the `for` test keeps passing, the t-th insertion after the current state has length `i + t` and starts at `offset + t` |
| Substrings.InsertionAt | script.js:72-74 | the loop inserts exactly `length` strings; the n-th is a non-empty substring starting at offset n (one per start offset, in increasing order) |
| Substrings.RunShape | script.js:73-74 | within one inner run starting at offset o, the k-th insertion has length k and starts at o+k-1 |
| Substrings.ThreeUnits | script.js:72-74 | for a three-unit string the insertions are s[..1], s[1..], s[2..], so "ab" is missing from the Set when its units differ |
| Substrings.Dedup | script.js:71-74 | adding strings one by one to a Set keeps exactly the added strings, each once, and no more of them than were added |
| Substrings.NGramsAreSubstrings | script.js:70-74 | the Set holds at most `length` strings, each a non-empty contiguous substring of the input |
| Substrings.CollectNGrams | script.js:70-74 | the `while`/`for` loop builds exactly the Set of the insertions `Steps` describes, in Set insertion order |
| JsText.IncludedUnit | script.js:78 | if a non-empty needle is included in a string, its first code unit occurs in that string |
| JsText.Utf16Concat | script.js:6 | the UTF-16 encoding of a concatenation is the concatenation of the encodings |
| JsMap.HasAt | script.js:77 | `has(k)` holds exactly when some entry is named k |
| JsMap.GetAt | script.js:77 | with distinct keys, `get` returns the score stored beside the key |
| JsMap.SetEffect | script.js:77 | after `set(k, v)`, k is present with value v and every other key keeps its presence and value |
| JsMap.SetAppends | script.js:77 | `set` of an absent key appends it at the end, so the Map iterates in first-insertion order |
| JsMap.SetUnique | script.js:77 | `set` keeps keys distinct and adds at most one entry |
| JsMap.SetTwice | script.js:77 | setting a key twice keeps only the second value and the key's position |
| JsMap.CreditEffect | script.js:77 | `has ? set(get + n) : set(n)` leaves k with its old score (or 0) plus n and touches no other key |
| JsMap.CreditAfterAward | script.js:77-91 | a further positive credit after credits summing to a equals one award of the total |
| JsMap.AwardTwice | script.js:76-91 | two groups of credits for one key add up |
| JsMap.AwardShape | script.js:77 | crediting a key keeps the Map's keys distinct and adds at most one entry |
| Scoring.PairBonus | script.js:88-91 | a pair adds 0, 2 or 5: more than 0 exactly when the candidate substring contains the query substring ignoring case, and 5 exactly when they are equal ignoring case; never both |
| Scoring.RowTotal | script.js:87-91 | one candidate substring against every query substring adds 0 or at least 2 |
| Scoring.PairTotal | script.js:86-91 | all substring pairs of a candidate add 0 or at least 2 |
| Scoring.Score | script.js:76-91 | one candidate's bonuses sum to 0 or at least 2 |
| Scoring.Total | script.js:75-92 | a candidate's score summed over its occurrences in the list is 0 for a non-candidate, at least its own score for a candidate, and 0 when it scores nothing |
| Scoring.ExactMatchScore | script.js:76-79 | a candidate equal to the query ignoring case gets both 15-point bonuses, so it scores at least 30 |
| Scoring.ContainmentScore | script.js:78-79 | a candidate containing the query ignoring case scores at least 15 |
| Scoring.UnrelatedPair | script.js:86-91 | a substring pair drawn from two strings with no code unit in common, after folding, adds nothing |
| Scoring.RowTotalZero | script.js:87-91 | a candidate substring that earns nothing against each query substring earns nothing in total |
| Scoring.PairTotalZero | script.js:86-91 | when no pair earns anything, the pair loops add nothing |
| Scoring.UnrelatedScoresZero | script.js:76-91 | a candidate sharing no code unit with a non-empty query, ignoring case, earns no bonus at all |
| Scoring.TallyEntry | script.js:75-92 | the Map has an entry for v exactly when v is a candidate that earned something (entries are created only by a bonus), and that entry holds v's total |
| Scoring.TallyShape | script.js:75-92 | the Map's keys are distinct and it has at most one entry per candidate |
| Scoring.TallyEntriesScored | script.js:75-92 | every Map entry names a candidate and holds a score of at least 2 |
| Scoring.TallyDistinct | script.js:75-92 | with distinct candidates, the Map lists in list order exactly the candidates that scored, each with its score |
| Scoring.CreditRow | script.js:87-91 | the inner `for...of` loop, run on the Map the earlier rows left, adds to the candidate exactly the pair bonuses of one candidate substring against every query substring |
| Scoring.CreditPairs | script.js:86-91 | the nested `for...of` loops, carrying one Map through every row, credit it with exactly the sum of the pair bonuses |
| Scoring.CreditCandidate | script.js:75-92 | the `reduce` callback credits the candidate with exactly its score, and nothing when the score is 0 |
| Scoring.AccumulateScores | script.js:70-92 | building the query's Set and then the `reduce` from an empty Map yields exactly `Tally` |
| Ranking.InsertMultiset | script.js:93-94 | one insertion step keeps every entry and adds the inserted one |
| Ranking.InsertMembers | script.js:93-94 | one insertion step introduces no entry other than the inserted one |
| Ranking.InsertStable | script.js:93-94 | one insertion step keeps entries of equal score in their order |
| Ranking.InsertSorted | script.js:93-94 | inserting into a sorted prefix keeps it ordered by non-increasing score |
| Ranking.SortFacts | script.js:93-94 | the sort is a permutation, has non-increasing scores and is stable (entries of equal score keep their order) |
| Ranking.SortUnique | script.js:93-94 | sorting keeps the keys distinct |
| Ranking.InsertUnique | script.js:93-94 | inserting a new key keeps the keys distinct |
| Ranking.InsertAt | script.js:93-94 | the entry being placed passes exactly the trailing entries with a strictly lower score (comparator `b[1] - a[1]` positive) and stops behind the first it does not beat |
| Ranking.InsertLast | script.js:93-94 | one in-place pass leaves the prefix equal to the next entry inserted into the sorted prefix, and leaves the rest of the array unchanged |
| Ranking.SortInPlace | script.js:93-94 | the in-place sort leaves the array equal to the stable sort by descending score of its old contents |
| Ranking.Slice | script.js:95 | `slice(0, end)` returns a prefix: all of it when `end` is undefined, exactly the first `min(end, length)` entries when `end` is not negative, and all but the last `-end` entries (or none) when `end` is negative |
| Ranking.RankingOrdered | script.js:93-95 | the ranked result is ordered by non-increasing score |
| Ranking.RankingLength | script.js:67-95 | a positive limit bounds the length; a limit of 0 or an omitted limit means no truncation; the length never exceeds the candidate count |
| Ranking.RankingEntries | script.js:75-95 | each result names a candidate, at most once, with a score of at least 2 that is its total over its occurrences |
| Ranking.RankingExactMatch | script.js:76-95 | without truncation, a candidate equal to the query ignoring case is ranked with a score of at least 30 |
| Ranking.RankingOmitsUnrelated | script.js:75-95 | a candidate sharing no code unit with a non-empty query, ignoring case, never appears |
| Ranking.RankingTiesInListOrder | script.js:75-95 | with distinct candidates, the results of each score are a prefix of the candidates of that score in list order, under any limit; without truncation they are all of them |
| Ranking.SortRelevance | script.js:67-97 | `sortRelevance` returns exactly the sorted, sliced Map entries, as pairs or as names depending on the relevance flag |
| Search.Search | script.js:8-12 | an empty input gives no results; without extended mode there are at most 7 results; never more than the candidate count; pairs exactly in relevance mode |
| Search.SearchNamesMode | script.js:96 | names mode lists the first components of the pairs mode, in the same order |
| Search.LowerTwice | script.js:76 | with an idempotent fold, lowercasing the already-lowercased query changes nothing |
| Search.SearchResults | script.js:8-12 | for a non-empty input the pairs are ordered by non-increasing score, name distinct candidates and score at least 2; in extended mode they are the whole sorted Map, otherwise exactly its first `min(7, n)` entries |
| Search.SearchExactMatch | script.js:8-12 | in extended mode, a candidate equal to the input ignoring case is listed with a score of at least 30 |
| Search.SearchOmitsUnrelated | script.js:8-12 | a candidate sharing no code unit with the input, ignoring case, is never suggested |
| Search.AvocadoUnits | script.js:6 | the list holds 79 names; "Avocado 🥑" is ten code units, ending in the high surrogate 0xD83E and the low surrogate 0xDD51 |

## Left out

- The DOM: element lookups, event listeners, building suggestion elements,
  `useSuggestion`, and the hover preview and restore (script.js:1-4, 14-65,
  99-102). This is user-interface plumbing with no data logic. The text
  box's value and the two checkboxes' states become the parameters `input`,
  `extended` and `showRelevance`.
- The percentage shown beside each score (script.js:40-42). It needs IEEE
  floating point (`-Infinity`, division, `Math.floor`), which the model
  does not have.
- Full Unicode case mapping. `toLowerCase` can change the length of a
  string, but here it is an arbitrary per-code-unit `Fold`.
- Search.SearchExactMatch, Search.SearchOmitsUnrelated: these assume the
  fold is idempotent, as `toLowerCase` is on the units it maps one-to-one,
  because `search` lowercases the query and the ranker lowercases it again.
- Ranking.RankingTiesInListOrder: stated for lists without duplicate names.
  With duplicates, a repeated name keeps the position of its first
  occurrence.
- Ranking.RankingExactMatch: stated without truncation. With a limit, an
  exact match can in principle be cut off by other candidates with higher
  scores.
- The engine's own sorting algorithm is not part of this model. Any stable
  sort with this comparator gives the same order, and the model sorts by
  stable insertion.
- JavaScript numbers are modelled as unbounded integers. Scores stay far
  below 2^53.
- The implicit globals `_results`, `item` and `item2` (script.js:75, 86-87)
  have no observable effect and are local values here.
