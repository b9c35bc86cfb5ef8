/** JavaScript strings as the engine stores them: sequences of UTF-16 code
    units. `split('')` and `length` work on code units, so a character outside
    the Basic Multilingual Plane counts as two. */
module JsText {

  newtype CodeUnit = x: int | 0 <= x < 0x1_0000

  type JsString = seq<CodeUnit>

  /** A JavaScript value that is either `undefined` or a `T`. */
  datatype Option<T> = None | Some(value: T)

  /** A per-code-unit case fold standing for `String.prototype.toLowerCase`. */
  type Fold = CodeUnit -> CodeUnit

  /** `s.toLowerCase()`: the fold applied to every code unit. */
  function Lower(lower: Fold, s: JsString): JsString {
    seq(|s|, i requires 0 <= i < |s| => lower(s[i]))
  }

  /** No string occurs twice. */
  predicate Distinct(xs: seq<JsString>) {
    forall i, j :: 0 <= i < j < |xs| ==> xs[i] != xs[j]
  }

  /** `needle` occurs in `hay` starting at index `i`. */
  predicate OccursAt(hay: JsString, needle: JsString, i: int) {
    0 <= i <= |hay| - |needle| && hay[i..i + |needle|] == needle
  }

  /** `hay.includes(needle)`: `needle` occurs contiguously in `hay`. */
  predicate Includes(hay: JsString, needle: JsString) {
    exists i | 0 <= i <= |hay| - |needle| :: OccursAt(hay, needle, i)
  }

  lemma IncludesItself(s: JsString)
    ensures Includes(s, s)
  {
    assert OccursAt(s, s, 0);
  }

  /** Whatever a non-empty needle found in `hay`, its first unit occurs in `hay`. */
  lemma {:induction false} IncludedUnit(hay: JsString, needle: JsString)
    requires Includes(hay, needle) && needle != []
    ensures needle[0] in hay
  {
    var i: int :| 0 <= i <= |hay| - |needle| && OccursAt(hay, needle, i);
    assert hay[i] == hay[i..i + |needle|][0];
  }

  /** Folding a slice is slicing the folded string. */
  lemma LowerSlice(lower: Fold, s: JsString, a: nat, b: nat)
    requires a <= b <= |s|
    ensures Lower(lower, s[a..b]) == Lower(lower, s)[a..b]
  {
  }

  /** The UTF-16 code units of one Unicode scalar value: itself below
      0x10000, otherwise a high and a low surrogate. */
  function Utf16Unit(c: char): (r: seq<CodeUnit>)
    ensures |r| == if c as int < 0x1_0000 then 1 else 2
  {
    var v := c as int;
    if v < 0x1_0000 then [v as CodeUnit]
    else [(0xD800 + (v - 0x1_0000) / 0x400) as CodeUnit,
          (0xDC00 + (v - 0x1_0000) % 0x400) as CodeUnit]
  }

  /** A string literal as the engine holds it. */
  function Utf16(s: string): JsString {
    if s == [] then [] else Utf16Unit(s[0]) + Utf16(s[1..])
  }

  /** Encoding a concatenation concatenates the encodings. */
  lemma {:induction false} Utf16Concat(a: string, b: string)
    ensures Utf16(a + b) == Utf16(a) + Utf16(b)
  {
    if a == [] {
      assert a + b == b;
    } else {
      assert (a + b)[0] == a[0] && (a + b)[1..] == a[1..] + b;
      Utf16Concat(a[1..], b);
    }
  }
}
