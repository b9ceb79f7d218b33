/**
 * JavaScript strings as sequences of UTF-16 code units. Indexing (`s[0]`)
 * and `slice` work on code units, so a character outside the Basic
 * Multilingual Plane occupies two elements (a surrogate pair).
 */
module JsString {

  /** One UTF-16 code unit. */
  newtype CodeUnit = x: int | 0 <= x < 0x1_0000

  /** A JavaScript string value. */
  type Text = seq<CodeUnit>

  /** A high or low surrogate: half of a pair, never a character on its own. */
  predicate IsSurrogate(u: CodeUnit) {
    0xD800 <= u <= 0xDFFF
  }

  /** True when every character of `s` is encoded by a single code unit. */
  predicate InBmp(s: string) {
    forall i :: 0 <= i < |s| ==> s[i] as int < 0xD800 || 0xE000 <= s[i] as int < 0x1_0000
  }

  /** The UTF-16 encoding of a string whose characters all lie in the Basic Multilingual Plane. */
  function Units(s: string): (r: Text)
    requires InBmp(s)
    ensures |r| == |s|
    ensures forall i :: 0 <= i < |s| ==> r[i] as int == s[i] as int && !IsSurrogate(r[i])
  {
    if s == [] then [] else [s[0] as int as CodeUnit] + Units(s[1..])
  }

  /**
   * `s.slice(start)` with JavaScript's clamping of the start index: a
   * negative start counts back from the end (and stops at 0), a start past
   * the end gives the empty string. The result is always a suffix of `s`.
   */
  function Slice(s: Text, start: int): (r: Text)
    ensures 0 <= start <= |s| ==> |r| == |s| - start
    ensures |s| < start ==> r == []
    ensures start < 0 ==> |r| == if -start <= |s| then -start else |s|
    ensures r == s[|s| - |r|..]
  {
    var from :=
      if start < 0 then (if |s| + start < 0 then 0 else |s| + start)
      else if start < |s| then start
      else |s|;
    s[from..]
  }
}
