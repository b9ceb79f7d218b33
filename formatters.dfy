/**
 * The string formatter `capitalize` of the utils package
 * (src/utils/formatters.ts, shipped as packages/utils/dist/index.mjs).
 */
module Formatters {
  import opened Wrappers
  import opened JsString
  import opened CaseMapping

  /**
   * JavaScript's `!input` for the values the model admits: `null` and
   * `undefined` (None) and the empty string are falsy, every other string is not.
   */
  predicate Falsy(input: Option<Text>) {
    input.None? || input.value == []
  }

  /**
   * `capitalize(input)`: a falsy input yields the empty string; otherwise the
   * first code unit, upper-cased, followed by every later unit unchanged.
   * It never fails.
   */
  function Capitalize(upper: CaseMap, input: Option<Text>): (r: Text)
    ensures Falsy(input) ==> r == []
    ensures !Falsy(input) ==> |r| == |upper(input.value[0])| + |input.value| - 1
    ensures !Falsy(input) ==> r[..|upper(input.value[0])|] == upper(input.value[0])
    ensures !Falsy(input) ==> r[|upper(input.value[0])|..] == input.value[1..]
  {
    if Falsy(input) then []
    else
      var s := input.value;
      upper(s[0]) + Slice(s, 1)
  }

  /**
   * An independent, element-by-element description of the result for a
   * non-empty string `s`: first the upper-cased form of `s[0]`, then every
   * unit `s[j]` (j >= 1) at position |upper(s[0])| + j - 1.
   */
  ghost predicate IsCapitalized(upper: CaseMap, s: Text, r: Text)
    requires s != []
  {
    var u := upper(s[0]);
    && |r| == |u| + |s| - 1
    && (forall i :: 0 <= i < |u| ==> r[i] == u[i])
    && (forall j :: 1 <= j < |s| ==> r[|u| + j - 1] == s[j])
  }

  /** The result for a non-empty string is exactly the one the description admits. */
  lemma CapitalizeCharacterized(upper: CaseMap, s: Text, r: Text)
    requires s != []
    ensures IsCapitalized(upper, s, r) <==> r == Capitalize(upper, Some(s))
  {
  }

  /** An empty string is returned as the empty string. */
  lemma EmptyInput(upper: CaseMap)
    ensures Capitalize(upper, Some([])) == []
  {
  }

  /** `null` and `undefined` give the empty string: there is no error path. */
  lemma AbsentInput(upper: CaseMap)
    ensures Capitalize(upper, None) == []
  {
  }

  /** For a non-empty string the result is the upper-cased first unit followed by `slice(1)`. */
  lemma NonEmptyInput(upper: CaseMap, s: Text)
    requires s != []
    ensures Capitalize(upper, Some(s)) == upper(s[0]) + s[1..]
  {
  }

  /** The last |s| - 1 units of the result are the input after its first unit. */
  lemma TailPreserved(upper: CaseMap, s: Text)
    requires WellFormed(upper) && s != []
    ensures var r := Capitalize(upper, Some(s));
      |r| >= |s| && r[|r| - (|s| - 1)..] == s[1..]
  {
    assert |upper(s[0])| >= 1;
  }

  /** The length grows by |upper(s[0])| - 1; it is unchanged exactly when the first unit maps to one unit. */
  lemma LengthOf(upper: CaseMap, s: Text)
    requires s != []
    ensures |Capitalize(upper, Some(s))| == |upper(s[0])| + |s| - 1
    ensures |Capitalize(upper, Some(s))| == |s| <==> |upper(s[0])| == 1
  {
  }

  /** A string whose first unit the mapping fixes (upper case already, or not a letter) comes back unchanged. */
  lemma FixedLeadUnchanged(upper: CaseMap, s: Text)
    requires s != [] && Fixed(upper, s[0])
    ensures Capitalize(upper, Some(s)) == s
  {
    assert [s[0]] + s[1..] == s;
  }

  /**
   * Conversely, if the result equals the input, the mapping fixed the first
   * unit (for a well-formed mapping, whose result is never empty).
   */
  lemma UnchangedOnlyIfFixedLead(upper: CaseMap, s: Text)
    requires WellFormed(upper) && s != []
    ensures Capitalize(upper, Some(s)) == s <==> Fixed(upper, s[0])
  {
    var u := upper(s[0]);
    if Capitalize(upper, Some(s)) == s {
      assert |u| == 1;
      assert u[0] == (u + s[1..])[0] == s[0];
      assert u == [s[0]];
    } else {
      if Fixed(upper, s[0]) {
        FixedLeadUnchanged(upper, s);
        assert false;
      }
    }
  }

  /**
   * Code units are not characters: when the string starts with a surrogate
   * pair, `input[0]` is a lone surrogate, which has no case, so the string is
   * returned unchanged even if the character it starts has an upper-case form.
   */
  lemma LeadingSurrogateUnchanged(upper: CaseMap, s: Text)
    requires WellFormed(upper) && s != [] && IsSurrogate(s[0])
    ensures Capitalize(upper, Some(s)) == s
  {
    assert upper(s[0]) == [s[0]];
    FixedLeadUnchanged(upper, s);
  }

  /** Capitalizing twice is the same as capitalizing once. */
  lemma Idempotent(upper: CaseMap, input: Option<Text>)
    requires WellFormed(upper) && StableLead(upper)
    ensures Capitalize(upper, Some(Capitalize(upper, input))) == Capitalize(upper, input)
  {
    if !Falsy(input) {
      // The result starts with upper(s[0])[0], which the mapping fixes.
      FixedLeadUnchanged(upper, Capitalize(upper, input));
    }
  }
}
