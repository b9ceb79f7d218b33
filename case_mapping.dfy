/**
 * `String.prototype.toUpperCase` applied to a one-code-unit string. The real
 * mapping comes from the Unicode tables of the JavaScript engine; the model
 * takes it as a parameter and states only the properties the proofs use.
 * The result is a sequence because default case conversion may lengthen the
 * text (section 3.13 "Default Case Algorithms" of the Unicode Standard: "ß"
 * becomes "SS").
 */
module CaseMapping {
  import opened JsString

  /** The upper-case mapping of one code unit. */
  type CaseMap = CodeUnit -> Text

  /**
   * What `toUpperCase` guarantees of a one-unit string: the result is never
   * empty, and a lone surrogate, which has no case, is returned unchanged.
   */
  predicate WellFormed(upper: CaseMap) {
    forall u :: |upper(u)| >= 1 && (IsSurrogate(u) ==> upper(u) == [u])
  }

  /** The first unit of every upper-cased result is already upper case. */
  predicate StableLead(upper: CaseMap) {
    forall u :: |upper(u)| >= 1 ==> upper(upper(u)[0]) == [upper(u)[0]]
  }

  /** A unit the mapping leaves alone: already upper case, or not a letter. */
  predicate Fixed(upper: CaseMap, u: CodeUnit) {
    upper(u) == [u]
  }

  const LowerA: CodeUnit := 0x61
  const LowerZ: CodeUnit := 0x7A
  /** Distance between a lower-case ASCII letter and its upper-case form. */
  const AsciiCaseOffset: CodeUnit := 0x20

  /** The ASCII instance: 'a'..'z' become 'A'..'Z', every other unit maps to itself. */
  function AsciiUpper(u: CodeUnit): (r: Text)
    ensures |r| == 1
    ensures LowerA <= u <= LowerZ ==> r[0] as int == u as int - 0x20 && r[0] != u
    ensures !(LowerA <= u <= LowerZ) ==> r[0] == u
    ensures !(LowerA <= r[0] <= LowerZ)
  {
    if LowerA <= u <= LowerZ then [u - AsciiCaseOffset] else [u]
  }

  /** The ASCII instance meets both hypotheses the general lemmas rely on. */
  lemma AsciiUpperLawful()
    ensures WellFormed(AsciiUpper)
    ensures StableLead(AsciiUpper)
  {
    forall u ensures AsciiUpper(AsciiUpper(u)[0]) == [AsciiUpper(u)[0]] {
      var v := AsciiUpper(u)[0];
      assert !(LowerA <= v <= LowerZ);
    }
  }

  /** LATIN SMALL LETTER SHARP S, which upper-cases to two units. */
  const SharpS: CodeUnit := 0xDF
  const UpperS: CodeUnit := 0x53

  /**
   * A lengthening instance: "ß" becomes "SS", as in the Unicode default
   * case mapping; every other unit is mapped as by `AsciiUpper`.
   */
  function SharpSUpper(u: CodeUnit): (r: Text)
    ensures u == SharpS ==> |r| == 2
    ensures u != SharpS ==> r == AsciiUpper(u)
    ensures |r| >= 1 && !(LowerA <= r[0] <= LowerZ) && r[0] != SharpS
  {
    if u == SharpS then [UpperS, UpperS] else AsciiUpper(u)
  }

  /** The lengthening instance meets both hypotheses of the general lemmas too. */
  lemma SharpSUpperLawful()
    ensures WellFormed(SharpSUpper)
    ensures StableLead(SharpSUpper)
  {
    forall u ensures SharpSUpper(SharpSUpper(u)[0]) == [SharpSUpper(u)[0]] {
      var v := SharpSUpper(u)[0];
      assert !(LowerA <= v <= LowerZ) && v != SharpS;
    }
  }
}
