/**
 * Concrete cases of `capitalize`: the call in the web application
 * (apps/web/src/App.tsx:11), and further cases: `""`, a word already
 * capitalized (`"Already"`), a leading digit (`"1abc"`) and a first letter
 * whose upper-case form is longer (`"ßa"`).
 */
module FormatterExamples {
  import opened Wrappers
  import opened JsString
  import opened CaseMapping
  import opened Formatters

  /** `capitalize("hello")`, as rendered by the web application, is "Hello". */
  lemma HelloBecomesHello()
    ensures Capitalize(AsciiUpper, Some(Units("hello"))) == Units("Hello")
  {
  }

  /** The empty string and an absent value both give "". */
  lemma EmptyAndAbsent()
    ensures Capitalize(AsciiUpper, Some(Units(""))) == []
    ensures Capitalize(AsciiUpper, None) == []
  {
  }

  /** Text already starting with a capital, or with a digit, is unchanged. */
  lemma AlreadyCapitalOrDigit()
    ensures Capitalize(AsciiUpper, Some(Units("Already"))) == Units("Already")
    ensures Capitalize(AsciiUpper, Some(Units("1abc"))) == Units("1abc")
  {
  }

  /** With the ASCII mapping, capitalizing twice is capitalizing once. */
  lemma AsciiIdempotent(input: Option<Text>)
    ensures Capitalize(AsciiUpper, Some(Capitalize(AsciiUpper, input))) == Capitalize(AsciiUpper, input)
  {
    AsciiUpperLawful();
    Idempotent(AsciiUpper, input);
  }

  /** With a mapping that lengthens "ß", `capitalize("ßa")` is "SSa": one unit longer than the input. */
  lemma SharpSLengthens()
    ensures Capitalize(SharpSUpper, Some(Units("ßa"))) == Units("SSa")
    ensures |Capitalize(SharpSUpper, Some(Units("ßa")))| == |Units("ßa")| + 1
  {
  }

  /** With the lengthening mapping, capitalizing twice is capitalizing once. */
  lemma SharpSIdempotent(input: Option<Text>)
    ensures Capitalize(SharpSUpper, Some(Capitalize(SharpSUpper, input))) == Capitalize(SharpSUpper, input)
  {
    SharpSUpperLawful();
    Idempotent(SharpSUpper, input);
  }
}
