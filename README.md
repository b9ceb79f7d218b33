# capitalize — a Dafny model of the utils package's string formatter

The utils package of this monorepo (`@my/utils`) exports one function,
`capitalize(input)`. If `input` is falsy (`null`, `undefined` or `""`) it
returns `""`. Otherwise it returns `input[0].toUpperCase() + input.slice(1)`:
the first element upper-cased, then the rest of the string unchanged. The web
application calls it once, as `capitalize("hello")`.

The model follows the compiled module `packages/utils/dist/index.mjs`. Its
TypeScript origin, `src/utils/formatters.ts`, is not part of this model.

- `js_string.dfy` (`JsString`): a JavaScript string is a sequence of UTF-16
  code units (`CodeUnit`, 0..0xFFFF). `input[0]` and `slice(1)` work on code
  units, not on characters. `Slice` is `String.prototype.slice` with one
  argument, including its clamping of negative and too-large start indices.
  `Units` encodes a Dafny string whose characters all lie in the Basic
  Multilingual Plane.
- `case_mapping.dfy` (`CaseMapping`): `toUpperCase` on a one-unit string is a
  parameter `upper: CodeUnit -> seq<CodeUnit>`. Its result is a sequence
  because default case conversion may lengthen text (Unicode Standard, section
  3.13 "Default Case Algorithms": "ß" becomes "SS"). `WellFormed` states what
  any JavaScript engine guarantees: the result is never empty, and a lone
  surrogate comes back unchanged. `StableLead` states that the first unit of
  an upper-cased result is itself upper case; idempotence needs it.
  `AsciiUpper` is a concrete instance that maps 'a'..'z' to 'A'..'Z' and
  leaves every other unit alone.
- `formatters.dfy` (`Formatters`): `Falsy`, `Capitalize` and the lemmas about it.
  `IsCapitalized` is an element-by-element reference description of the
  result, and `CapitalizeCharacterized` proves that it matches `Capitalize`
  in both directions.
- `examples.dfy` (`FormatterExamples`): the application's call `"hello"`,
  and further cases: `""`, a word already capitalized (`"Already"`) and a
  leading digit (`"1abc"`), all with `AsciiUpper`; and `"ßa"` with
  `SharpSUpper`, a second instance that maps "ß" to "SS", so the result is
  longer than the input.
- `wrappers.dfy` (`Wrappers`): `Option`. `None` stands for `null`/`undefined`.

Read as "upper-case the first character", `capitalize` is not what the code
does: it indexes the first UTF-16 code unit, and the model follows the code. One consequence
is proved as `LeadingSurrogateUnchanged`. A string that starts with a
character outside the Basic Multilingual Plane is returned unchanged, because
`input[0]` is then a lone surrogate, and a lone surrogate has no case. This
holds even when that character has an upper-case form (for example DESERET
SMALL LETTER LONG I, U+10428).

## Model

| member | source | states |
|---|---|---|
| `Formatters.Capitalize` | packages/utils/dist/index.mjs:2-5 | Total: no precondition, and never an error. A falsy input (absent or empty) gives the empty string. Otherwise the result starts with `upper(s[0])`, the upper-cased first unit, followed by `s[1..]`, and its length is `|upper(s[0])| + |s| - 1`. |
| `Formatters.CapitalizeCharacterized` | packages/utils/dist/index.mjs:4 | For non-empty `s`, a string `r` satisfies the element-by-element description (upper-cased first unit, then each `s[j]`, j >= 1, shifted by `|upper(s[0])| - 1`) if and only if `r` is the result of `capitalize`. |
| `Formatters.EmptyInput` | packages/utils/dist/index.mjs:3 | `capitalize("")` is `""`. |
| `Formatters.AbsentInput` | packages/utils/dist/index.mjs:3 | `capitalize(null)` and `capitalize(undefined)` are `""`, with no error. |
| `Formatters.NonEmptyInput` | packages/utils/dist/index.mjs:4 | For non-empty `s`, the result is exactly `upper(s[0]) + s[1..]`. |
| `Formatters.TailPreserved` | packages/utils/dist/index.mjs:4 | With a well-formed mapping, the result is at least as long as `s`, and its last `|s| - 1` units are `s[1..]`. |
| `Formatters.LengthOf` | packages/utils/dist/index.mjs:4 | The result has length `|upper(s[0])| + |s| - 1`. It has the length of `s` if and only if the first unit maps to exactly one unit. |
| `Formatters.FixedLeadUnchanged` | packages/utils/dist/index.mjs:4 | If the mapping fixes the first unit (already upper case, or not a letter), the result equals the input. |
| `Formatters.UnchangedOnlyIfFixedLead` | packages/utils/dist/index.mjs:4 | With a well-formed mapping, the result equals a non-empty input if and only if the mapping fixes its first unit. |
| `Formatters.LeadingSurrogateUnchanged` | packages/utils/dist/index.mjs:4 | A string that starts with a surrogate code unit is returned unchanged: only `input[0]` is case-mapped, and a lone surrogate has no case. |
| `Formatters.Idempotent` | packages/utils/dist/index.mjs:2-4 | Take a well-formed mapping that fixes the first unit of its own output. Then capitalizing the result again changes nothing, for every input, absent and empty included. |
| `CaseMapping.AsciiUpper` | packages/utils/dist/index.mjs:4 | The ASCII instance of `toUpperCase` on one unit. It gives exactly one unit. A lower-case letter moves down by 0x20 to a different unit; every other unit is kept. No output is a lower-case letter. |
| `CaseMapping.SharpSUpper` | packages/utils/dist/index.mjs:4 | A lengthening instance of `toUpperCase` on one unit. "ß" (0xDF) gives two units; every other unit is mapped as by `AsciiUpper`. No output starts with a lower-case letter or with "ß". |
| `CaseMapping.SharpSUpperLawful` | packages/utils/dist/index.mjs:4 | The lengthening instance is well formed and fixes the first unit of its own output, so the general lemmas, idempotence included, apply to a mapping that lengthens text. |
| `CaseMapping.AsciiUpperLawful` | packages/utils/dist/index.mjs:4 | The ASCII instance is well formed and fixes the first unit of its own output, so the general lemmas apply to it. |
| `JsString.Slice` | packages/utils/dist/index.mjs:4 | `s.slice(start)` always returns a suffix of `s`. For `0 <= start <= |s|` it has `|s| - start` units. A start past the end gives `""`. A negative start keeps the last `-start` units, or all of `s` if `-start` exceeds its length. |
| `JsString.Units` | apps/web/src/App.tsx:11 | Reads a string literal such as `"hello"` as code units. Text in the Basic Multilingual Plane has one non-surrogate code unit per character, with the same value, so code unit i is character i, and `input[0]` is the first character. |
| `FormatterExamples.HelloBecomesHello` | apps/web/src/App.tsx:11 | With the ASCII mapping, `capitalize("hello")` is `"Hello"`. |
| `FormatterExamples.EmptyAndAbsent` | packages/utils/dist/index.mjs:3 | With the ASCII mapping, `""` and an absent value both give `""`. |
| `FormatterExamples.AlreadyCapitalOrDigit` | packages/utils/dist/index.mjs:4 | With the ASCII mapping, `"Already"` and `"1abc"` come back unchanged. |
| `FormatterExamples.AsciiIdempotent` | packages/utils/dist/index.mjs:2-4 | With the ASCII mapping, capitalizing twice is the same as capitalizing once. |
| `FormatterExamples.SharpSLengthens` | packages/utils/dist/index.mjs:4 | With the lengthening mapping, `capitalize("ßa")` is `"SSa"`, one unit longer than the input. |
| `FormatterExamples.SharpSIdempotent` | packages/utils/dist/index.mjs:2-4 | With the lengthening mapping, capitalizing twice is the same as capitalizing once. |

## Left out

- The Unicode case-mapping tables behind `String.prototype.toUpperCase` belong to the JavaScript engine. The model takes the mapping as a parameter, and states only the properties its lemmas assume (`WellFormed`, `StableLead`). The ASCII instance is used for concrete cases.
- JavaScript truthiness of values that are not strings (`0`, `false`, `NaN`, objects) is not modelled. Only string values and `null`/`undefined` (`None`) are modelled, so only `None` and `""` reach the falsy branch.
- Purity is not stated separately: a Dafny function is pure and deterministic, and it cannot change its argument.
- Locale-specific case mapping (`toLocaleUpperCase`) is not used by the source, so it is not modelled.
- The bundler and build configuration (`packages/ui/vite.config.js`, `packages/utils/tsup.config.ts`) is left out, because it holds no logic. The DOM mount in `apps/web/src/main.tsx` is left out too, because it is browser I/O. The JSX composition in `apps/web/src/App.tsx` is left out as well, because it has no branching; only its literal `"hello"` is used.
