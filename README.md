# activity-calc duration annotator, modelled in Dafny

activity-calc keeps a plain-text activity log. Each entry line starts with an
`HHMM` timestamp, for example `0950 Ankommen`. It annotates the log in place:
every entry gets the minutes until the next line's timestamp, appended as
` (<minutes>)`. Header lines such as `# 28.05.2024`, blank lines and the last
line get nothing. A line that already ends in a parenthesised run of digits
is skipped.

The model covers the pure core of `calc.js`:

- `durationPerLine`: one optional duration per line.
- `addDurationSuffixes`: appends each duration to its line.
- `timeDifferenceInMinutes`: `parseInt` arithmetic on the two 4-character prefixes.
- `isNumber`: the `!isNaN(Number(v))` test.
- Their composition in `writeActivityDurationToFile`.

The core is pure, so it becomes functions over sequences and lemmas about them.

A JavaScript number is modelled as `Num`, which is an integer or `NaN`. This
is enough because every value here comes from `parseInt` followed by `*`, `+`
and `-`. JavaScript `undefined` is `Option.None`.

The JavaScript built-ins the core calls are modelled after ECMA-262:

- `Number(s)`, used as an acceptance test, follows the StringNumericLiteral grammar of section 7.1.4.1.
- `parseInt(s)` follows section 19.2.5.
- `String.prototype.substring` clamps and orders its bounds.
- `String(n)` and template insertion give the decimal numeral.

Modules:

- `Options`: `Option`.
- `Chars`: character classes, trimming, digit runs and `substring`.
- `Decimal`: numeral values and rendering.
- `JsNumbers`: `Num`, its arithmetic, `Number()` acceptance and `parseInt`.
- `Calc`: the operations of `calc.js`.
- `CalcProperties`: what the annotator promises.

Some results follow `calc.js` where other readings differ:

- **Already-annotated lines.** `calc.test.js:60` expects `10` for the already-annotated line `1000 Daily (10)`. `calc.js:47-49` returns `undefined` for every line that ends in `(<digits>)`, and the model follows the code (`Calc.DurationPerLine`).
- **Sum for 28.05.2024.** The durations of the test log's first day, from `0950` to `1700`, add up to 420 minutes rather than the 430 the timestamps span. The annotated line `1000 Daily (10)` gets no duration, so its 10 minutes are not counted.
- **Idempotence.** Annotating twice changes nothing when every computed duration is a non-negative integer (`CalcProperties.AugmentIdempotent`). A negative duration (a log that crosses midnight) or `NaN` does not form a recognised suffix. A second pass then computes it again when the line and the next have at least four characters, so that the suffix leaves both timestamps alone (`CalcProperties.SecondPassRepeatsOtherDurations`, `CalcProperties.MidnightBreaksIdempotence`). On shorter lines the appended text can change what the next pass reads: `["12", "1000"]` becomes `["12 (NaN)", "1000"]`, and the prefix `12 (` is not numeric, so nothing more is appended (`CalcProperties.ShortLineNaNIsNotRepeated`).

## Model

| member | source | states |
|---|---|---|
| Calc.DurationPerLine | calc.js:41-76 | one entry per line; the last line's entry is undefined; every line that ends in a parenthesised digit run gets undefined |
| Calc.AddDurationSuffixes | calc.js:26-32 | as many lines as given, in the same order; every output line starts with its input line; a line changes exactly when a duration d is present at its index, and then it is the line followed by ` (`, `String(d)` and `)` |
| Calc.AugmentWithDurations | calc.js:10 | the annotated log has as many lines as the input |
| Calc.TimePrefix | calc.js:51-52 | the timestamp read from a line is its first four characters, or the whole line when it is shorter |
| Chars.SubstringIgnoresBoundOrder | calc.js:84 | `substring` gives the same text whichever of its two bounds comes first |
| Chars.SubstringSplits | calc.js:84 | for ordered bounds, the text before the clamped start, the substring and the text from the clamped end make up the string again |
| Chars.SubstringFrom | calc.js:84 | `substring(start)` is the rest of the string from the clamped start |
| CalcProperties.HasDurationSuffixIsPattern | calc.js:47-49 | the skip guard holds exactly when `/\([0-9]*\)$/` matches: a `(` followed by digits only, then a final `)` |
| CalcProperties.EmptyParenthesesCountAsSuffix | calc.js:47-49 | a line ending in `()` also counts as annotated, since the digit run may be empty |
| JsNumbers.DigitsAreNumeric | calc.js:115 | every non-empty string of ASCII digits passes `isNumber` |
| JsNumbers.EmptyIsNumeric | calc.js:115 | the empty string passes `isNumber`, since `Number("")` is 0 |
| JsNumbers.HashIsNotNumeric | calc.js:115 | a string starting with `#` fails `isNumber` |
| JsNumbers.ParseIntOfDigits | calc.js:84-86 | `parseInt` of a non-empty digit string is its decimal value |
| JsNumbers.ParseIntOfNegatedDigits | calc.js:84-86 | `parseInt` of `-` before a non-empty digit string is the negated decimal value |
| JsNumbers.ParseIntOfEmpty | calc.js:84-86 | `parseInt("")` is NaN |
| JsNumbers.Add | calc.js:84 | a sum is a number exactly when both operands are; NaN absorbs |
| JsNumbers.Mul | calc.js:84 | a product is a number exactly when both operands are; NaN absorbs |
| JsNumbers.Sub | calc.js:89 | a difference is a number exactly when both operands are; NaN absorbs |
| CalcProperties.MinutesOfTimestamp | calc.js:83-86 | on four digits `HHMM` the `parseInt` arithmetic gives `HH * 60 + MM` |
| CalcProperties.TimeDifferenceOnTimestamps | calc.js:81-92 | on two four-digit timestamps the difference is `(HH2 * 60 + MM2) - (HH1 * 60 + MM1)` |
| CalcProperties.TimeDifferenceOfSelf | calc.js:81-92 | a time is 0 minutes from itself, or NaN when it does not parse |
| CalcProperties.TimeDifferenceAntisymmetric | calc.js:81-92 | swapping the two times negates the difference, NaN included |
| CalcProperties.TimeDifferenceAdditive | calc.js:81-92 | the differences a to b and b to c add up to a to c when b parses |
| CalcProperties.NoWrapAroundAtMidnight | calc.js:81-92 | `2350` to `0010` is -1420 minutes: there is no wrap-around at midnight |
| CalcProperties.ShortDigitPrefixIsNaN | calc.js:84-86 | a timestamp of one or two digits has no minutes part, so every difference with it is NaN |
| CalcProperties.AdjacentEntries | calc.js:51-74 | an unannotated entry followed by an entry gets the minutes between the two timestamps |
| CalcProperties.BlankAndHeaderLinesGetNone | calc.js:54-60 | a blank or `#` header line gets undefined, and so does the line before it |
| CalcProperties.Telescoping | calc.js:41-92 | over a run of entries, none annotated except perhaps the last, the durations add up to the time from the first timestamp to the last |
| CalcProperties.ElapsedTelescopes | calc.js:62 | durations that are the steps between consecutive clock readings add up to the first-to-last distance |
| Decimal.IntToString | calc.js:30 | the rendered number is never empty; it is all ASCII digits exactly when the number is non-negative, and starts with `-` exactly when it is negative |
| Decimal.NatToString | calc.js:30 | a non-negative number renders as ASCII digits with no leading zero |
| Decimal.NatToStringRoundTrip | calc.js:30 | the decimal value of the rendered numeral is the number |
| JsNumbers.ParseIntOfToString | calc.js:30 | `parseInt(String(n))` is n for every integer n |
| CalcProperties.AnnotationReadsBack | calc.js:30 | the text between ` (` and `)` of an appended suffix parses back to the duration |
| CalcProperties.SuffixReadsBack | calc.js:26-32 | in the output of `addDurationSuffixes`, the number between ` (` and `)` of an annotated line parses back to that line's duration |
| CalcProperties.NonNegativeSuffixIsRecognised | calc.js:26-49 | a line annotated with a non-negative duration is skipped by the guard of the next pass |
| CalcProperties.OtherSuffixIsNotRecognised | calc.js:26-49 | a line annotated with a negative or NaN duration is not skipped by the guard of the next pass |
| CalcProperties.AnnotateKeepsTimePrefix | calc.js:26-52 | annotating a line of at least four characters leaves the timestamp it is read by unchanged |
| CalcProperties.SecondPassAt | calc.js:10 | where the first pass gave no duration or a non-negative one, a second pass gives none |
| CalcProperties.SecondPassFindsNothing | calc.js:10 | after a pass that computed only non-negative durations, a second pass computes no duration at all |
| CalcProperties.NothingToAdd | calc.js:10 | a log for which no duration is computed passes through the annotator unchanged |
| CalcProperties.AugmentIdempotent | calc.js:10 | annotating an annotated log again leaves it unchanged when no computed duration was negative or NaN |
| CalcProperties.SecondPassRepeatsOtherDurations | calc.js:10 | a negative or NaN duration is computed again by a second pass when the line and the next have at least four characters |
| CalcProperties.MidnightBreaksIdempotence | calc.js:10 | for a `2350` entry followed by a `0010` entry, the first pass appends ` (-1420)` and the second appends it once more |
| CalcProperties.ShortLineNaNIsNotRepeated | calc.js:10 | after `12` and `1000` the first pass appends ` (NaN)` and the second appends nothing, since the prefix `12 (` is not numeric |

## Left out

- Reading and writing the file (`readFile`, calc.js:100-107; `fs.writeFileSync` and the error logging, calc.js:12-16) and the top-level call at calc.js:117 are I/O. The model starts and ends at the sequence of lines.
- Splitting the file on `"\n"` and joining with `"\n"` (calc.js:9 and 13) are left out. The model takes the lines as given, so a `\r` left by CRLF line ends is simply part of a line.
- `groupByDate`, `groupByDateAndAnalyze`, `createReport` and `prepareReportForOutput` are imported by `calc.test.js` but not defined in `calc.js`; they are not part of this model.
- Strings are sequences of Unicode characters. JavaScript `substring` and `length` count UTF-16 code units instead. The four-character prefix differs only when a character outside the Basic Multilingual Plane falls inside it, and then neither reading is numeric.
- `parseInt` results are exact integers. JavaScript rounds above 2^53, but the prefixes `durationPerLine` reads have at most four characters, so no value it computes comes close.
- `String(n)` switches to exponent notation from 1e21. Durations here stay below 10^6 in magnitude, so only the plain numeral is modelled.
- JavaScript's negative zero is not distinguished from 0. `String(-0)` is `"0"`, so this cannot change an annotation.
- Calc.AugmentWithDurations: its own contract states only the length; what the composition does is stated by the contracts of `Calc.DurationPerLine` and `Calc.AddDurationSuffixes` and by the lemmas on two passes.
