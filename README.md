# Money formatter builder and literal printer/parser, in Dafny

This project models the text-formatting core of Joda-Money:

* **The formatter builder** (`MoneyFormatterBuilder`): an ordered list of printer
  elements that grows in place as `append*` calls arrive, and `toFormatter`, which
  copies the list into a fresh array bound to a locale and leaves the builder usable.
* **The six printer elements** — Amount, Code, Numeric3Code, NumericCode,
  LocalizedSymbol and Literal — as one closed datatype `Printer` with a single
  `Print` function giving the text each element appends.
* **The amount printer's loop**, as an imperative method `PrintAmount` over the plain
  decimal string. It walks the integer part with a counter `pre` of characters still to
  print and inserts the grouping character after a character exactly when
  `pre > 3 && pre % groupingSize == 1`, then appends the decimal point and fraction, a
  forced bare point, or nothing. The method is proved equal to the specification
  function `AmountText`, about which the grouping properties are proved.
* **The literal printer/parser** (`LiteralPrinterParser`): `Print` appends the
  literal to an output buffer; `Parse` is one step of the left-to-right parse protocol
  over a `MoneyParseContext` (text, cursor, error position): it moves the cursor past
  an exact match, or records an error at the cursor and leaves the cursor in place.

The amount printer is modelled as the code is written, not as grouping from the right
would place separators. The threshold is the literal `3`, not the grouping size. A leading `'-'`
counts as an integer character, so `"-123"` prints as `"-,123"`. A grouping size of 1
never groups, because `pre % 1` is never 1. A grouping size of 2 leaves out the separator
before the last two characters (`pre == 3`), so `"123"` stays `"123"`. For grouping sizes
of 3 and more, the left-to-right test is proved to give exactly the grouping of the
integer characters, sign included, from the right (`GroupedMatchesGroupingFromRight`).

Files:

| file | module | contents |
|---|---|---|
| `wrappers.dfy` | `Wrappers` | `Option`, standing in for nullable references |
| `numerals.dfy` | `Numerals` | `Integer.toString` for the numeric code, its inverse, the round trip |
| `currency.dfy` | `Currencies` | locale, currency record, money value, shape of a plain decimal string |
| `amount_style.dfy` | `AmountStyles` | amount style, locale symbols, per-call localization |
| `amount_printer.dfy` | `AmountPrinting` | `AmountText`, the `PrintAmount` loop, grouping lemmas |
| `amount_examples.dfy` | `AmountExamples` | worked renderings, including the quirks above |
| `printers.dfy` | `Printers` | the `Printer` datatype and `Print` |
| `output.dfy` | `Output` | the output buffer (`Appendable`) |
| `formatter_builder.dfy` | `FormatterBuilder` | the builder class and the built formatter |
| `parse_context.dfy` | `ParseContexts` | the parse context class |
| `literal_printer_parser.dfy` | `LiteralPrinting` | the literal printer/parser class and its lemmas |

Inputs that the code obtains from collaborators are passed in as values:

* The plain decimal string of the amount (`BigDecimal.toPlainString`) is a field of
  `Money`. Lemmas that depend on its shape (optional `-`, digits, optional `.` and
  digits) require `IsPlainDecimal`.
* A currency is a record of its code, numeric code, three-digit numeric string and
  symbol per locale.
* Style localization (`MoneyAmountStyle.localize`) is the function `Localize`. It keeps
  the parts a style sets and takes unset parts from the locale's `DecimalSymbols`. In the
  model it runs inside each print call and its result is never stored back on the element
  (see "## Left out").

## Model

| member | source | states |
|---|---|---|
| `Numerals.NatToString` | src/main/java/org/joda/money/format/MoneyFormatterBuilder.java:386 | the decimal digits of a non-negative code, with no leading zero except for the single digit `0` |
| `Numerals.IntToString` | src/main/java/org/joda/money/format/MoneyFormatterBuilder.java:386 | `Integer.toString`: digits without leading zeros for non-negative codes; for negative codes a `-` followed by digits starting with a non-zero digit |
| `Numerals.IntToStringRoundTrip` | src/main/java/org/joda/money/format/MoneyFormatterBuilder.java:386 | reading back the decimal text of the numeric code gives the code, for negative codes too |
| `Numerals.IntToStringInjective` | src/main/java/org/joda/money/format/MoneyFormatterBuilder.java:386 | distinct numeric codes never print as the same text |
| `Numerals.NatToStringRoundTrip` | src/main/java/org/joda/money/format/MoneyFormatterBuilder.java:386 | the digits of a non-negative code have exactly that value |
| `Currencies.IsPlainDecimal` | src/main/java/org/joda/money/format/MoneyFormatterBuilder.java:299 | the shape of the plain decimal string: an optional `-`, then digits, optionally followed by a `.` with digits on both sides |
| `Currencies.ForeignCharNotInPlainDecimal` | src/main/java/org/joda/money/format/MoneyFormatterBuilder.java:299 | a character that is not a digit, `-` or `.` does not occur in a plain decimal string |
| `AmountStyles.Localize` | src/main/java/org/joda/money/format/MoneyFormatterBuilder.java:298 | the style the amount printer reads for one call: each part the style sets, otherwise the locale's, with both flags kept |
| `AmountStyles.Settled` | src/main/java/org/joda/money/format/MoneyFormatterBuilder.java:298 | the style the printer stores back in its own style field after localizing: every part set to the resolved value, both flags kept |
| `AmountStyles.LocalizeSettled` | src/main/java/org/joda/money/format/MoneyFormatterBuilder.java:298 | a style with every part set, as the printer stores back after localizing, localizes to itself under any locale |
| `AmountStyles.WrittenBackStyleKeepsFirstLocale` | src/main/java/org/joda/money/format/MoneyFormatterBuilder.java:298 | after the write-back, localizing under any later locale gives the first locale's style again |
| `AmountStyles.WrittenBackStyleIgnoresLaterPoint` | src/main/java/org/joda/money/format/MoneyFormatterBuilder.java:298 | a style that leaves the decimal point to the locale prints the later locale's point when localized afresh, but the first locale's after the write-back |
| `AmountPrinting.SeparatorFollows` | src/main/java/org/joda/money/format/MoneyFormatterBuilder.java:308 | the grouping test as written: a separator follows a character when `pre`, the integer characters remaining from it, is above the literal 3 and leaves remainder 1 modulo the grouping size |
| `AmountPrinting.Grouped` | src/main/java/org/joda/money/format/MoneyFormatterBuilder.java:306-311 | the grouped integer part: each character, then the separator exactly when `pre > 3 && pre % groupingSize == 1` for the characters remaining from it |
| `AmountPrinting.PointAndFraction` | src/main/java/org/joda/money/format/MoneyFormatterBuilder.java:312-316 | what follows the grouped integer part: the decimal point and the fraction after the first `.`, a bare point when forced, or nothing |
| `AmountPrinting.AmountText` | src/main/java/org/joda/money/format/MoneyFormatterBuilder.java:297-336 | the text the amount printer appends under a resolved style, following the code's grouped and ungrouped branches; the lemmas below state its properties |
| `AmountPrinting.IndexOf` | src/main/java/org/joda/money/format/MoneyFormatterBuilder.java:300 | -1 exactly when the character is absent, otherwise the position of its first occurrence |
| `AmountPrinting.IntegerEnd` | src/main/java/org/joda/money/format/MoneyFormatterBuilder.java:304 | the integer part ends at the first `.`, or at the end when there is none |
| `AmountPrinting.PrintAmount` | src/main/java/org/joda/money/format/MoneyFormatterBuilder.java:297-336 | the loop over `i` and `pre`, with the style localized per call, appends exactly `AmountText` of the localized style |
| `AmountPrinting.AppendGroupedInteger` | src/main/java/org/joda/money/format/MoneyFormatterBuilder.java:304-311 | the loop over the integer part appends exactly the grouped integer part: each character, followed by the separator exactly when `pre > 3 && pre % groupingSize == 1` |
| `AmountPrinting.AmountTextShape` | src/main/java/org/joda/money/format/MoneyFormatterBuilder.java:301-334 | the output is the integer part, grouped or copied, followed by the point and fraction, a forced bare point, or nothing |
| `AmountPrinting.GroupedStep` | src/main/java/org/joda/money/format/MoneyFormatterBuilder.java:306-311 | one loop turn appends the next character, then a separator exactly when the test holds for the `pre` of that character |
| `AmountPrinting.GroupedAppend` | src/main/java/org/joda/money/format/MoneyFormatterBuilder.java:306-311 | grouping a concatenation groups the front part as if the back part were still to come |
| `AmountPrinting.GroupedEndsWithLastCharacter` | src/main/java/org/joda/money/format/MoneyFormatterBuilder.java:306-311 | no separator ever follows the last integer character |
| `AmountPrinting.StripGrouped` | src/main/java/org/joda/money/format/MoneyFormatterBuilder.java:304-311 | when the grouping character is not in the integer part, deleting it from the grouped output gives the integer part back |
| `AmountPrinting.GroupedWithoutSeparators` | src/main/java/org/joda/money/format/MoneyFormatterBuilder.java:308 | when the test never fires, the integer part is copied unchanged |
| `AmountPrinting.GroupedBeforeFullGroup` | src/main/java/org/joda/money/format/MoneyFormatterBuilder.java:308 | for sizes of 3 and more, one more full group after a run adds exactly one separator after it |
| `AmountPrinting.GroupedMatchesGroupingFromRight` | src/main/java/org/joda/money/format/MoneyFormatterBuilder.java:306-311 | for sizes of 3 and more, the printer's grouping equals grouping from the right every `size` characters |
| `AmountPrinting.NoSeparatorWithinOneGroup` | src/main/java/org/joda/money/format/MoneyFormatterBuilder.java:308 | for sizes of 3 and more, the test never fires with at most one group of characters remaining |
| `AmountPrinting.UngroupedAmount` | src/main/java/org/joda/money/format/MoneyFormatterBuilder.java:324-334 | without grouping the output is the plain string with its `.` replaced by the decimal point; with no `.` a point is appended exactly when forced |
| `AmountPrinting.GroupingOnlyTouchesIntegerPart` | src/main/java/org/joda/money/format/MoneyFormatterBuilder.java:312-316 | with grouping, the grouped integer part is followed by exactly what the ungrouped printer emits after the integer part: point and unchanged fraction, a forced bare point, or nothing |
| `AmountPrinting.StripGroupedAmount` | src/main/java/org/joda/money/format/MoneyFormatterBuilder.java:301-316 | deleting a grouping character foreign to the plain string and distinct from the decimal point turns the grouped output into the ungrouped one |
| `AmountPrinting.StripGroupedPlainDecimal` | src/main/java/org/joda/money/format/MoneyFormatterBuilder.java:299-316 | the same, for a well-formed plain decimal and a grouping character other than a digit, `-`, `.` or the decimal point |
| `AmountExamples.ShortIntegerPartNeverGrouped` | src/main/java/org/joda/money/format/MoneyFormatterBuilder.java:308 | an integer part of at most 3 characters is never grouped, whatever the grouping size |
| `AmountExamples.FourCharactersBy3` | src/main/java/org/joda/money/format/MoneyFormatterBuilder.java:306-311 | four integer characters grouped by 3 get one separator, after the first |
| `AmountExamples.SevenCharactersBy3` | src/main/java/org/joda/money/format/MoneyFormatterBuilder.java:306-311 | seven integer characters grouped by 3 get separators after the first and the fourth |
| `AmountExamples.FiveCharactersBy2` | src/main/java/org/joda/money/format/MoneyFormatterBuilder.java:308 | five integer characters grouped by 2 get one separator, after the first, and none after the third |
| `AmountExamples.Grouping1234567By3` | src/main/java/org/joda/money/format/MoneyFormatterBuilder.java:306-311 | `"1234567"` with size 3 prints as `"1,234,567"` |
| `AmountExamples.Grouping123By3` | src/main/java/org/joda/money/format/MoneyFormatterBuilder.java:308 | `"123"` prints as `"123"` |
| `AmountExamples.GroupingWithFraction` | src/main/java/org/joda/money/format/MoneyFormatterBuilder.java:306-313 | `"1234567.89"` prints as `"1,234,567.89"` |
| `AmountExamples.ForcedDecimalPoint` | src/main/java/org/joda/money/format/MoneyFormatterBuilder.java:314-316 | with a forced point, `"1234"` prints as `"1,234."` |
| `AmountExamples.SignCountsAsIntegerCharacter` | src/main/java/org/joda/money/format/MoneyFormatterBuilder.java:304-311 | the sign counts in `pre`: `"-123"` prints as `"-,123"` |
| `AmountExamples.GroupingSize2SkipsFirstBoundary` | src/main/java/org/joda/money/format/MoneyFormatterBuilder.java:308 | with size 2, `"123"` prints as `"123"` where grouping from the right would give `"1,23"` |
| `AmountExamples.GroupingSize2OnFiveCharacters` | src/main/java/org/joda/money/format/MoneyFormatterBuilder.java:308 | with size 2, `"12345"` prints as `"1,2345"` |
| `AmountExamples.GroupingSize1NeverGroups` | src/main/java/org/joda/money/format/MoneyFormatterBuilder.java:308 | with size 1, no separator is ever inserted |
| `Printers.Print` | src/main/java/org/joda/money/format/MoneyFormatterBuilder.java:297-428 | each element appends one thing: the amount text under the per-call localized style, the code, the three-digit numeric string, the decimal numeric code (reading back to the code, without leading zeros), the locale's symbol, or the literal |
| `Printers.PrintUngroupedAmount` | src/main/java/org/joda/money/format/MoneyFormatterBuilder.java:324-334 | the amount element without grouping replaces the `.` by the decimal point and keeps every other character; with no `.` it appends a point only when forced |
| `Printers.PrintGroupedAmountStrips` | src/main/java/org/joda/money/format/MoneyFormatterBuilder.java:301-334 | the amount element with grouping differs from the one without only by inserted grouping characters |
| `FormatterBuilder.MoneyFormatter.constructor` | src/main/java/org/joda/money/format/MoneyFormatterBuilder.java:195 | the formatter holds the given locale and printer array |
| `FormatterBuilder.MoneyFormatterBuilder.constructor` | src/main/java/org/joda/money/format/MoneyFormatterBuilder.java:36-43 | a new builder has no printers |
| `FormatterBuilder.MoneyFormatterBuilder.AppendInternal` | src/main/java/org/joda/money/format/MoneyFormatterBuilder.java:155-160 | a present printer is added at the end, earlier entries unchanged in order; an absent one leaves the list as it was |
| `FormatterBuilder.MoneyFormatterBuilder.AppendAmount` | src/main/java/org/joda/money/format/MoneyFormatterBuilder.java:53-55 | adds one amount element with the localized grouping style |
| `FormatterBuilder.MoneyFormatterBuilder.AppendAmountInStyle` | src/main/java/org/joda/money/format/MoneyFormatterBuilder.java:68-71 | adds one amount element with the given style |
| `FormatterBuilder.MoneyFormatterBuilder.AppendCurrencyCode` | src/main/java/org/joda/money/format/MoneyFormatterBuilder.java:81-83 | adds one code element |
| `FormatterBuilder.MoneyFormatterBuilder.AppendCurrencyNumeric3Code` | src/main/java/org/joda/money/format/MoneyFormatterBuilder.java:93-95 | adds one three-digit numeric code element |
| `FormatterBuilder.MoneyFormatterBuilder.AppendCurrencyNumericCode` | src/main/java/org/joda/money/format/MoneyFormatterBuilder.java:104-106 | adds one numeric code element |
| `FormatterBuilder.MoneyFormatterBuilder.AppendCurrencySymbolLocalized` | src/main/java/org/joda/money/format/MoneyFormatterBuilder.java:116-118 | adds one localized symbol element |
| `FormatterBuilder.MoneyFormatterBuilder.AppendLiteral` | src/main/java/org/joda/money/format/MoneyFormatterBuilder.java:129-134 | an absent or empty literal changes nothing; otherwise exactly one literal element with that text is added |
| `FormatterBuilder.MoneyFormatterBuilder.Append` | src/main/java/org/joda/money/format/MoneyFormatterBuilder.java:143-146 | adds the given printer at the end |
| `FormatterBuilder.MoneyFormatterBuilder.ToFormatter` | src/main/java/org/joda/money/format/MoneyFormatterBuilder.java:192-196 | a fresh formatter over a fresh array equal in length and order to the list; the builder is unchanged |
| `FormatterBuilder.BuildThenAppend` | src/main/java/org/joda/money/format/MoneyFormatterBuilder.java:166-196 | appending after `toFormatter` grows the builder but leaves the built formatter's printers as they were |
| `FormatterBuilder.AppendLiteralPrintsIt` | src/main/java/org/joda/money/format/MoneyFormatterBuilder.java:129-134 | a non-empty literal adds one element at the end, earlier ones unchanged, and that element prints exactly the literal |
| `ParseContexts.MoneyParseContext.constructor` | src/main/java/org/joda/money/format/LiteralPrinterParser.java:50-51 | a fresh context holds the text and start index and no error |
| `ParseContexts.MoneyParseContext.TextLength` | src/main/java/org/joda/money/format/LiteralPrinterParser.java:52 | the length of the text being parsed |
| `ParseContexts.MoneyParseContext.TextSubstring` | src/main/java/org/joda/money/format/LiteralPrinterParser.java:53 | the substring between two in-range positions has their distance as length |
| `ParseContexts.MoneyParseContext.SetIndex` | src/main/java/org/joda/money/format/LiteralPrinterParser.java:54 | moves the cursor, touching nothing else |
| `ParseContexts.MoneyParseContext.SetError` | src/main/java/org/joda/money/format/LiteralPrinterParser.java:56 | records the error at the cursor, touching nothing else |
| `LiteralPrinting.LiteralPrinterParser.constructor` | src/main/java/org/joda/money/format/LiteralPrinterParser.java:34-42 | the element holds the literal, which never changes afterwards |
| `LiteralPrinting.LiteralPrinterParser.Print` | src/main/java/org/joda/money/format/LiteralPrinterParser.java:45-47 | appends exactly the literal and nothing else |
| `LiteralPrinting.LiteralPrinterParser.Parse` | src/main/java/org/joda/money/format/LiteralPrinterParser.java:50-58 | on an exact match at the cursor, the cursor moves by the literal's length and the error is untouched; otherwise the error is recorded at the cursor and the cursor stays; only the context changes |
| `LiteralPrinting.LiteralAt` | src/main/java/org/joda/money/format/LiteralPrinterParser.java:51-53 | the match test: the literal ends within the text and the text from the cursor to that end equals the literal |
| `Output.Appendable.Append` | src/main/java/org/joda/money/format/LiteralPrinterParser.java:46 | the buffer grows by exactly the appended text |
| `LiteralPrinting.LiteralAtIsPrefix` | src/main/java/org/joda/money/format/LiteralPrinterParser.java:51-53 | the match test holds exactly when the cursor is within the text and the literal is a prefix of the text from the cursor |
| `LiteralPrinting.LiteralAfterPrefix` | src/main/java/org/joda/money/format/LiteralPrinterParser.java:45-54 | a literal placed after any prefix and before any suffix matches at the end of the prefix |
| `LiteralPrinting.LiteralAtSplits` | src/main/java/org/joda/money/format/LiteralPrinterParser.java:51-54 | a match splits the text into the part before the cursor, the literal, and the rest |
| `LiteralPrinting.EmptyLiteralAt` | src/main/java/org/joda/money/format/LiteralPrinterParser.java:51-54 | the empty literal matches exactly when the cursor is within the text |
| `LiteralPrinting.PrintThenParse` | src/main/java/org/joda/money/format/LiteralPrinterParser.java:45-54 | printing a literal after a prefix and parsing from the prefix's end succeeds with the cursor just past the literal and no error |
| `LiteralPrinting.ParseMismatch` | src/main/java/org/joda/money/format/LiteralPrinterParser.java:55-57 | where the literal does not occur, parsing leaves the cursor at the start and records the error there |

## Left out

- The formatter's own print and parse passes over its array, and the rest of `MoneyFormatter`: MoneyFormatter.java is not part of this model. The built formatter holds only its locale and printers.
- `MoneyParseContext`: MoneyParseContext.java is not part of this model. Its text, cursor and error position are modelled, with `setError` recording the current cursor as the error position. Its locale and parsed currency and amount are left out.
- `toFormatter()` without a locale (:175-177): it reads the JVM default locale. Only the explicit-locale form is modelled.
- The write of the localized style back to the element's own `iStyle` field (:298) is not reproduced: `Printers.Print` localizes the element's original style afresh on every call. The code instead keeps the first localization for good. `toFormatter` copies references (:194), so every formatter built from one builder shares the same amount element, and after one print under locale A a later print under locale B, from that formatter or another, still uses A's decimal point, grouping character and size for every part the style left to the locale. The model prints B's. `AmountStyles.WrittenBackStyleKeepsFirstLocale` and `AmountStyles.WrittenBackStyleIgnoresLaterPoint` state what the write-back does. Concurrent prints racing on that field are not modelled either.
- `BigDecimal.toPlainString`, `MoneyAmountStyle` and the `CurrencyUnit` lookups are not part of this model. The plain string, the style's parts and the currency's fields are inputs. `Localize` assumes that localization fills exactly the unset parts. Grouping sizes are taken to be positive (`GroupingSize`), so the division by zero that a zero size would raise is not modelled.
- `Printers.Print`: the three-digit numeric string is the currency's `numeric3Code` field as given. Its zero padding belongs to `CurrencyUnit`, which is not part of this model.
- The style's zero character is carried but never printed, as in the amount printer.
- `FormatterBuilder.MoneyFormatterBuilder.Append`: only the six built-in elements can be appended. Printers written by users of the library are outside the closed `Printer` type.
- Null arguments rejected by `checkNotNull` (a style, a printer, a locale): the model's types have no null. Only `appendLiteral` and `appendInternal`, which accept null, take an `Option`.
- Returning `this` for call chaining is omitted.
- `IOException` from `Appendable`: output is appended to a string and cannot fail.
- `LiteralPrinting.LiteralPrinterParser.Parse`: the cursor is a `nat` and `index + length` is unbounded, so 32-bit overflow of `endPos` is not modelled.
- The commented-out pattern methods (:198-280) and fraction grouping (:317-323) are dead code. The `toString` methods only serve debugging.
- `MoneyPrinter.java` is an interface with no logic; `Printers.Print` stands in for it. `BigMoneyProvider.java` and `CurrencyMismatchException.java` are not part of this model.
