# backside parser core, modelled in Dafny

This project models the parsing core of `backside`, a Rust reader for ASS/SSA subtitle
scripts. The model covers:

- **Override codes.** `parse_bool` reads a one-digit flag. `parse_override` decodes a tag
  span such as `\b1` or `\be0`. One step of the block loop of `parse_dialogue` classifies a
  `{` block as a comment or an override and cuts out the override span (`Overrides`).
- **Format declarations.** `parse_format` splits a `Format: a, b, c` line into field names
  (`FormatLine`).
- **Sections.** `parse_sections` walks a document's `[Header]` blocks. For `V4+ Styles`
  and `Events` it emits the declared field names of the body's first line, one per line
  (`Sections`).
- **Styles.** The `Style` record with its defaults, and `parse_style`, which decodes a
  `Style: ` row against the field names of a format declaration (`Styles`, on top of
  `Numbers`, a model of Rust's `str::parse` for `i8`…`i64`).

Shared modules: `Errors` holds the crate's error enum and a `Result` type. `Types` holds
`Section` and `OverrideCode`.

Every panic of the source becomes an `Err`:

- an out-of-range index or slice;
- `r.len() - 1` underflowing;
- a failed `assert_eq!`, `unwrap`, `panic!` or `unimplemented!`.

Each imperative loop of the source is modelled twice. A `method` keeps the loop. A
recursive function follows the loop step by step. The method is proved equal to the
function, and the properties are proved about the function.

Where the prose description of the format disagrees with the code, the model follows the
code. In the code, `parse_style` pairs names and values only as far as the shorter list
goes. It does not fail on missing values, does not merge excess values into the last
field, and has no field-level error kind. `parse_format` drops the last declared field.
`parse_dialogue` hands `parse_override` a span one byte short. The composed parse
(`Sections.ParseSections`) and the dialogue step use the code as written; the corrected
variants under "## Findings" stand beside them.

## Model

| member | source | states |
|---|---|---|
| Overrides.ParseBool | src/parser/lib.rs:10-16 | succeeds exactly on the bytes `0` and `1`, with `1` meaning true; any other byte is an `OCInvalidParams` failure |
| Overrides.BoolDigit | src/parser/lib.rs:10-16 | the digit written for a flag parses back to that flag |
| Overrides.ParseOverride | src/parser/lib.rs:18-42 | only spans of length 3 or 4 can decode; every other length is `OCInvalid` |
| Overrides.ParseOverrideRoundTrip | src/parser/lib.rs:18-42 | decoding the written form of any of the five toggles (`\b`, `\i`, `\u`, `\s`, `\be` plus digit) gives the toggle back |
| Overrides.ParseOverrideOnlyToggles | src/parser/lib.rs:18-42 | conversely, whatever decodes is a toggle, and the span from its second byte on is that toggle's written form |
| Overrides.ParseOverrideIgnoresFirstByte | src/parser/lib.rs:18-42 | the first byte of the span is never consulted: replacing it never changes the result |
| Overrides.SpanEnd | src/parser/lib.rs:52-60 | the inner scan stops at the last index before the first backslash or `}` after the span start, and fails only when no such byte follows |
| Overrides.SpanEndIsFirst | src/parser/lib.rs:52-60 | any index followed by a closer with no closer in between is the scan's result |
| Overrides.BlockAt | src/parser/lib.rs:44-66 | a step is a comment exactly at `{` not followed by a backslash, continuing at `i + 1`, and plain text exactly at a byte other than `{`, leaving `i` where it was; at `{\` it succeeds exactly when the scan finds a closer and `r[o1..o2]` decodes, and then `o2` is the last byte before the first closer and the code is that decoding |
| Overrides.ToggleBlockSpan | src/parser/lib.rs:47-61 | in `pre{span}post` with a written toggle, the scan from the backslash ends on the toggle's last byte |
| Overrides.AsWrittenRejectsToggles | src/parser/lib.rs:52-63 | as written, every well-formed toggle block fails to decode (`OCInvalid`, or `OCInvalidParams` for `\be`) |
| Overrides.BlockAtIntended | src/parser/lib.rs:44-66 | the block step with the span ending on the byte before the closer: text (staying at `i`) and comments (continuing at `i + 1`) as in the source; at `{\` it succeeds exactly when the scan finds a closer and `r[o1..o2 + 1]` decodes, with `o2` the last byte before the first closer |
| Overrides.AsWrittenJunkByteDecodes | src/parser/lib.rs:52-63 | as written, a junk byte before the closer makes the short span decode: `{\b1x}` gives `Bold(true)` |
| Overrides.IntendedDecodesToggles | src/parser/lib.rs:52-63 | with that span, every well-formed toggle block decodes to its toggle |
| Overrides.FindSpanEnd | src/parser/lib.rs:54-60 | the inner loop computes the scan end `SpanEnd` |
| Overrides.DialogueStep | src/parser/lib.rs:46-67 | one pass of the outer loop body computes `BlockAt` |
| FormatLine.PrependTwice | src/parser/lib.rs:87 | proof step (an identity on `Result`): adding two prefixes one after the other is adding both at once; it carries the `ParseFormat` loop invariant across a push |
| FormatLine.Scan | src/parser/lib.rs:79-109 | no field it returns contains a comma |
| FormatLine.FormatFields | src/parser/lib.rs:71-112 | succeeds only on lines longer than 8 bytes that start with `Format`, and its fields are comma-free |
| FormatLine.FormatFieldsIntended | src/parser/lib.rs:71-112 | the same guarantees for the variant that keeps the last field |
| FormatLine.ScanSkips | src/parser/lib.rs:100-103 | moving the scan over non-comma bytes changes nothing |
| FormatLine.JoinedHead | src/parser/lib.rs:71-112 | a joined list of valid names is at least as long as the list and does not start with a space |
| FormatLine.ScanLastName | src/parser/lib.rs:100-108 | scanning the final name reaches the end without pushing it |
| FormatLine.ScanOneName | src/parser/lib.rs:85-98 | a name followed by `,` or `, ` is pushed and the scan resumes right after the separator, even when a further space follows `, ` |
| FormatLine.JoinedCons | src/parser/lib.rs:71-112 | proof step (a sequence identity used by `ScanList`): a prefix and a joined list of several names is the prefix, the first name, the separator and the rest |
| FormatLine.ConsParts | src/parser/lib.rs:71-112 | proof step (a sequence identity used by `ScanList`): a list of several names is its first name before the rest, with or without the last name |
| FormatLine.ScanCons | src/parser/lib.rs:79-109 | the scan of a name, a separator and a list is the name in front of the scan of the list |
| FormatLine.ScanList | src/parser/lib.rs:79-109 | the scan of a joined list follows from the scan of the list without its first name |
| FormatLine.ScanJoined | src/parser/lib.rs:79-109 | scanning a joined list of valid names yields the names in order, all but the last as written |
| FormatLine.FormatAsWrittenDropsLast | src/parser/lib.rs:71-112 | `parse_format` on `Format: n1, …, nk` returns `n1 … n(k-1)`, leaving out the last name |
| FormatLine.FormatIntendedRoundTrip | src/parser/lib.rs:71-112 | with the last field kept, a declaration line gives back exactly its names |
| FormatLine.ScanSameTail | src/parser/lib.rs:79-109 | the scan reads no byte before its start: lines that agree from there on give the same result |
| FormatLine.FormatIgnoresBytes6And7 | src/parser/lib.rs:72-76 | the two bytes after `Format` are never read: replacing them changes nothing |
| FormatLine.SecondSpaceKept | src/parser/lib.rs:91-97 | only one space after a comma is skipped: `Format: a,  b, c` gives `a` and ` b` (with its space) |
| FormatLine.SeparatorsAgree | src/parser/lib.rs:91-97 | `,` and `, ` separated declarations give identical field lists |
| FormatLine.ScanTrailingSeparator | src/parser/lib.rs:79-99 | a name followed by `,` or `, ` at the very end of the line makes the scan read past the end (at line 95 after a bare comma, at line 85 after the skipped space) and fail |
| FormatLine.ScanJoinedTrailing | src/parser/lib.rs:79-109 | a joined list of valid names followed by a separator fails to scan, whatever the separator |
| FormatLine.FormatTrailingSeparator | src/parser/lib.rs:72-109 | `parse_format` fails on a declaration line that ends in a separator |
| FormatLine.EmptyLastFieldAccepted | src/parser/lib.rs:95-108 | the stop on the last byte comes before the out-of-range read, so `Format: a,,` gives `a` instead of failing |
| FormatLine.ParseFormat | src/parser/lib.rs:71-112 | the two nested loops compute `FormatFields` |
| Sections.HeaderEnd | src/parser/lib.rs:134-146 | a found header end holds `]` and lies inside the document; otherwise the failure is `StructureInvalid` |
| Sections.HeaderEndFirst | src/parser/lib.rs:137-144 | the header scan stops at the first `]` and fails only when there is none |
| Sections.BodyEnd | src/parser/lib.rs:150-166 | the body ends at a blank line with the scan resuming at its second newline, or ends one byte before the end of the document once fewer than three bytes remain |
| Sections.BodyEndFirst | src/parser/lib.rs:153-164 | no blank line starts before where the body scan stops |
| Sections.BodyEndAt | src/parser/lib.rs:153-164 | from a position with no blank line before the one at `k`, the scan stops at `k`, or one byte early when that blank line ends the document |
| Sections.BodyScan | src/parser/lib.rs:150-166 | a body with no blank line and no final newline, followed by a blank line, is scanned exactly to that blank line |
| Sections.HeaderSection | src/parser/lib.rs:168-202 | the arms of `match h`: each of `Script Info`, `V4+ Styles`, `Fonts`, `Events` is selected by exactly its own header |
| Sections.LinesAppend | src/parser/lib.rs:180-183 | the push loop: emitting two lists of fields in turn is emitting their concatenation, each field followed by a newline |
| Sections.SectionsFromNoBracket | src/parser/lib.rs:127-206 | `SectionsFrom`, the outer loop: text with no `[` before its last byte contributes nothing |
| Sections.ParseNoSections | src/parser/lib.rs:114-209 | `Parse`, what `parse_sections` returns: a non-empty document without a section header yields empty text (its other cases: `DocumentOutput`, and `ParseSections` for the empty document) |
| Sections.LineEnd | src/parser/lib.rs:171-179 | the first-line scan finds the first newline and fails only when there is none |
| Sections.DeclaredFields | src/parser/lib.rs:170-184 | on success there is a first newline, and the output is the `parse_format` fields of the text before it, each followed by a newline |
| Sections.SectionOutput | src/parser/lib.rs:168-202 | only `V4+ Styles` and `Events` contribute, and they contribute their declared fields; every other header contributes nothing |
| Sections.SectionOutputTrailingNewline | src/parser/lib.rs:168-202 | a body that already has a newline contributes the same with a newline appended |
| Sections.RenderAt | src/parser/lib.rs:131-166 | where the bracket, header, body and closing blank line of a written section lie in the document |
| Sections.HeaderOfRendered | src/parser/lib.rs:134-146 | the header scan of a written section stops at its `]` and returns its header |
| Sections.BodyOfRendered | src/parser/lib.rs:150-166 | the body scan of a written section stops at its closing blank line, or one byte early when it is the last section |
| Sections.Landmarks | src/parser/lib.rs:131-166 | a written section has its `[`, its body and its two closing newlines at the expected positions |
| Sections.SectionsFromBracket | src/parser/lib.rs:131-202 | at a `[` whose scans succeed, the outer loop emits the section's output, then continues where the body scan stopped |
| Sections.SectionsFromSkip | src/parser/lib.rs:203-205 | a byte other than `[` is passed over |
| Sections.SectionsFromEnd | src/parser/lib.rs:128-130 | the loop stops at the last byte |
| Sections.SectionAt | src/parser/lib.rs:127-206 | one section at `off`: its output, then the rest of the document after its blank line, or the end |
| Sections.OneSection | src/parser/lib.rs:127-206 | the same in terms of the section's header and body; only the last body keeps its final newline |
| Sections.RenderedSection | src/parser/lib.rs:131-166 | the scans of a written section find its header and body |
| Sections.SectionsFromDocument | src/parser/lib.rs:127-206 | over a document of written sections, the loop emits each section's output in document order |
| Sections.ScannedOutputs | src/parser/lib.rs:168-202 | the final newline the last body keeps changes none of the outputs |
| Sections.DocumentOutput | src/parser/lib.rs:114-209 | `parse_sections` on a document of well-formed sections returns the concatenated outputs of the sections, in order |
| Sections.DeclaredSectionOutput | src/parser/lib.rs:170-200 | a `V4+ Styles` or `Events` body that starts with a `Format:` line contributes every declared name but the last, one per line |
| Sections.NoNewlineInJoined | src/parser/lib.rs:71-112 | names without newlines stay without newlines once joined |
| Sections.FindHeaderEnd | src/parser/lib.rs:134-146 | the header loop computes `HeaderEnd` |
| Sections.FindBodyEnd | src/parser/lib.rs:150-166 | the body loop computes `BodyEnd` |
| Sections.AppendDeclaredFields | src/parser/lib.rs:170-199 | the `V4+ Styles` / `Events` arm appends the declared fields to the text so far, or fails as the arm does |
| Sections.AppendSection | src/parser/lib.rs:168-202 | the `match h` appends exactly the section's output |
| Sections.PrependConcat | src/parser/lib.rs:180-183 | proof step (an identity on `Result`): appending one section's output to the text so far, or ending with its failure |
| Sections.ParseSectionsStep | src/parser/lib.rs:131-202 | one iteration at `[` keeps the loop's result: the text so far grows by the section's output |
| Sections.ParseSections | src/parser/lib.rs:114-209 | the loop computes `Parse`, and an empty document fails |
| Numbers.ParseSigned | src/style.rs:192-203 | a parsed integer is within the type's range, and the text is an optional sign followed by digits; with the lemmas below every sign-and-digits text has a stated value |
| Numbers.ShowNat | src/style.rs:192-203 | a number's decimal text is all digits |
| Numbers.ShowNatValue | src/style.rs:192-203 | reading back a number's digits gives the number |
| Numbers.ParseShowRoundTrip | src/style.rs:192-203 | every value of `i8`, `i16`, `i32`, `i64` parses back from its decimal text |
| Numbers.ParseShowOutOfRange | src/style.rs:200-202 | every value outside the type's range fails to parse from its decimal text |
| Numbers.DigitsValueLeadingZero | src/style.rs:200-202 | a leading zero changes no digit string's value |
| Numbers.LeadingZero | src/style.rs:200-202 | leading zeros are accepted and change nothing: `007` reads as 7 |
| Numbers.NegLeadingZero | src/style.rs:200-202 | leading zeros after a `-` change nothing: `-007` reads as -7 |
| Numbers.NegZero | src/style.rs:200-202 | `-0` reads as 0, as Rust's `parse` does |
| Numbers.PlusSignAccepted | src/style.rs:192-203 | a leading `+` is accepted and changes nothing |
| Styles.ParseTriState | src/style.rs:193-199 | `-1` reads as true and `0` as false, both directions; anything else fails |
| Styles.ParseInt | src/style.rs:200-202 | succeeds exactly when the text parses as the integer type, with that value in range; failure is `StructureInvalid` |
| Styles.FieldOf | src/style.rs:205-223 | only names of fields with an arm are recognised; the colours and MarginV never are |
| Styles.DefaultFields | src/style.rs:4-5 | `Style::default()`: every field is empty text, 0 or false, as its type has it |
| Styles.KindOf | src/style.rs:206-222 | which `parse!` form each arm uses: text kept as it is for Name, Fontname and the three float fields; `parse!()` for the four flags; `i8`, `i16` or `i32` for the rest, as each field is declared |
| Styles.Coerce | src/style.rs:192-222 | a coerced value has its field's type and failure is `StructureInvalid`; a verbatim field (`Name`, `Fontname`) stores `v` itself; a tri-state field succeeds exactly when `ParseTriState(v)` does and holds its flag; an integer field succeeds exactly when `ParseInt(v, w)` does and holds its value |
| Styles.Get | src/style.rs:5-170 | every field of a style holds a value of its declared type |
| Styles.FieldsByName | src/style.rs:205-223 | each field with an arm is selected by its own name and no other; the colours and MarginV by none |
| Styles.PutGet1 | src/style.rs:5-170 | the put/get law for the first six fields |
| Styles.PutGet2 | src/style.rs:5-170 | the put/get law for the next six fields |
| Styles.PutGet3 | src/style.rs:5-170 | the put/get law for the next five fields |
| Styles.PutGet4 | src/style.rs:5-170 | the put/get law for the last five fields |
| Styles.PutGet | src/style.rs:5-170 | storing a value in one field is read back from that field and leaves every other field unchanged |
| Styles.AssignField | src/style.rs:205-223 | the `match k`: it fails only for a name with an arm, with `StructureInvalid` (its full contract: `AssignFieldSpec`) |
| Styles.AssignFieldSpec | src/style.rs:205-223 | an unknown name changes nothing; a known one fails exactly when coercing the value fails, otherwise it sets that field only |
| Styles.IndexOf | src/style.rs:182 | the first position of a character |
| Styles.IndexOfFirst | src/style.rs:182 | a position with no earlier occurrence is the first position |
| Styles.Split | src/style.rs:182 | `split(",")` gives at least one piece, the pieces are comma-free, and joining them with commas gives the text back |
| Styles.SplitJoined | src/style.rs:182 | splitting undoes joining comma-free pieces with commas |
| Styles.Applied | src/style.rs:187-225 | the `for` loop from the default style: any failure is `StructureInvalid` (its full contract: `AppliedFails` and `LastWins`) |
| Styles.AppliedKeepsFailure | src/style.rs:188-225 | once an assignment fails, the loop's result is that failure |
| Styles.LastIndex | src/style.rs:188-225 | the last pair that names a field, or none |
| Styles.AppliedFails | src/style.rs:188-225 | the loop fails exactly when some pair names a field whose value does not coerce; the failure is `StructureInvalid` |
| Styles.LastWins | src/style.rs:187-225 | on success each field holds the coerced value of the last pair naming it, or its default |
| Styles.NeverAssigned | src/style.rs:187-225 | the four colours and MarginV always keep their default 0 |
| Styles.StyleOf | src/style.rs:172-228 | a row is no style exactly when it lacks the `Style: ` prefix |
| Styles.ParseStyle | src/style.rs:172-228 | the loop computes `StyleOf` |
| Styles.StyleRow | src/style.rs:172-228 | a `Style: ` row of comma-free values decodes to the fold of those values under the format's names |
| Styles.SpacesAreKept | src/style.rs:182-208 | values are not trimmed: `Fontsize` ` 20` fails while `20` sets the size |

## Left out

- UTF-8: bytes are characters, so `from_utf8(..).unwrap()` never fails and multi-byte text is not modelled.
- `parse_dialogue`'s outer loop: it never advances at plain text and never returns, so only one pass of its body is modelled (`Overrides.DialogueStep`).
- The override codes with payloads (`FontName`, `FontSize`, `Scale`, …) exist as values only, because `parse_override` produces none of them.
- `Styles.Coerce`: `Angle`, `Outline` and `Shadow` are `f32` in the source; their text is kept as it is and never fails, because float parsing is not modelled.
- `Styles.StyleOf`: the source reads an undeclared `l` and `format`; the model reads the row `r` and takes the format's names as a parameter.
- The failure kinds: every panic is an `Err`, but the kind chosen for it (`StructureInvalid`, `OCInvalid`, `OCInvalidParams`) is this model's choice; the source only panics.
- `Display` strings of the errors, `uuenc.rs`, the `Script` type, `src/lib.rs` and `src/parser/styles.rs` are not part of this model.
- `Sections.DocumentOutput` covers documents of well-formed sections only: a header without `]`, a body with a blank line or without a newline, text before or between sections, or a last section not followed by a blank line (a document that ends in a single newline) are handled by `Sections.Parse` but not described by a round trip (`Sections.ParseNoSections` covers only a document with no header at all).

## Findings

| source | as written | input that shows it | evidently intended | confidence | as-written member | corrected member |
|---|---|---|---|---|---|---|
| src/parser/lib.rs:52-61 | the override span is `r[o1..o2]`, where `o2` is the last byte before the closer, so the span loses its last byte | `{\b1}`: `parse_override` receives `\b` and fails | the span `r[o1..o2 + 1]`, so `{\b1}` decodes to `Bold(true)` | not executed | Overrides.AsWrittenRejectsToggles | Overrides.IntendedDecodesToggles |
| src/parser/lib.rs:100-108 | the scan stops at the last byte without pushing the field in progress | `Format: Name, Text` gives `[Name]` | every declared field, `[Name, Text]` | not executed | FormatLine.FormatAsWrittenDropsLast | FormatLine.FormatIntendedRoundTrip |
