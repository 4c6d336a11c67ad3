# WSV line tokenizer and document parser, in Dafny

This project models the parser of Whitespace-Separated Values (WSV) text in
two Go packages:

- `wsv` (wsv.go);
- `wsvgolang` (wsvgolang.go), a near-copy of it that behaves differently.

A WSV document is a sequence of lines separated by linefeed (0x0A). A line
holds fields separated by Unicode whitespace and may end in a `#` comment.

- A bare field is taken verbatim, except that a lone `-` is the empty value.
- A quoted field is delimited by `"`. Inside it, `""` stands for a `"` and
  `"/` stands for a linefeed.

The input is a sequence of codepoints (`seq<int>`). Both packages keep the
same grammar but return different results:

- `wsv` fails a line, and with it the document, at the first malformed
  field;
- `wsvgolang` drops every error. A failing field becomes `""` and the parse
  goes on.
- `wsvgolang` also tests `iterator.next()` the other way round after a `"`
  inside a quoted value, so any `"` ends the value at once.

Go's index-out-of-range run-time panic is part of the result type. Every
parse returns an `Outcome`: `Ok(value)`, `Err(error)` or `Panic`. The source
reads one codepoint past the end of the line in two places:

- in `wsv`, when `"/` ends the line (wsv.go:175);
- in `wsvgolang`, when a closing `"` is the last codepoint of the line
  (wsvgolang.go:168).

Both reads are modelled as `Panic`.

Modules:

- `WsvSyntax`: the constants, the whitespace set, the outcome type, the
  bare-value scan, which both packages share word for word, and the
  whitespace scan, which they write differently but which behaves the same.
- `LineSplit`: `strings.Split(content, "\n")` on codepoints, and its inverse.
- `Wsv` and `WsvGolang`: one module per package. Each has the iterator as a
  class with a mutable `index`, and the loops as methods. Each method is
  proved equal to a specification function: `SkipWs`, `BareValue`,
  `QuotedRest`, `LineFrom`, `ParseLines` or `Document`.
- `WsvGrammar`: the WSV line grammar as data. `LineText` spells a line out
  and `Values` gives the meaning of its fields.
- `WsvProperties` and `WsvGolangProperties`: what each package returns for
  well-formed and for malformed lines and documents.
- `Editions`: where the two packages agree and where they part ways.
- `Samples`: the documents written out in the packages' tests: `"a b c" LF "1 2 3"` of both
  packages' TestOne, and the jagged `"a b c" LF "1 2 3 4" LF "5 6 7"` of
  package wsv's TestTwo.

## Model

| member | source | states |
|---|---|---|
| `WsvSyntax.WhitespaceIsListed` | wsv.go:44-56 | the reference whitespace test holds exactly for the 24 listed WSV whitespace codepoints, 0x0D included and 0x0A not |
| `WsvSyntax.SyntaxIsNotWhitespace` | wsv.go:8-11 | linefeed, `"`, `#`, `-` and `/` are not whitespace |
| `WsvSyntax.Collapse` | wsv.go:132-135 | a bare value becomes empty exactly when it is empty or `-`; anything but `-` is kept as it is |
| `WsvSyntax.SkipWs` | wsv.go:192-217 | the end of a whitespace run: every codepoint skipped is whitespace, and the one it stops at is not, or it is the end |
| `WsvSyntax.BareEnd` | wsv.go:144-156 | a bare value stops at the first whitespace, `#` or `"` after its first codepoint, or at the end; nothing in between stops it |
| `WsvSyntax.BareValue` | wsv.go:144-160 | a bare scan succeeds exactly when it does not stop at a `"`; on success the value is the codepoints from the start up to the stop, and none of them after the first is whitespace, `#` or `"`; otherwise the error is "invalid double quote in value" |
| `LineSplit.SplitLines` | wsv.go:78 | the split gives one more segment than the text has linefeeds, and no segment holds a linefeed |
| `LineSplit.JoinSplit` | wsv.go:78 | joining the segments with linefeeds gives back the text |
| `LineSplit.SplitJoin` | wsv.go:78 | splitting linefeed-free segments joined by linefeeds gives back the segments |
| `LineSplit.SplitTrailingLinefeed` | wsv.go:78 | a trailing linefeed adds exactly one trailing empty segment |
| `LineSplit.SplitKeepsCodepoints` | wsv.go:78 | every codepoint of a segment occurs in the text |
| `Wsv.IsWhitespace` | wsv.go:44-56 | the range tests of isWhitespace accept exactly the WSV whitespace set |
| `Wsv.CharIterator.constructor` | wsv.go:13-17 | the iterator starts at index 0 over the line's codepoints |
| `Wsv.CharIterator.Next` | wsv.go:31-34 | next advances the index by one, never past the end, and tells whether a codepoint is left |
| `Wsv.CharIterator.IsEnd` | wsv.go:19-21 | on a valid iterator, isEnd holds exactly when the index is at the end of the line |
| `Wsv.CharIterator.Is` | wsv.go:23-25 | is(c) holds exactly when the codepoint at the index is c |
| `Wsv.CharIterator.AtWhitespace` | wsv.go:27-29 | isWhitespace holds exactly when the codepoint at the index is WSV whitespace |
| `Wsv.CharIterator.Get` | wsv.go:36-38 | get is the codepoint that follows the ones before the index |
| `Wsv.CharIterator.Slice` | wsv.go:40-42 | getSlice(start) is the index minus start codepoints that follow the ones before start and reach the index |
| `Wsv.SkipWhitespace` | wsv.go:192-217 | skipWhitespace leaves the iterator at the end of the whitespace run it stands on |
| `Wsv.ParseValue` | wsv.go:144-160 | parseValue returns the bare scan's value or its error, and leaves the iterator where the scan stopped |
| `Wsv.QuotedRest` | wsv.go:162-190 | a successful quoted scan ends after where it started and within the line |
| `Wsv.QuotedErrors` | wsv.go:162-190 | a quoted value fails only with "string not closed" or "invalid character after string"; "invalid string line break" never comes out |
| `Wsv.ParseDoubleQuotedValue` | wsv.go:162-190 | parseDoubleQuotedValue returns what the quoted state machine decodes from after the opening `"`, or its error, or panics when `"/` ends the line; on success the iterator is where the value ended |
| `Wsv.LineFrom` | wsv.go:105-142 | a line from index i yields at most one field per codepoint left, since every field consumes at least one |
| `Wsv.LineErrors` | wsv.go:105-142 | a line fails only with one of the three value errors |
| `Wsv.ParseLine` | wsv.go:105-142 | parseLine returns the fields of the line in source order, or the first failure |
| `Wsv.ParseLines` | wsv.go:81-90 | a successful parse of the lines has exactly one row per line |
| `Wsv.Document` | wsv.go:76-92 | a parsed document has one row more than the text has linefeeds, and it never fails with "empty document" |
| `Wsv.ParseLinesRows` | wsv.go:76-92 | a successful parse has one row per line, and row k is the parse of line k |
| `Wsv.ParseLinesFirstFailure` | wsv.go:84-87 | a failed parse is the failure of some line k, and every line before k parses |
| `Wsv.ParseLinesErrors` | wsv.go:76-92 | a document never fails with "empty document" |
| `Wsv.ParseDocument` | wsv.go:76-92 | ParseDocument parses the linefeed-separated lines in order and stops at the first failure |
| `Wsv.ParseLineAsArray` | wsv.go:94-103 | ParseLineAsArray is the first line's row when the whole document parses, and the document's failure otherwise; "empty document" never comes out |
| `Wsv.ParseAsArray` | wsv.go:66-69 | ParseAsArray behaves as ParseLineAsArray |
| `Wsv.ParseAsJaggedArray` | wsv.go:71-74 | ParseAsJaggedArray behaves as ParseDocument |
| `WsvGrammar.SkipWsOver` | wsv.go:212-216 | whitespace skipping over a whitespace run stops right after it |
| `WsvGrammar.BareOver` | wsv.go:144-160 | a bare scan over a well-formed bare field stops right after it; it succeeds with the field's text exactly when no `"` follows |
| `WsvProperties.QuotedPieceStep` | wsv.go:168-186 | inside a quoted value, `""` decodes to `"`, `"/` and the codepoint after it to a linefeed, and any other codepoint to itself |
| `WsvProperties.QuotedPieces` | wsv.go:164-188 | the inside of a quoted value decodes piece by piece to the concatenated values of the pieces |
| `WsvProperties.CloseQuote` | wsv.go:168-180 | a `"` followed by the end of the line, whitespace or `#` closes a quoted value |
| `WsvProperties.QuotedFieldToken` | wsv.go:162-190 | a quoted field followed by a separator is one token with the decoded value, ending right after its closing `"` |
| `WsvProperties.LineStep` | wsv.go:108-138 | one pass of the line loop adds the field found after the whitespace, a bare `-` collapsed to empty, and goes on where its scan ended |
| `WsvProperties.ItemStep` | wsv.go:108-138 | one well-formed item adds its field's value and the loop goes on right after it |
| `WsvProperties.ItemsPrefix` | wsv.go:108-139 | well-formed items add their values in source order in front of the rest of the line |
| `WsvProperties.LineTail` | wsv.go:109-115 | trailing whitespace and a `#` comment add no field, whatever the comment holds |
| `WsvProperties.LineGrammar` | wsv.go:105-142 | every well-formed line parses to the values of its fields in source order: bare fields verbatim with `-` as empty, quoted fields decoded (a quoted `"-"` stays `-`), separators and comment dropped |
| `WsvProperties.PiecesFromRead` | wsv.go:162-190 | the codepoints a successful quoted scan consumes before its closing `"` are well-formed pieces whose values concatenate to the decoded value, and a separator follows the `"` |
| `WsvProperties.ParsedLineReads` | wsv.go:105-142 | the line read back from a successful parse from index i is well formed, spells out the codepoints from i on, and has the parsed values as its fields' values |
| `WsvProperties.LineParsesOnlyWellFormed` | wsv.go:105-142 | every line that parses is a well-formed line whose fields' values are the parsed values |
| `WsvProperties.LineParsesIffWellFormed` | wsv.go:105-142 | a line parses exactly when it is well formed |
| `WsvProperties.LineStepFails` | wsv.go:118-131 | the line stops at the first field whose scan fails, with that failure |
| `WsvProperties.BareQuoteFails` | wsv.go:150-153 | a `"` inside a bare value fails the line with "invalid double quote in value" |
| `WsvProperties.UnclosedStringFails` | wsv.go:165-166 | a quoted value that runs to the end of the line fails with "string not closed" |
| `WsvProperties.QuoteThen` | wsv.go:174-182 | after a `"` in a quoted value, `/` at the end of the line panics, and any codepoint other than whitespace, `#`, `"` or `/` is "invalid character after string" |
| `WsvProperties.CharacterAfterStringFails` | wsv.go:181-182 | a closing `"` followed by another codepoint fails the line with "invalid character after string" |
| `WsvProperties.LineBreakAtEndPanics` | wsv.go:174-178 | a `"/` that ends the line panics instead of returning "invalid string line break" |
| `WsvProperties.SeparatorsIrrelevant` | wsv.go:192-217 | which whitespace separates the fields of a well-formed line, and what its comment says, do not change the result |
| `WsvProperties.QuotedRestSwapped` | wsv.go:162-190 | on two lines that differ only in which whitespace codepoints they hold, the quoted scan takes the same path: the same failure or panic, or the same end with values that differ only in that whitespace |
| `WsvProperties.LineFromSwapped` | wsv.go:105-217 | on two such lines, the line loop from any index gives the same failure or panic, or as many fields, each differing only in whitespace a quoted value keeps; with no `"` ahead, exactly the same result |
| `WsvProperties.WhitespaceChoiceIrrelevant` | wsv.go:105-217 | on any line, well formed or not, which whitespace codepoints it uses never changes whether it parses, the error it reports, whether it panics, or its number of fields; a line without `"` parses to exactly the same fields |
| `WsvProperties.ParseLinesAppend` | wsv.go:81-90 | parsing lines one after the other gives the rows of the first lines then those of the rest, unless a first line fails |
| `WsvProperties.EmptyContent` | wsv.go:76-92 | the empty document is one empty row |
| `WsvProperties.TrailingLinefeed` | wsv.go:76-92 | a trailing linefeed adds one trailing empty row, or leaves the failure as it is |
| `WsvProperties.LinesGrammar` | wsv.go:81-90 | well-formed lines parse to one row per line, each the values of that line's fields; rows may differ in length |
| `WsvProperties.DocumentGrammar` | wsv.go:76-92 | well-formed lines joined by linefeeds parse as a document to one row per line |
| `WsvProperties.LaterLineFailsDocument` | wsv.go:84-87 | a failing later line fails the whole document with its failure, even after a well-formed first line |
| `WsvGolang.IsWhitespace` | wsvgolang.go:46-58 | WsvChar.isWhitespace accepts exactly the WSV whitespace set, the same as package wsv |
| `WsvGolang.CharIterator.constructor` | wsvgolang.go:13-17 | the iterator starts at index 0 over the line's codepoints |
| `WsvGolang.CharIterator.Next` | wsvgolang.go:31-34 | next advances the index by one, never past the end, and tells whether a codepoint is left |
| `WsvGolang.CharIterator.IsEnd` | wsvgolang.go:19-21 | on a valid iterator, isEnd holds exactly when the index is at the end of the line |
| `WsvGolang.CharIterator.Is` | wsvgolang.go:23-25 | is(c) holds exactly when the codepoint at the index is c |
| `WsvGolang.CharIterator.AtWhitespace` | wsvgolang.go:27-29 | isWhitespace holds exactly when the codepoint at the index is WSV whitespace |
| `WsvGolang.CharIterator.Get` | wsvgolang.go:36-38 | get is the codepoint that follows the ones before the index |
| `WsvGolang.CharIterator.Slice` | wsvgolang.go:40-42 | getSlice(start) is the index minus start codepoints that follow the ones before start and reach the index |
| `WsvGolang.SkipWhitespace` | wsvgolang.go:188-205 | skipWhitespace leaves the index where it is on a non-whitespace codepoint, and otherwise stops at the first non-whitespace codepoint or the end |
| `WsvGolang.ParseValue` | wsvgolang.go:140-156 | parseValue returns the bare scan's value or "invalid double quote in value", and leaves the iterator where the scan stopped |
| `WsvGolang.FirstQuote` | wsvgolang.go:160-167 | the index of the first `"` at or after p, or the end; there is no `"` before it |
| `WsvGolang.QuotedRest` | wsvgolang.go:158-186 | the quoted scan ends at the first `"`: it succeeds with the codepoints before it when another codepoint follows it, panics when that `"` is last on the line, and fails with "string not closed" exactly when no `"` follows |
| `WsvGolang.ParseDoubleQuotedValue` | wsvgolang.go:158-186 | parseDoubleQuotedValue returns what the quoted scan gives; on success the iterator is on the codepoint after the closing `"`, and on "string not closed" it is at the end |
| `WsvGolang.LineFrom` | wsvgolang.go:101-138 | a line never fails with an error, and yields at most one field per codepoint left |
| `WsvGolang.ParseLine` | wsvgolang.go:101-138 | parseLine returns the fields of the line, with every failed field as `""` |
| `WsvGolang.ParseLines` | wsvgolang.go:84-95 | the lines never fail with an error; on success there is one row per line, row k the parse of line k; the parse panics exactly when some line panics |
| `WsvGolang.Document` | wsvgolang.go:84-95 | a document never fails with an error; when it does not panic it has one row more than the text has linefeeds |
| `WsvGolang.ParseDocumentNonPreserving` | wsvgolang.go:84-95 | parseDocumentNonPreserving parses every linefeed-separated line in order |
| `WsvGolang.ParseLineAsArray` | wsvgolang.go:97-99 | parseLineAsArray is the first line's row, taken without any emptiness check |
| `WsvGolang.LineParseAsArray` | wsvgolang.go:70-72 | WsvLine.parseAsArray behaves as parseLineAsArray |
| `WsvGolang.DocumentParseAsJaggedArray` | wsvgolang.go:77-79 | WsvDocument.parseAsJaggedArray behaves as parseDocumentNonPreserving |
| `WsvGolangProperties.FirstQuoteOver` | wsvgolang.go:160-167 | the first `"` after a run without one is right after that run |
| `WsvGolangProperties.LineStep` | wsvgolang.go:104-135 | one pass of the line loop adds the field found after the whitespace, a bare `-` collapsed to empty, and goes on where its scan ended |
| `WsvGolangProperties.LineStepSwallows` | wsvgolang.go:113-134 | a failing bare value adds `""` and the line goes on where the scan stopped; an unclosed quoted value adds `""` and ends the line; a `"` that ends the line panics |
| `WsvGolangProperties.ItemStep` | wsvgolang.go:104-135 | one well-formed item with a plain quoted field followed by a codepoint adds its value and the loop goes on right after it |
| `WsvGolangProperties.PlainQuotedToken` | wsvgolang.go:158-186 | a quoted field without escapes followed by a codepoint is one token, ending right after its closing `"` |
| `WsvGolangProperties.ItemsPrefix` | wsvgolang.go:104-135 | plain well-formed items add their values in source order in front of the rest of the line |
| `WsvGolangProperties.LineTail` | wsvgolang.go:105-111 | trailing whitespace and a `#` comment add no field |
| `WsvGolangProperties.LineGrammar` | wsvgolang.go:101-138 | a well-formed line whose quoted fields hold no escape, and that does not end with a quoted field, parses to the values of its fields in source order |
| `WsvGolangProperties.QuotedAtEndPanics` | wsvgolang.go:164-168 | a closing `"` that is the last codepoint of the line panics |
| `WsvGolangProperties.UnclosedSwallowed` | wsvgolang.go:113-120 | an unclosed quoted value becomes `""` and ends the line, without an error |
| `WsvGolangProperties.QuoteEndsAtOnce` | wsvgolang.go:164-167 | a `"` followed by any codepoint ends the quoted value at once, so `""` is no escape; the line goes on at that codepoint |
| `WsvGolangProperties.BareQuoteSwallowed` | wsvgolang.go:121-134 | a `"` inside a bare value makes that field `""`, and the line goes on at the `"` |
| `WsvGolangProperties.BareQuoteAtEnd` | wsvgolang.go:113-134 | a bare value ending in a `"` at the end of the line gives two empty fields |
| `WsvGolangProperties.LinesGrammar` | wsvgolang.go:84-95 | plain lines parse to one row per line |
| `WsvGolangProperties.DocumentGrammar` | wsvgolang.go:84-95 | plain lines joined by linefeeds parse as a document to one row per line |
| `WsvGolangProperties.ParseLinesAppend` | wsvgolang.go:86-93 | parsing lines one after the other gives the rows of the first lines then those of the rest, unless a first line panics |
| `WsvGolangProperties.EmptyContent` | wsvgolang.go:84-95 | the empty document is one empty row |
| `WsvGolangProperties.TrailingLinefeed` | wsvgolang.go:84-95 | a trailing linefeed adds one trailing empty row, or the parse panics as before |
| `Editions.QuoteFreeLinesAgree` | wsvgolang.go:101-138 | on a line without `"` both packages' line parsers return the same result |
| `Editions.QuoteFreeLinesListAgree` | wsvgolang.go:84-95 | on lines without `"` both packages return the same rows |
| `Editions.QuoteFreeDocumentsAgree` | wsvgolang.go:84-95 | a document without `"` parses the same in both packages |
| `Editions.PlainLinesAgree` | wsvgolang.go:101-138 | on a plain line both packages return the values of its fields |
| `Editions.QuotedAtEndDiverges` | wsvgolang.go:164-168 | a quoted value at the very end of a line is a value in package wsv and a panic in package wsvgolang |
| `Editions.BareQuoteDiverges` | wsvgolang.go:121-134 | a bare value ending in `"` at the end of a line is "invalid double quote in value" in package wsv and two empty fields in package wsvgolang |
| `Editions.UnclosedDiverges` | wsvgolang.go:114-120 | an unclosed quoted value is "string not closed" in package wsv and an empty field in package wsvgolang |
| `Samples.SpacedLine` | wsv_test.go:80-113 | a line of plain codepoints (none of them whitespace, `#`, `"`, linefeed or `-`, so any letters or digits) separated by single spaces is well formed, holds no linefeed and no `"`, and its values are its codepoints one by one |
| `Samples.SpacedDocument` | wsv_test.go:80-113 | spaced lines of plain codepoints of any lengths, joined by linefeeds, parse to one row per line holding that line's codepoints |
| `Samples.TwoSpacedLines` | wsv_test.go:80-95 | "a b c" LF "1 2 3", and every document of that shape over plain codepoints, parses to two rows of three values in both packages (also wsvgolang_test.go:31-43) |
| `Samples.JaggedLines` | wsv_test.go:97-113 | "a b c" LF "1 2 3 4" LF "5 6 7" parses to the rows [a,b,c], [1,2,3,4] and [5,6,7] |

## Left out

- The serializer that the tests of package wsv call (`Serialize`, `SerializeRow`) is not part of this model; no parse/serialize round trip is stated.
- UTF-8 decoding (`getCodePoints`, wsv.go:58-64 and wsvgolang.go:60-66) is left out, with its replacement of invalid bytes by U+FFFD; the input is taken as codepoints, and the split is on codepoint 0x0A, which is one UTF-8 byte.
- Error messages are an enumeration, not text; the iterator's `lineIndex` is stored and never read, as in the source.
- Go's distinction between a nil and an empty slice is not modelled; both are the empty sequence.
- A Go run-time panic is a value (`Panic`), not an abort of the program.
- File input in the third test of package wsv, and the test helpers `printTable` and `compareTables`, are left out; the expected table of that test needs the input file, which is not part of this model.
- Wsv.QuotedRest: its own contract only bounds where the value ends; what it decodes, and when it fails, is stated by the lemmas of `WsvProperties` (`QuotedPieces`, `CloseQuote`, `QuoteThen`, `LineBreakAtEndPanics`) and by `Wsv.QuotedErrors`.
- WsvGolangProperties.LineGrammar: covers only lines whose quoted fields hold no `""` or `"/` and that do not end with a quoted field; the other lines are covered by `QuotedAtEndPanics`, `QuoteEndsAtOnce`, `UnclosedSwallowed` and `BareQuoteSwallowed`.
- The model follows the code where the WSV format's description disagrees with it:
  - package wsvgolang drops the errors of its scans instead of propagating them;
  - after `"/` inside a quoted value, package wsv consumes the next codepoint without checking it, so the escape is `"/` plus any codepoint rather than `"/"`;
  - the "invalid string line break" error of both packages can never be returned: the test that guards it reads past the end of the line first.
