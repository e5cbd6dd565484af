# TextExtractor in Dafny

A model of `MintyPeterson.TextExtractor.TextExtractor`, a static class that
pulls the plain text out of a `.docx` word-processing package. Given a file
path, `Extract` performs these steps:

1. It checks the argument and that the file exists.
2. It checks that the file starts with the zip signature `PK\x03\x04` (`IsFileHeaderValid`).
3. It reads the `word/document.xml` entry of the archive (`ExtractFileContent`).
4. It returns that markup untouched if it is blank. Otherwise it reduces the markup to text (`ExtractText`):
   - a regular expression finds paragraph starts, line breaks and text runs;
   - every paragraph start or line break appends one space;
   - every text run appends its payload, verbatim when the run carries `xml:space="preserve"` and trimmed otherwise;
   - the result is trimmed once at the end.

The project is split into modules that follow that structure:

| file | module | what it holds |
|---|---|---|
| `wrappers.dfy` | `Wrappers` | `Option`, `Result` and the exceptions the class raises, as an `Error` datatype |
| `text.dfy` | `Text` | the `char.IsWhiteSpace` set, `TrimStart`/`TrimEnd`/`Trim` with their reference meaning, and ordinal ignore-case comparison |
| `reducer.dfy` | `Reducer` | the match tokens and the fold of `ExtractText` over them, the loop as a method, and its laws |
| `scanner.dfy` | `Scanner` | a scanner that follows the extraction pattern's alternatives, lazy quantifiers and backtracking; `ExtractText` itself; what the pattern matches where a given piece of markup starts |
| `document.dfy` | `Document` | word-processing markup as parts (paragraph starts, matched elements, other tags), the round trip from such markup to the matches it stands for, and builders for paragraphs, runs and tables |
| `signature.dfy` | `Signature` | `IsFileHeaderValid` over the file's bytes and the count its one `Read` call returns |
| `extractor.dfy` | `Extractor` | `ExtractFileContent` and `Extract` over an abstract file system; the error order; end-to-end documents shaped like the library's test documents |

I/O is replaced by data:
- The file system is a map from existing paths to stored files. `File.Exists` is map membership.
- A stored file holds its bytes and the count `FileStream.Read` returns for the header.
- A stored file also holds its archive, as the map from entry name to decoded text that `ZipFile.OpenRead` and `StreamReader.ReadToEnd` would produce. The archive is `None` when it cannot be opened. An entry is `None` when `Open` or `ReadToEnd` fails on its data, for example on damaged compressed data or a checksum mismatch.
- Exceptions are `Failure` values of `Result`.

Six behaviours of the code are easy to miss:
- **Damaged archive.** A file with the right signature whose archive cannot be opened, or whose document entry cannot be read, ends in the zip library's `InvalidDataException`, modelled as `InvalidData`. `Extract` raises `NotSupportedException` only for a wrong signature and for a missing document entry.
- **When a run preserves whitespace.** The pattern's preserve branch only matches when `xml:space="preserve"` is the tag's one and only attribute. With any other attribute next to it, the backtracking `\s.*?` branch takes over. The capture is then empty, so the run is trimmed.
- **Paragraph starts.** `<w:p` followed by whitespace and then `>` already counts as a paragraph start, even with no attribute. The start ends at the first `>` on the same line.
- **Bare paragraphs.** A paragraph written `<w:p>`, with nothing between the name and `>`, is no paragraph start to the pattern, which needs whitespace after `w:p`. Texts in such paragraphs run together with no space: "Hello" and "World" come out as "HelloWorld" (`Extractor.HelloWorldBareParagraphs`).
- **Blank paragraphs.** Every paragraph start adds a space, even when its text is blank. A blank paragraph between two others leaves two spaces, and one at either end is trimmed away (`Reducer.ParagraphsReduced`).
- **A preserving run at the edge of the document.** The final trim removes the whitespace of a preserving run that sits at the very start or end of the document. The library's unit test of such a document expects exactly that, and `Extractor.PreservedWhitespaceDocument` states it.

## Model

| member | source | states |
|---|---|---|
| Text.IsWhite | MintyPeterson.TextExtractor/TextExtractor.cs:39 | the characters `char.IsWhiteSpace` accepts, which both `string.IsNullOrWhiteSpace` and `string.Trim` use: the ASCII controls 9 to 13, the space, U+0085, U+00A0, U+1680, U+2000 to U+200A, U+2028, U+2029, U+202F, U+205F and U+3000 |
| Text.IsBlank | MintyPeterson.TextExtractor/TextExtractor.cs:39 | `string.IsNullOrWhiteSpace` on a non-null string: every character is whitespace, so the empty string is blank |
| Text.Trim | MintyPeterson.TextExtractor/TextExtractor.cs:76 | the trimmed string has no whitespace at either end, and it is empty exactly when the input is all whitespace |
| Text.TrimStart | MintyPeterson.TextExtractor/TextExtractor.cs:71-76 | the first half of `string.Trim` as lines 71 and 76 use it: the result is a suffix of the input, the dropped prefix is all whitespace, and the result does not start with whitespace |
| Text.TrimEnd | MintyPeterson.TextExtractor/TextExtractor.cs:71-76 | the second half of `string.Trim` as lines 71 and 76 use it: the result is a prefix of the input, the dropped suffix is all whitespace, and the result does not end with whitespace |
| Text.TrimMeaning | MintyPeterson.TextExtractor/TextExtractor.cs:76 | `Trim` cuts a blank prefix and a blank suffix off its input and leaves a string with non-white ends (the reference meaning of `string.Trim`) |
| Text.TrimOfUnique | MintyPeterson.TextExtractor/TextExtractor.cs:76 | there is only one way to cut blank margins off a string and leave non-white ends, so the reference meaning fixes the result |
| Text.TrimTrimmed | MintyPeterson.TextExtractor/TextExtractor.cs:76 | trimming a string with non-white ends changes nothing |
| Text.TrimIdempotent | MintyPeterson.TextExtractor/TextExtractor.cs:76 | trimming twice is trimming once |
| Text.TrimBlankMargins | MintyPeterson.TextExtractor/TextExtractor.cs:76 | blank text around a string makes no difference to its trim |
| Text.TrimKeepsInterior | MintyPeterson.TextExtractor/TextExtractor.cs:76 | when both outer parts hold a non-white character, the middle part comes through the trim verbatim and only the outer margins go |
| Text.BlankConcat | MintyPeterson.TextExtractor/TextExtractor.cs:39 | a concatenation is blank exactly when both parts are |
| Text.EqualsIgnoreCase | MintyPeterson.TextExtractor/TextExtractor.cs:63 | the ordinal ignore-case comparison: equal lengths and, position by position, the same character once ASCII capitals are folded |
| Text.FoldCaseLetter | MintyPeterson.TextExtractor/TextExtractor.cs:63 | a character equals a lower-case ASCII letter ignoring case exactly when it is that letter or its capital, 32 code points below |
| Text.EqualsIgnoreCaseLetters | MintyPeterson.TextExtractor/TextExtractor.cs:63 | a string equals a lower-case ASCII word ignoring case exactly when it has the word's length and each character is the word's letter or its capital |
| Reducer.Piece | MintyPeterson.TextExtractor/TextExtractor.cs:56-72 | what one match adds: it is blank exactly when the match is a boundary or a run with a blank payload; a run adds no more than its payload, and a run that does not preserve adds text with no whitespace at either end |
| Reducer.Accumulate | MintyPeterson.TextExtractor/TextExtractor.cs:54-74 | the text built before the final trim: each match's piece, appended in match order |
| Reducer.Reduce | MintyPeterson.TextExtractor/TextExtractor.cs:47-77 | the reducer's text has no whitespace at either end, and it is empty exactly when everything accumulated is whitespace |
| Reducer.ReduceMatches | MintyPeterson.TextExtractor/TextExtractor.cs:49-76 | the loop over the matches, appending to an accumulator that starts empty and trimming once at the end, computes `Reduce` |
| Reducer.AccumulateAppend | MintyPeterson.TextExtractor/TextExtractor.cs:54-74 | the accumulator is append-only in match order: the matches of a concatenation accumulate to the concatenation of their accumulations |
| Reducer.AccumulateAround | MintyPeterson.TextExtractor/TextExtractor.cs:54-74 | one match contributes its piece between what precedes and what follows it |
| Reducer.AccumulateSnoc | MintyPeterson.TextExtractor/TextExtractor.cs:54-74 | a further match appends its piece after everything already accumulated |
| Reducer.BoundaryAddsOneSpace | MintyPeterson.TextExtractor/TextExtractor.cs:56-60 | a paragraph start or line break adds exactly one space, wherever it occurs |
| Reducer.PreservedRunVerbatim | MintyPeterson.TextExtractor/TextExtractor.cs:63-68 | a run whose capture is "preserve", in any case, adds its payload verbatim |
| Reducer.PlainRunTrimmed | MintyPeterson.TextExtractor/TextExtractor.cs:69-72 | any other run adds its payload with the surrounding whitespace dropped |
| Reducer.PreserveCaptureIgnoresCase | MintyPeterson.TextExtractor/TextExtractor.cs:63 | "PRESERVE" and "Preserve" preserve; an absent capture and "preserved" do not |
| Reducer.PreserveSpellings | MintyPeterson.TextExtractor/TextExtractor.cs:63 | a capture preserves exactly when it has eight characters and each is the letter of "preserve" or of "PRESERVE" at that position |
| Reducer.ReduceIsTrimFixpoint | MintyPeterson.TextExtractor/TextExtractor.cs:76 | the reducer's result needs no further trimming |
| Reducer.AccumulateBlank | MintyPeterson.TextExtractor/TextExtractor.cs:54-74 | the accumulator is blank exactly when every match's piece is |
| Reducer.ReduceEmptyIff | MintyPeterson.TextExtractor/TextExtractor.cs:54-76 | the text is empty exactly when no match contributes a non-white character |
| Reducer.BoundariesAndBlankRunsReduceToEmpty | MintyPeterson.TextExtractor/TextExtractor.cs:56-76 | matches that are all boundaries, or runs whose payload is blank and that do not preserve, give the empty string |
| Reducer.BoundariesBlank | MintyPeterson.TextExtractor/TextExtractor.cs:56-60 | boundaries alone accumulate nothing but spaces |
| Reducer.RunAmongBoundaries | MintyPeterson.TextExtractor/TextExtractor.cs:65-76 | a run with only boundaries around it comes out trimmed, even when it preserves its whitespace |
| Reducer.PreservedRunInterior | MintyPeterson.TextExtractor/TextExtractor.cs:65-76 | a preserving run with text on both sides keeps its whitespace, and only the outer margins of the whole text are cut |
| Reducer.ParagraphsElements | MintyPeterson.TextExtractor/TextExtractor.cs:52-54 | in a document of paragraphs each holding one run, the matches alternate between paragraph start and that paragraph's run |
| Reducer.ParagraphsAppend | MintyPeterson.TextExtractor/TextExtractor.cs:54 | the matches of two runs of paragraphs, one after the other, are the matches of each in turn |
| Reducer.ParagraphsReduced | MintyPeterson.TextExtractor/TextExtractor.cs:54-76 | paragraphs of any texts, blank ones included, come out as their trimmed texts joined by one space each, in document order, with the whole trimmed once more |
| Reducer.ParagraphsJoinedBySpaces | MintyPeterson.TextExtractor/TextExtractor.cs:54-76 | when no paragraph text is blank, paragraphs come out as their trimmed texts joined by exactly one space, in document order |
| Reducer.BlankParagraphBetween | MintyPeterson.TextExtractor/TextExtractor.cs:56-76 | a blank paragraph between two non-blank ones still adds its space, leaving two spaces between their texts |
| Reducer.BlankParagraphFirst | MintyPeterson.TextExtractor/TextExtractor.cs:56-76 | a blank paragraph at the start of the document leaves no trace in the text |
| Reducer.PlainRunsReduced | MintyPeterson.TextExtractor/TextExtractor.cs:65-76 | plain runs with no paragraph start between them come out as their trimmed texts with nothing between them |
| Scanner.LazyUntil | MintyPeterson.TextExtractor/TextExtractor.cs:52 | a lazy `.*?` followed by a literal ends where the literal fits into the input |
| Scanner.LazyUntilFirst | MintyPeterson.TextExtractor/TextExtractor.cs:52 | the lazy search finds the first occurrence of the literal reachable without crossing a newline, and finds nothing only when there is none |
| Scanner.PayloadFrom | MintyPeterson.TextExtractor/TextExtractor.cs:52 | `(.*?)<\/w:t>` yields a run whose payload is the text up to the closing tag, and the match ends after that tag |
| Scanner.PayloadFromCaptured | MintyPeterson.TextExtractor/TextExtractor.cs:52 | the payload stops at a closing tag and never holds a newline |
| Scanner.AttributesThenPayload | MintyPeterson.TextExtractor/TextExtractor.cs:52 | the `\s.*?` branch yields a run without a preserve capture and consumes input |
| Scanner.AttributesThenPayloadCaptured | MintyPeterson.TextExtractor/TextExtractor.cs:52 | the run the `\s.*?` branch yields, after any backtracking over `>`, is one the pattern can capture |
| Scanner.TextRunAt | MintyPeterson.TextExtractor/TextExtractor.cs:52 | the text-run alternative yields a run and consumes input |
| Scanner.PreserveHeadCapture | MintyPeterson.TextExtractor/TextExtractor.cs:52 | the capture of a matched preserve attribute is a spelling of "preserve" |
| Scanner.TextRunAtCaptured | MintyPeterson.TextExtractor/TextExtractor.cs:52 | a text run carries a capture only when the preserve branch matched, that is, whitespace, the attribute, then `>` |
| Scanner.ParagraphAt | MintyPeterson.TextExtractor/TextExtractor.cs:52 | a paragraph start is found only where the input reads `<w:p` in any case, and it ends past its start, inside the input |
| Scanner.ParagraphAtFirstClose | MintyPeterson.TextExtractor/TextExtractor.cs:52 | `<w:p\s.*?>` ends right after the first `>` that follows the whitespace character, with no newline and no `>` before it; when there is no `>` on that line, no paragraph start is found there |
| Scanner.MatchAt | MintyPeterson.TextExtractor/TextExtractor.cs:52-54 | a match at a position always consumes input, so the scan moves forward |
| Scanner.MatchAtCaptured | MintyPeterson.TextExtractor/TextExtractor.cs:52 | a match is a boundary exactly when the input there starts with `<w:p` or `<w:br/>`; a run is matched only after `<w:t`, and its capture is absent or "preserve" |
| Scanner.ScanFrom | MintyPeterson.TextExtractor/TextExtractor.cs:54 | the successive matches from a position on, each search resuming where the previous match ended: never more matches than characters left |
| Scanner.Scan | MintyPeterson.TextExtractor/TextExtractor.cs:54 | `Regex.Matches` over the whole content: never more matches than characters |
| Scanner.ScanFromCaptured | MintyPeterson.TextExtractor/TextExtractor.cs:54 | every token of the successive matches is one the pattern can capture |
| Scanner.ScanCaptured | MintyPeterson.TextExtractor/TextExtractor.cs:52-63 | among the matches of a document, a run keeps its whitespace exactly when its preserve group took part |
| Scanner.ExtractText | MintyPeterson.TextExtractor/TextExtractor.cs:47-77 | the extracted text has no whitespace at either end, and it is empty exactly when every match contributes only whitespace |
| Scanner.LazyUntilStopsAtClose | MintyPeterson.TextExtractor/TextExtractor.cs:52 | over text free of `<` and newlines, the lazy payload stops at the closing tag |
| Scanner.PayloadRendered | MintyPeterson.TextExtractor/TextExtractor.cs:52 | a payload free of markup and newlines, then the closing tag, is read back as that payload |
| Scanner.MatchRenderedBreak | MintyPeterson.TextExtractor/TextExtractor.cs:52 | `<w:br/>` is matched as one boundary |
| Scanner.MatchRenderedPlain | MintyPeterson.TextExtractor/TextExtractor.cs:52 | `<w:t>payload</w:t>` is matched, through the bare-tag branch, as the run without capture |
| Scanner.MatchRenderedPreserved | MintyPeterson.TextExtractor/TextExtractor.cs:52 | `<w:t xml:space="preserve">payload</w:t>` is matched, through the preserve branch, as the run with that capture |
| Scanner.MatchRendered | MintyPeterson.TextExtractor/TextExtractor.cs:52 | where a rendered token starts, the pattern matches exactly that token's markup and yields the token back |
| Scanner.MatchRenderedParagraph | MintyPeterson.TextExtractor/TextExtractor.cs:52 | `<w:p attrs>`, with attributes free of `>` and newlines, is matched as one boundary that ends after its `>` |
| Scanner.NoMatchOffMarkup | MintyPeterson.TextExtractor/TextExtractor.cs:52 | every alternative of the pattern starts with `<`, so nothing matches at any other character |
| Document.PassedNoMatch | MintyPeterson.TextExtractor/TextExtractor.cs:52 | the pattern matches nowhere a passed tag starts: closing tags, tags whose third character is not `p`, `b` or `t`, the bare names `w:p` and `w:b` (so `<w:p>` is no paragraph start), and `w:p…`/`w:t…`/`w:b…` names that continue without whitespace or with something other than `r` |
| Document.PassedInterior | MintyPeterson.TextExtractor/TextExtractor.cs:52 | after its opening `<`, a passed tag holds no `<`, so no match can start inside it |
| Document.ScanSkips | MintyPeterson.TextExtractor/TextExtractor.cs:54 | the search moves over text without `<` and resumes after it with the same matches |
| Document.MatchParagraphStart | MintyPeterson.TextExtractor/TextExtractor.cs:52 | a paragraph start part `<w:p attrs>` is matched as the boundary it stands for, ending right after it |
| Document.MatchElement | MintyPeterson.TextExtractor/TextExtractor.cs:52 | a line break or text element part is matched as the token it stands for, ending right after it |
| Document.OtherTagPassed | MintyPeterson.TextExtractor/TextExtractor.cs:52 | another tag yields no match where it starts, and holds no `<` after that |
| Document.ScanFromPart | MintyPeterson.TextExtractor/TextExtractor.cs:54 | a well-formed part at a position yields its matches, and the search resumes right after it |
| Document.ScanFromXml | MintyPeterson.TextExtractor/TextExtractor.cs:54 | scanning well-formed markup from where it starts yields the matches its parts stand for, in order |
| Document.ScanXml | MintyPeterson.TextExtractor/TextExtractor.cs:52-54 | round trip: the matches of markup built from well-formed parts are exactly the matches the parts stand for, in order, whatever other tags lie between them |
| Document.ExtractTextOfXml | MintyPeterson.TextExtractor/TextExtractor.cs:47-77 | extracting from well-formed markup is reducing the matches its parts stand for |
| Document.XmlNotBlank | MintyPeterson.TextExtractor/TextExtractor.cs:39 | markup holding at least one part starts with `<`, so it is never blank and is always reduced |
| Document.TokensAppend | MintyPeterson.TextExtractor/TextExtractor.cs:54 | the matches of two pieces of markup, one after the other, are the matches of each in turn |
| Document.WellFormedAppend | MintyPeterson.TextExtractor/TextExtractor.cs:52 | two pieces of markup are well formed together exactly when each is |
| Document.TokensParagraph | MintyPeterson.TextExtractor/TextExtractor.cs:52-54 | a paragraph `<w:p attrs>body</w:p>` stands for one boundary followed by its body's matches |
| Document.TokensBoldRun | MintyPeterson.TextExtractor/TextExtractor.cs:52-54 | the formatting tags of a bold run match nothing: it stands for its text element alone |
| Document.TokensPlainParagraphs | MintyPeterson.TextExtractor/TextExtractor.cs:52-54 | paragraphs each holding one plain run stand for one boundary and one run per text |
| Document.TokensBareParagraphs | MintyPeterson.TextExtractor/TextExtractor.cs:52-54 | paragraphs written as bare `<w:p>`, each holding one plain run, stand for their runs alone, with no boundary between them |
| Document.TokensCells | MintyPeterson.TextExtractor/TextExtractor.cs:52-54 | the cells of a table row stand for one paragraph per cell: the cell tags match nothing |
| Document.TokensTable | MintyPeterson.TextExtractor/TextExtractor.cs:52-54 | a table stands for one paragraph per cell, row by row: the table and row tags match nothing |
| Document.PlainParagraphsWellFormed | MintyPeterson.TextExtractor/TextExtractor.cs:52 | plain paragraphs with one-line attributes and texts free of `<` and newlines are well formed |
| Document.BareParagraphsWellFormed | MintyPeterson.TextExtractor/TextExtractor.cs:52 | bare paragraphs of texts free of `<` and newlines are well formed |
| Document.TableWellFormed | MintyPeterson.TextExtractor/TextExtractor.cs:52 | a table of such texts is well formed |
| Signature.IsFileHeaderValid | MintyPeterson.TextExtractor/TextExtractor.cs:104-128 | true exactly when the file starts with 80, 75, 3, 4 and the read returns all four bytes; an end-of-stream error exactly when the file holds at least four bytes but the read returns another count; a file of fewer than four bytes is false, never an error |
| Signature.IdentifierThenAnything | MintyPeterson.TextExtractor/TextExtractor.cs:107-127 | only the first four bytes matter: the identifier followed by anything passes |
| Signature.WrongByteRejected | MintyPeterson.TextExtractor/TextExtractor.cs:107-127 | one wrong byte among the first four fails the check |
| Extractor.ExtractFileContent | MintyPeterson.TextExtractor/TextExtractor.cs:79-102 | the document entry's text when the archive opens and its `word/document.xml` entry can be read; not supported exactly when the entry is missing; invalid data exactly when the archive cannot be opened or the entry cannot be read |
| Extractor.Extract | MintyPeterson.TextExtractor/TextExtractor.cs:19-45 | a null path fails with argument-null before anything else, and a missing file with file-not-found; a success means the file exists, carries the identifier and holds the document entry, and its text is either trimmed or the entry's content itself |
| Extractor.ShortFileNotSupported | MintyPeterson.TextExtractor/TextExtractor.cs:109-124 | a file shorter than the identifier is unsupported, never an end-of-stream error |
| Extractor.ShortReadEndOfStream | MintyPeterson.TextExtractor/TextExtractor.cs:113-118 | a short header read is an end-of-stream error, whatever the archive holds |
| Extractor.WrongIdentifierNotSupported | MintyPeterson.TextExtractor/TextExtractor.cs:31-34 | a readable header other than the identifier is unsupported, whatever the archive holds |
| Extractor.MissingDocumentNotSupported | MintyPeterson.TextExtractor/TextExtractor.cs:85-90 | a well-signed archive without `word/document.xml` is unsupported |
| Extractor.UnreadableArchiveInvalid | MintyPeterson.TextExtractor/TextExtractor.cs:83 | a well-signed file that is no archive fails as the zip library does |
| Extractor.UnreadableEntryInvalid | MintyPeterson.TextExtractor/TextExtractor.cs:92-96 | a document entry whose data cannot be opened or read fails with invalid data, as the zip library does |
| Extractor.BlankContentReturnedAsIs | MintyPeterson.TextExtractor/TextExtractor.cs:38-42 | blank document content is returned unchanged and untrimmed |
| Extractor.ContentReduced | MintyPeterson.TextExtractor/TextExtractor.cs:44 | any other content is scanned and reduced, and the result is trimmed |
| Extractor.ExtractDocument | MintyPeterson.TextExtractor/TextExtractor.cs:19-45 | end to end: a readable file whose document entry is markup built from well-formed parts extracts to the reduction of the matches those parts stand for |
| Extractor.ParagraphsDocument | MintyPeterson.TextExtractor/TextExtractor.cs:36-76 | a document of paragraphs each holding one plain run, blank texts included, extracts to the paragraphs' trimmed texts joined by one space each, in document order, the whole trimmed once more; a document without paragraphs is blank and comes back empty |
| Extractor.BareParagraphsDocument | MintyPeterson.TextExtractor/TextExtractor.cs:36-76 | a document of paragraphs written as bare `<w:p>`, each holding one plain run, extracts to the trimmed texts with no space between them |
| Extractor.TwoBareParagraphs | MintyPeterson.TextExtractor/TextExtractor.cs:36-76 | two trimmed texts in bare paragraphs come out run together |
| Extractor.HelloWorldBareParagraphs | MintyPeterson.TextExtractor/TextExtractor.cs:36-76 | "Hello" and "World" in bare paragraphs come out as "HelloWorld" |
| Extractor.RunParagraphDocument | MintyPeterson.TextExtractor/TextExtractor.cs:36-76 | a document of one paragraph holding one run of text between blank margins extracts to that text, whether the run preserves its whitespace or not |
| Extractor.UnpreservedWhitespaceDocument | MintyPeterson.TextExtractor.Tests/TextExtractorUnitTest.cs:53-60 | a paragraph holding one run without the preserve attribute, its sentence between blank margins, extracts to the sentence alone |
| Extractor.PreservedWhitespaceDocument | MintyPeterson.TextExtractor.Tests/TextExtractorUnitTest.cs:62-69 | a paragraph holding one run with `xml:space="preserve"`, its sentence between blank margins, still extracts to the sentence alone |
| Extractor.RunParagraphReduced | MintyPeterson.TextExtractor/TextExtractor.cs:56-76 | a paragraph start followed by a run reduces to the run's text without its blank margins, whether the run preserves them or not |
| Extractor.FormattedTokens | MintyPeterson.TextExtractor/TextExtractor.cs:52-60 | in a document of a paragraph whose run holds a line break between two texts, then a paragraph with a bold run, the line break counts as a paragraph start and the formatting tags match nothing |
| Extractor.FormattedDocument | MintyPeterson.TextExtractor.Tests/TextExtractorUnitTest.cs:71-78 | such a formatted document whose three texts are not blank, as in the test, extracts to the three texts, trimmed, with one space between each |
| Extractor.TablesDocument | MintyPeterson.TextExtractor.Tests/TextExtractorUnitTest.cs:80-87 | heading paragraphs followed by a table whose cells each hold a paragraph extract to the headings' texts and then the cells' texts row by row, blank ones included, each trimmed and joined by one space, the whole trimmed once more |

## Left out

- File system and archive I/O (`File.Exists`, `FileStream`, `ZipFile.OpenRead`, `GetEntry`, `StreamReader.ReadToEnd`): replaced by the data each call returns, as described above. Character decoding of the entry is the zip and stream libraries' concern.
- Disposal through `using` blocks: resource plumbing with no effect on results.
- `File.Exists` also returns false for the empty string, for paths it cannot access, and for directories. The model lets the file-system map decide, so a map holding the empty path is outside what the code can meet.
- The .NET regular-expression engine: the scanner follows the pattern's alternatives, lazy quantifiers, newline rule and backtracking as written. It is not proved equivalent to the engine.
- Case folding beyond ASCII: `RegexOptions.IgnoreCase` is given without `RegexOptions.CultureInvariant`, so the pattern folds case by the rules of the thread's current culture. `StringComparison.OrdinalIgnoreCase` on line 63 uses the invariant culture's upper-casing instead. The model folds only the ASCII letters, for both. The pattern's literals and "preserve" are themselves ASCII, so what is left out is a non-ASCII character that some culture's rules equate with one of their letters.
- UTF-16: strings are sequences of Unicode scalar values rather than UTF-16 code units. The whitespace set contains no surrogates, so trimming is unaffected.
- `IsValidFileType` and the byte-buffer and stream overloads of `Extract`: they are not in the code, which has only the file-path `Extract`.
- Document.ScanXml: the round trip covers markup built from the listed part shapes. Those are paragraph starts `<w:p attrs>` with one-line attributes free of `>`, `<w:br/>`, the text elements `<w:t>`, `<w:t xml:space="preserve">` (the capture in any case) with payloads free of `<` and newlines, and the other tags that `Document.Passed` accepts. Tags that `Document.Passed` does not accept, such as `<w:br w:type="page"/>` or a self-closing `<w:t xml:space="preserve"/>`, fall outside it, and so do payloads holding `<`. They are covered only by the scanner's branch-by-branch definition and the capture lemmas.
