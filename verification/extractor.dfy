/**
 * `TextExtractor.Extract` and `ExtractFileContent`: the argument and file
 * checks in their fixed order, the header check, the archive lookup of the
 * document part, the blank-content shortcut, and the text reduction.
 *
 * The file system is a map from the paths `File.Exists` accepts to what is
 * stored there; the zip library is replaced by the archive it would decode,
 * as a map from entry name to the entry's text as `StreamReader.ReadToEnd`
 * returns it, or to nothing when opening or reading the entry fails.
 */
module Extractor {
  import opened Wrappers
  import opened Text
  import opened Reducer
  import opened Scanner
  import opened Signature
  import opened Document

  /** A file: its bytes, the count the header `Read` returns, and its archive
      entries as decoded text (`None` when `ZipFile.OpenRead` cannot open it;
      an entry is `None` when `Open` or `ReadToEnd` fails on its data, as on
      damaged compressed data or a checksum mismatch). */
  datatype StoredFile = StoredFile(bytes: seq<byte>, headerReadCount: nat, archive: Option<map<string, Option<string>>>)

  /** The files that exist, by path. */
  type FileSystem = map<string, StoredFile>

  /** The archive entry holding the main document markup. */
  const DocumentEntry := "word/document.xml"

  /** `ExtractFileContent`: the text of the document entry of the archive. */
  function ExtractFileContent(file: StoredFile): (r: Result<string>)
    ensures r.Success? <==>
      file.archive.Some? && DocumentEntry in file.archive.value && file.archive.value[DocumentEntry].Some?
    ensures r.Success? ==> r.value == file.archive.value[DocumentEntry].value
    ensures r == Failure(NotSupported) <==> file.archive.Some? && DocumentEntry !in file.archive.value
    ensures r == Failure(InvalidData) <==>
      file.archive.None? || (DocumentEntry in file.archive.value && file.archive.value[DocumentEntry].None?)
    ensures r.Failure? ==> r.error == InvalidData || r.error == NotSupported
  {
    match file.archive
    case None => Failure(InvalidData)
    case Some(entries) =>
      if DocumentEntry !in entries then Failure(NotSupported)
      else
        match entries[DocumentEntry]
        case None => Failure(InvalidData)
        case Some(content) => Success(content)
  }

  /** `Extract(filePath)`: the text of the document at `filePath`, or the exception raised. */
  function Extract(filePath: Option<string>, fs: FileSystem): (r: Result<string>)
    ensures filePath.None? ==> r == Failure(ArgumentNull)
    ensures filePath.Some? && filePath.value !in fs ==> r == Failure(FileNotFound)
    ensures r.Success? ==> filePath.Some? && filePath.value in fs
    ensures r.Success? ==> HasIdentifier(fs[filePath.value].bytes)
    ensures r.Success? ==> ExtractFileContent(fs[filePath.value]).Success?
    ensures r.Success? ==> Trimmed(r.value) || r.value == ExtractFileContent(fs[filePath.value]).value
  {
    if filePath.None? then Failure(ArgumentNull)
    else if filePath.value !in fs then Failure(FileNotFound)
    else
      var file := fs[filePath.value];
      match IsFileHeaderValid(file.bytes, file.headerReadCount)
      case Failure(e) => Failure(e)
      case Success(valid) =>
        if !valid then Failure(NotSupported)
        else
          match ExtractFileContent(file)
          case Failure(e) => Failure(e)
          case Success(content) =>
            if IsBlank(content) then Success(content) else Success(ExtractText(content))
  }

  /** A file shorter than the identifier is never read: it is unsupported, never truncated. */
  lemma ShortFileNotSupported(path: string, fs: FileSystem)
    requires path in fs && |fs[path].bytes| < 4
    ensures Extract(Some(path), fs) == Failure(NotSupported)
  {
  }

  /** A header read that comes back short is an end-of-stream error, whatever the archive holds. */
  lemma ShortReadEndOfStream(path: string, fs: FileSystem)
    requires path in fs && |fs[path].bytes| >= 4 && fs[path].headerReadCount != 4
    ensures Extract(Some(path), fs) == Failure(EndOfStream)
  {
  }

  /** A readable header other than the identifier is unsupported, whatever the archive holds. */
  lemma WrongIdentifierNotSupported(path: string, fs: FileSystem)
    requires path in fs && |fs[path].bytes| >= 4 && fs[path].headerReadCount == 4
    requires !HasIdentifier(fs[path].bytes)
    ensures Extract(Some(path), fs) == Failure(NotSupported)
  {
  }

  /** A well-signed archive without the document entry is unsupported. */
  lemma MissingDocumentNotSupported(path: string, fs: FileSystem)
    requires path in fs && HasIdentifier(fs[path].bytes) && fs[path].headerReadCount == 4
    requires fs[path].archive.Some? && DocumentEntry !in fs[path].archive.value
    ensures Extract(Some(path), fs) == Failure(NotSupported)
  {
  }

  /** A well-signed file that is no archive fails as the zip library does. */
  lemma UnreadableArchiveInvalid(path: string, fs: FileSystem)
    requires path in fs && HasIdentifier(fs[path].bytes) && fs[path].headerReadCount == 4
    requires fs[path].archive.None?
    ensures Extract(Some(path), fs) == Failure(InvalidData)
  {
  }

  /** A document entry whose data cannot be opened or read fails as the zip library does. */
  lemma UnreadableEntryInvalid(path: string, fs: FileSystem)
    requires path in fs && HasIdentifier(fs[path].bytes) && fs[path].headerReadCount == 4
    requires fs[path].archive.Some? && DocumentEntry in fs[path].archive.value
    requires fs[path].archive.value[DocumentEntry].None?
    ensures Extract(Some(path), fs) == Failure(InvalidData)
  {
  }

  /** A file that passes the checks and holds the document part, with its content. */
  predicate Readable(path: string, fs: FileSystem, content: string) {
    && path in fs && HasIdentifier(fs[path].bytes) && fs[path].headerReadCount == 4
    && fs[path].archive.Some? && DocumentEntry in fs[path].archive.value
    && fs[path].archive.value[DocumentEntry] == Some(content)
  }

  /** Blank document content is returned as it is, untrimmed, and is not scanned. */
  lemma BlankContentReturnedAsIs(path: string, fs: FileSystem, content: string)
    requires Readable(path, fs, content) && IsBlank(content)
    ensures Extract(Some(path), fs) == Success(content)
  {
  }

  /** Every other document content is reduced to trimmed text. */
  lemma ContentReduced(path: string, fs: FileSystem, content: string)
    requires Readable(path, fs, content) && !IsBlank(content)
    ensures Extract(Some(path), fs) == Success(Reduce(Scan(content)))
    ensures Trimmed(Extract(Some(path), fs).value)
  {
  }

  /** End to end: a document whose markup is built from well-formed parts
      extracts to the reduction of the matches those parts stand for. */
  lemma {:induction false} ExtractDocument(path: string, fs: FileSystem, xs: seq<Part>)
    requires xs != [] && AllWellFormed(xs) && Readable(path, fs, Xml(xs))
    ensures Extract(Some(path), fs) == Success(Reduce(Tokens(xs)))
  {
    XmlNotBlank(xs);
    ContentReduced(path, fs, Xml(xs));
    ScanXml(xs);
  }

  /** A document of paragraphs, each holding one plain run, extracts to the
      paragraphs' trimmed texts joined by one space each, in document order,
      and trimmed once more; with no paragraph at all the content is blank
      and comes back empty. */
  lemma {:induction false} ParagraphsDocument(path: string, fs: FileSystem, attrs: string, texts: seq<string>)
    requires Attributes(attrs)
    requires forall j :: 0 <= j < |texts| ==> Payload(texts[j])
    requires Readable(path, fs, Xml(PlainParagraphs(attrs, texts)))
    ensures Extract(Some(path), fs) == Success(Trim(JoinSpaced(TrimAll(texts))))
  {
    var xs := PlainParagraphs(attrs, texts);
    if texts == [] {
      BlankContentReturnedAsIs(path, fs, Xml(xs));
      assert IsBlank(JoinSpaced(TrimAll(texts)));
    } else {
      PlainParagraphsWellFormed(attrs, texts);
      ExtractDocument(path, fs, xs);
      TokensPlainParagraphs(attrs, texts);
      ParagraphsReduced(texts);
    }
  }

  /** A document of paragraphs written as bare `<w:p>`, each holding one plain
      run, extracts to the trimmed texts run together with no space between
      them: the paragraph branch of the pattern needs whitespace after `w:p`. */
  lemma {:induction false} BareParagraphsDocument(path: string, fs: FileSystem, texts: seq<string>)
    requires forall j :: 0 <= j < |texts| ==> Payload(texts[j])
    requires Readable(path, fs, Xml(BareParagraphs(texts)))
    ensures Extract(Some(path), fs) == Success(Join(TrimAll(texts)))
  {
    var xs := BareParagraphs(texts);
    if texts == [] {
      BlankContentReturnedAsIs(path, fs, Xml(xs));
    } else {
      BareParagraphsWellFormed(texts);
      ExtractDocument(path, fs, xs);
      TokensBareParagraphs(texts);
      PlainRunsReduced(texts);
    }
  }

  /** Two bare paragraphs run together: "Hello" and "World" come out as "HelloWorld". */
  lemma {:induction false} TwoBareParagraphs(path: string, fs: FileSystem, texts: seq<string>)
    requires |texts| == 2 && forall j :: 0 <= j < |texts| ==> Payload(texts[j]) && Trimmed(texts[j])
    requires Readable(path, fs, Xml(BareParagraphs(texts)))
    ensures Extract(Some(path), fs) == Success(texts[0] + texts[1])
  {
    BareParagraphsDocument(path, fs, texts);
    JoinTrimmedPair(texts);
  }

  /** The words of the example. */
  lemma HelloWorldWords(texts: seq<string>)
    requires texts == ["Hello", "World"]
    ensures |texts| == 2 && forall j :: 0 <= j < |texts| ==> Payload(texts[j]) && Trimmed(texts[j])
    ensures texts[0] + texts[1] == "HelloWorld"
  {
  }

  /** "Hello" and "World" in bare paragraphs come out as "HelloWorld". */
  lemma {:induction false} HelloWorldBareParagraphs(path: string, fs: FileSystem, texts: seq<string>)
    requires texts == ["Hello", "World"] && Readable(path, fs, Xml(BareParagraphs(texts)))
    ensures Extract(Some(path), fs) == Success("HelloWorld")
  {
    HelloWorldWords(texts);
    TwoBareParagraphs(path, fs, texts);
  }

  /** Two trimmed texts joined with nothing between them. */
  lemma {:induction false} JoinTrimmedPair(xs: seq<string>)
    requires |xs| == 2 && Trimmed(xs[0]) && Trimmed(xs[1])
    ensures Join(TrimAll(xs)) == xs[0] + xs[1]
  {
    var r := TrimAll(xs);
    JoinPair(r);
    TrimTrimmed(xs[0]);
    TrimTrimmed(xs[1]);
  }

  /** Two strings joined with nothing between them. */
  lemma JoinPair(xs: seq<string>)
    requires |xs| == 2
    ensures Join(xs) == xs[0] + xs[1]
  {
    assert Join(xs[1..]) == xs[1] + Join(xs[1..][1..]);
    assert xs[1..][1..] == [];
    assert Join(xs) == xs[0] + Join(xs[1..]);
  }

  /** A document of one paragraph holding one run, with a capture the pattern
      can produce, extracts to the run's text without its blank margins. */
  lemma {:induction false} RunParagraphDocument(path: string, fs: FileSystem, attrs: string, lead: string, text: string, trail: string, space: string)
    requires Attributes(attrs) && Payload(lead + text + trail)
    requires space == "" || EqualsIgnoreCase(space, "preserve")
    requires IsBlank(lead) && IsBlank(trail) && Trimmed(text)
    requires Readable(path, fs, Xml(Paragraph(attrs, TextRun(lead + text + trail, space))))
    ensures Extract(Some(path), fs) == Success(text)
  {
    var payload := lead + text + trail;
    TextRunWellFormed(payload, space);
    ParagraphWellFormed(attrs, TextRun(payload, space));
    ExtractDocument(path, fs, Paragraph(attrs, TextRun(payload, space)));
    TokensRunParagraph(attrs, payload, space);
    RunParagraphReduced(lead, text, trail, space);
  }

  /** The whitespace document without the preserve attribute: the run's blank
      margins are trimmed off with the run. */
  lemma {:induction false} UnpreservedWhitespaceDocument(path: string, fs: FileSystem, attrs: string, lead: string, text: string, trail: string)
    requires Attributes(attrs) && Payload(lead + text + trail)
    requires IsBlank(lead) && IsBlank(trail) && Trimmed(text)
    requires Readable(path, fs, Xml(Paragraph(attrs, TextRun(lead + text + trail, ""))))
    ensures Extract(Some(path), fs) == Success(text)
  {
    RunParagraphDocument(path, fs, attrs, lead, text, trail, "");
  }

  /** The whitespace document with the preserve attribute: the run keeps its
      margins, but they are the ends of the whole text, which is trimmed. */
  lemma {:induction false} PreservedWhitespaceDocument(path: string, fs: FileSystem, attrs: string, lead: string, text: string, trail: string)
    requires Attributes(attrs) && Payload(lead + text + trail)
    requires IsBlank(lead) && IsBlank(trail) && Trimmed(text)
    requires Readable(path, fs, Xml(Paragraph(attrs, TextRun(lead + text + trail, "preserve"))))
    ensures Extract(Some(path), fs) == Success(text)
  {
    assert EqualsIgnoreCase("preserve", "preserve");
    RunParagraphDocument(path, fs, attrs, lead, text, trail, "preserve");
  }

  /** A paragraph holding one run reduces to the run's text without its blank
      margins, whether the run keeps them or not. */
  lemma {:induction false} RunParagraphReduced(lead: string, text: string, trail: string, space: string)
    requires IsBlank(lead) && IsBlank(trail) && Trimmed(text)
    ensures Reduce([Boundary, Run(lead + text + trail, space)]) == text
  {
    var t := Run(lead + text + trail, space);
    RunAmongBoundaries(1, t.payload, t.space, 0);
    OneBoundaryBefore(t);
    TrimBlankMargins(lead, text, trail);
    TrimTrimmed(text);
  }

  /** One boundary, then a token. */
  lemma OneBoundaryBefore(t: Token)
    ensures Boundaries(1) + [t] + Boundaries(0) == [Boundary, t]
  {
    assert Boundaries(1) == [Boundary] + Boundaries(0);
  }

  /** The formatted document's markup: a paragraph whose run holds two texts
      split by a line break, then a paragraph holding a bold run. */
  function FormattedXml(attrs: string, first: string, second: string, third: string): seq<Part> {
    Paragraph(attrs, BrokenRun(first, second)) + Paragraph(attrs, BoldRun(third))
  }

  /** A run `<w:r><w:t>first</w:t><w:br/><w:t>second</w:t></w:r>` split by a line break. */
  function BrokenRun(first: string, second: string): seq<Part> {
    [OtherTag("w:r")] + ([Element(Run(first, ""))] + ([Element(Boundary)] + ([Element(Run(second, ""))] + [OtherTag("/w:r")])))
  }

  /** The formatted document's markup stands for three paragraphs: the line
      break counts as a paragraph start, and the formatting tags pass. */
  lemma {:induction false} FormattedTokens(attrs: string, first: string, second: string, third: string)
    ensures Tokens(FormattedXml(attrs, first, second, third)) == Paragraphs([first, second, third])
  {
    var body := BrokenRun(first, second);
    TokensAppend(Paragraph(attrs, body), Paragraph(attrs, BoldRun(third)));
    TokensParagraph(attrs, body);
    TokensParagraph(attrs, BoldRun(third));
    TokensBrokenRun(first, second);
    TokensBoldRun(third);
    ParagraphsThree(first, second, third);
  }

  /** A run split by a line break stands for its two texts around a boundary. */
  lemma TokensBrokenRun(first: string, second: string)
    ensures Tokens(BrokenRun(first, second)) == [Run(first, ""), Boundary, Run(second, "")]
  {
    var b4 := [OtherTag("/w:r")];
    var b3 := [Element(Run(second, ""))] + b4;
    var b2 := [Element(Boundary)] + b3;
    var b1 := [Element(Run(first, ""))] + b2;
    TokensTag("/w:r");
    TokensCons(Element(Run(second, "")), b4);
    TokensCons(Element(Boundary), b3);
    TokensCons(Element(Run(first, "")), b2);
    TokensCons(OtherTag("w:r"), b1);
  }

  /** Three paragraphs, spelled out. */
  lemma ParagraphsThree(first: string, second: string, third: string)
    ensures Paragraphs([first, second, third]) == [Boundary, Run(first, ""), Boundary, Run(second, ""), Boundary, Run(third, "")]
  {
    assert Paragraphs([third]) == [Boundary, Run(third, "")] by { assert [third][1..] == []; }
    assert Paragraphs([second, third]) == [Boundary, Run(second, "")] + Paragraphs([third]) by {
      assert [second, third][1..] == [third];
    }
    assert Paragraphs([first, second, third]) == [Boundary, Run(first, "")] + Paragraphs([second, third]) by {
      assert [first, second, third][1..] == [second, third];
    }
  }

  /** The markup of the formatted document is well formed. */
  lemma {:induction false} FormattedWellFormed(attrs: string, first: string, second: string, third: string)
    requires Attributes(attrs) && Payload(first) && Payload(second) && Payload(third)
    ensures AllWellFormed(FormattedXml(attrs, first, second, third))
  {
    var body := BrokenRun(first, second);
    BuilderTagsPassed();
    ParagraphWellFormed(attrs, body);
    BoldRunWellFormed(third);
    ParagraphWellFormed(attrs, BoldRun(third));
    WellFormedAppend(Paragraph(attrs, body), Paragraph(attrs, BoldRun(third)));
  }

  /** The formatted document: a line break inside a paragraph separates like a
      paragraph does, and bold formatting leaves no trace in the text. */
  lemma {:induction false} FormattedDocument(path: string, fs: FileSystem, attrs: string, first: string, second: string, third: string)
    requires Attributes(attrs)
    requires !IsBlank(first) && !IsBlank(second) && !IsBlank(third)
    requires Payload(first) && Payload(second) && Payload(third)
    requires Readable(path, fs, Xml(FormattedXml(attrs, first, second, third)))
    ensures Extract(Some(path), fs) == Success(Trim(first) + " " + Trim(second) + " " + Trim(third))
  {
    FormattedWellFormed(attrs, first, second, third);
    ExtractDocument(path, fs, FormattedXml(attrs, first, second, third));
    FormattedReduced(attrs, first, second, third);
  }

  /** The matches of the formatted document reduce to its three texts, trimmed
      and joined by single spaces. */
  lemma {:induction false} FormattedReduced(attrs: string, first: string, second: string, third: string)
    requires !IsBlank(first) && !IsBlank(second) && !IsBlank(third)
    ensures Reduce(Tokens(FormattedXml(attrs, first, second, third))) == Trim(first) + " " + Trim(second) + " " + Trim(third)
  {
    var texts := [first, second, third];
    FormattedTokens(attrs, first, second, third);
    assert forall j :: 0 <= j < |texts| ==> texts[j] == first || texts[j] == second || texts[j] == third;
    ParagraphsJoinedBySpaces(texts);
    JoinThree(first, second, third);
  }


  /** The tables document: heading paragraphs, then a table; every cell holds
      a paragraph, so the cells come out after the headings, row by row, each
      trimmed and joined by one space, the whole trimmed once more. */
  lemma {:induction false} TablesDocument(path: string, fs: FileSystem, attrs: string, heads: seq<string>, rows: seq<seq<string>>)
    requires Attributes(attrs)
    requires forall j :: 0 <= j < |heads| ==> Payload(heads[j])
    requires forall r, j :: 0 <= r < |rows| && 0 <= j < |rows[r]| ==> Payload(rows[r][j])
    requires Readable(path, fs, Xml(PlainParagraphs(attrs, heads) + Table(attrs, rows)))
    ensures Extract(Some(path), fs) == Success(Trim(JoinSpaced(TrimAll(heads + Flatten(rows)))))
  {
    var xs := PlainParagraphs(attrs, heads) + Table(attrs, rows);
    PlainParagraphsWellFormed(attrs, heads);
    TableWellFormed(attrs, rows);
    WellFormedAppend(PlainParagraphs(attrs, heads), Table(attrs, rows));
    assert xs != [] by { assert xs[|PlainParagraphs(attrs, heads)|] == OtherTag("w:tbl"); }
    ExtractDocument(path, fs, xs);
    TokensAppend(PlainParagraphs(attrs, heads), Table(attrs, rows));
    TokensPlainParagraphs(attrs, heads);
    TokensTable(attrs, rows);
    ParagraphsAppend(heads, Flatten(rows));
    ParagraphsReduced(heads + Flatten(rows));
  }
}
