/**
 * Word-processing markup as the extraction pattern meets it: paragraph starts
 * `<w:p …>`, the elements it matches (`<w:br/>` and `w:t` text elements), and
 * every other tag, which it passes over. The round trip below shows that the
 * scanner finds in such markup exactly the matches its parts stand for, and
 * the builders spell the paragraph, run and table structure of a document.
 */
module Document {
  import opened Wrappers
  import opened Text
  import opened Reducer
  import opened Scanner

  /** One piece of markup. `ParagraphStart(attrs)` is `<w:p attrs>`;
      `Element(t)` is `<w:br/>` for a boundary and a `w:t` element for a run;
      `OtherTag(name)` is `<name>`, such as `<w:r>` or `</w:p>`. */
  datatype Part = ParagraphStart(attrs: string) | Element(t: Token) | OtherTag(name: string)

  /** The markup of one part. */
  function PartXml(x: Part): string {
    match x
    case ParagraphStart(attrs) => "<w:p " + attrs + ">"
    case Element(t) => Render(t)
    case OtherTag(name) => "<" + name + ">"
  }

  /** The markup of a sequence of parts, one after another. */
  function Xml(xs: seq<Part>): string {
    if xs == [] then "" else PartXml(xs[0]) + Xml(xs[1..])
  }

  /** The matches a part stands for: a boundary for a paragraph start, the
      token of an element, nothing for another tag. */
  function Yield(x: Part): seq<Token> {
    match x
    case ParagraphStart(_) => [Boundary]
    case Element(t) => [t]
    case OtherTag(_) => []
  }

  /** The matches a sequence of parts stands for, in order. */
  function Tokens(xs: seq<Part>): seq<Token> {
    if xs == [] then [] else Yield(xs[0]) + Tokens(xs[1..])
  }

  /** A tag name the pattern passes over: no `<`, `>` or newline in it, and it
      is a closing tag, or its third character rules out `<w:p`, `<w:br/>` and
      `<w:t` (`w:r`, `w:rPr`), or it is `w:p` or `w:b` alone (a bare `<w:p>`
      lacks the whitespace the paragraph branch needs), or it continues
      `w:p`/`w:t` without whitespace (`w:pPr`, `w:tbl`, `w:tr`, `w:tc`), or it
      continues `w:b` with anything but `r` (`w:b/`, `w:body`). */
  predicate Passed(name: string) {
    && |name| >= 3
    && (forall i :: 0 <= i < |name| ==> name[i] != '<' && name[i] != '>' && name[i] != '\n')
    && (|| name[0] == '/'
        || (FoldCase(name[2]) != 'p' && FoldCase(name[2]) != 'b' && FoldCase(name[2]) != 't')
        || (|name| == 3 && (FoldCase(name[2]) == 'p' || FoldCase(name[2]) == 'b'))
        || (|name| >= 4 && (FoldCase(name[2]) == 'p' || FoldCase(name[2]) == 't') && !IsWhite(name[3]))
        || (|name| >= 4 && FoldCase(name[2]) == 'b' && FoldCase(name[3]) != 'r'))
  }

  /** A part whose markup reads back as the matches it stands for: paragraph
      attributes on one line without `>`, a renderable element, a passed tag. */
  predicate WellFormed(x: Part) {
    match x
    case ParagraphStart(attrs) => Attributes(attrs)
    case Element(t) => Renderable(t)
    case OtherTag(name) => Passed(name)
  }

  /** Attributes of a paragraph start: one line, and no `>` before the tag closes. */
  predicate Attributes(attrs: string) {
    forall i :: 0 <= i < |attrs| ==> attrs[i] != '>' && attrs[i] != '\n'
  }

  /** Text a run can hold: no markup (`<`) and no newline. */
  predicate Payload(text: string) {
    forall i :: 0 <= i < |text| ==> text[i] != '<' && text[i] != '\n'
  }

  /** Every part is well formed. */
  predicate AllWellFormed(xs: seq<Part>) {
    forall i :: 0 <= i < |xs| ==> WellFormed(xs[i])
  }

  /** Every part is well formed, stated one part at a time. */
  predicate EachWellFormed(xs: seq<Part>) {
    xs == [] || (WellFormed(xs[0]) && EachWellFormed(xs[1..]))
  }

  /** The recursive statement agrees with the quantified one. */
  lemma {:induction false} AllWellFormedEach(xs: seq<Part>)
    requires AllWellFormed(xs)
    ensures EachWellFormed(xs)
    decreases |xs|
  {
    if xs != [] {
      var rest := xs[1..];
      forall i | 0 <= i < |rest| ensures WellFormed(rest[i]) { assert rest[i] == xs[i + 1]; }
      AllWellFormedEach(rest);
    }
  }

  /** The pattern does not match where a passed tag starts. */
  lemma {:induction false} PassedNoMatch(s: string, p: nat, name: string)
    requires Passed(name) && SpellsAt(s, p, "<" + name + ">")
    ensures MatchAt(s, p).None?
  {
    var m := "<" + name + ">";
    assert s[p + 1] == m[1] == name[0];
    assert s[p + 3] == m[3] == name[2];
    assert s[p + 4] == m[4];
    if name[0] == '/' {
      NotLiteralAt(s, p, "<w:p", 1);
      NotLiteralAt(s, p, "<w:br/>", 1);
      NotLiteralAt(s, p, "<w:t", 1);
    } else {
      var c := FoldCase(name[2]);
      if c != 'p' {
        NotLiteralAt(s, p, "<w:p", 3);
      } else if |name| == 3 {
        assert m[4] == '>' && !IsWhite(s[p + 4]);
      } else {
        assert m[4] == name[3] && !IsWhite(s[p + 4]);
      }
      if c != 'b' {
        NotLiteralAt(s, p, "<w:br/>", 3);
      } else {
        if |name| == 3 { assert m[4] == '>'; } else { assert m[4] == name[3]; }
        NotLiteralAt(s, p, "<w:br/>", 4);
      }
      if c != 't' {
        NotLiteralAt(s, p, "<w:t", 3);
      } else {
        assert m[4] == name[3] && !IsWhite(s[p + 4]) && s[p + 4] != '>';
      }
    }
  }

  /** No `<` from `q` up to `e`, stated one character at a time. */
  predicate NoOpen(s: string, q: nat, e: nat)
    requires q <= e <= |s|
    decreases e - q
  {
    q == e || (s[q] != '<' && NoOpen(s, q + 1, e))
  }

  /** The recursive statement follows from the quantified one. */
  lemma {:induction false} NoOpenEach(s: string, q: nat, e: nat)
    requires q <= e <= |s|
    requires forall k :: q <= k < e ==> s[k] != '<'
    ensures NoOpen(s, q, e)
    decreases e - q
  {
    if q < e {
      NoOpenEach(s, q + 1, e);
    }
  }

  /** A stretch without `<` holds no match: the scan resumes after it. */
  lemma {:induction false} ScanSkips(s: string, q: nat, e: nat)
    requires q <= e <= |s| && NoOpen(s, q, e)
    ensures ScanFrom(s, q) == ScanFrom(s, e)
    decreases e - q
  {
    if q < e {
      NoMatchOffMarkup(s, q);
      ScanSkips(s, q + 1, e);
    }
  }

  /** Where nothing matches, the scan moves on by one character. */
  lemma ScanFromNoMatch(s: string, p: nat)
    requires p < |s| && MatchAt(s, p).None?
    ensures ScanFrom(s, p) == ScanFrom(s, p + 1)
  {
  }

  /** After its opening `<`, a passed tag holds no `<`. */
  lemma {:induction false} PassedInterior(s: string, p: nat, name: string)
    requires Passed(name) && SpellsAt(s, p, "<" + name + ">")
    ensures p + |name| + 2 <= |s| && NoOpen(s, p + 1, p + |name| + 2)
  {
    var m := "<" + name + ">";
    forall k | p + 1 <= k < p + |name| + 2 ensures s[k] != '<' {
      var j := k - p;
      assert s[p + j] == m[j];
      if j <= |name| {
        assert m[j] == name[j - 1];
      } else {
        assert m[j] == '>';
      }
    }
    NoOpenEach(s, p + 1, p + |name| + 2);
  }

  /** A well-formed part at the head of the input from `p` yields its
      matches, and the scan resumes where what follows it starts. */
  lemma {:induction false} ScanFromPartPrefix(s: string, p: nat, x: Part, rest: string)
    requires WellFormed(x) && p <= |s| && s[p..] == PartXml(x) + rest
    ensures p + |PartXml(x)| <= |s| && s[p + |PartXml(x)|..] == rest
    ensures ScanFrom(s, p) == Yield(x) + ScanFrom(s, p + |PartXml(x)|)
  {
    SuffixSplit(s, p, PartXml(x), rest);
    ScanFromPart(s, p, x);
  }

  /** A well-formed part spelled at `p` yields its matches, and the scan
      resumes right after it. */
  lemma {:induction false} ScanFromPart(s: string, p: nat, x: Part)
    requires WellFormed(x) && SpellsAt(s, p, PartXml(x))
    ensures ScanFrom(s, p) == Yield(x) + ScanFrom(s, p + |PartXml(x)|)
  {
    if x.ParagraphStart? {
      ScanFromParagraphStart(s, p, x);
    } else if x.Element? {
      ScanFromElement(s, p, x);
    } else {
      ScanFromOtherTag(s, p, x);
    }
  }

  /** A paragraph start at `p` is the first match scanned from `p`. */
  lemma {:induction false} ScanFromParagraphStart(s: string, p: nat, x: Part)
    requires x.ParagraphStart? && WellFormed(x) && SpellsAt(s, p, PartXml(x))
    ensures ScanFrom(s, p) == Yield(x) + ScanFrom(s, p + |PartXml(x)|)
  {
    MatchParagraphStart(s, p, x);
    ScanFromMatch(s, p, Boundary, p + |PartXml(x)|);
  }

  /** The pattern matches a paragraph start as a boundary. */
  lemma {:induction false} MatchParagraphStart(s: string, p: nat, x: Part)
    requires x.ParagraphStart? && WellFormed(x) && SpellsAt(s, p, PartXml(x))
    ensures MatchAt(s, p) == Some((Boundary, p + |PartXml(x)|))
    ensures Yield(x) == [Boundary]
  {
    assert PartXml(x) == "<w:p " + x.attrs + ">";
    MatchRenderedParagraph(s, p, x.attrs);
  }

  /** A matched element at `p` is the first match scanned from `p`. */
  lemma {:induction false} ScanFromElement(s: string, p: nat, x: Part)
    requires x.Element? && WellFormed(x) && SpellsAt(s, p, PartXml(x))
    ensures ScanFrom(s, p) == Yield(x) + ScanFrom(s, p + |PartXml(x)|)
  {
    MatchElement(s, p, x);
    ScanFromMatch(s, p, x.t, p + |PartXml(x)|);
  }

  /** The pattern matches an element as the token it renders. */
  lemma {:induction false} MatchElement(s: string, p: nat, x: Part)
    requires x.Element? && WellFormed(x) && SpellsAt(s, p, PartXml(x))
    ensures MatchAt(s, p) == Some((x.t, p + |PartXml(x)|))
    ensures Yield(x) == [x.t]
  {
    assert PartXml(x) == Render(x.t);
    MatchRendered(s, p, x.t);
  }

  /** Another tag at `p` yields nothing: the scan resumes after it. */
  lemma {:induction false} ScanFromOtherTag(s: string, p: nat, x: Part)
    requires x.OtherTag? && WellFormed(x) && SpellsAt(s, p, PartXml(x))
    ensures ScanFrom(s, p) == Yield(x) + ScanFrom(s, p + |PartXml(x)|)
  {
    OtherTagPassed(s, p, x);
    SkipsTag(s, p, p + |PartXml(x)|);
  }

  /** The pattern matches nowhere in another tag. */
  lemma {:induction false} OtherTagPassed(s: string, p: nat, x: Part)
    requires x.OtherTag? && WellFormed(x) && SpellsAt(s, p, PartXml(x))
    ensures p < p + |PartXml(x)| <= |s| && MatchAt(s, p).None?
    ensures NoOpen(s, p + 1, p + |PartXml(x)|)
    ensures Yield(x) == []
  {
    assert PartXml(x) == "<" + x.name + ">";
    PassedNoMatch(s, p, x.name);
    PassedInterior(s, p, x.name);
  }

  /** A tag with no match where it starts and no `<` after that yields nothing. */
  lemma {:induction false} SkipsTag(s: string, p: nat, e: nat)
    requires p < e <= |s| && MatchAt(s, p).None? && NoOpen(s, p + 1, e)
    ensures ScanFrom(s, p) == ScanFrom(s, e)
  {
    ScanFromNoMatch(s, p);
    ScanSkips(s, p + 1, e);
  }

  /** The markup of a non-empty sequence starts with its first part's markup. */
  lemma XmlHead(xs: seq<Part>)
    requires xs != []
    ensures Xml(xs) == PartXml(xs[0]) + Xml(xs[1..])
  {
  }

  /** The matches of a non-empty sequence start with its first part's. */
  lemma TokensHead(xs: seq<Part>)
    requires xs != []
    ensures Tokens(xs) == Yield(xs[0]) + Tokens(xs[1..])
  {
  }

  /** Scanning well-formed markup from where it starts yields its parts' matches. */
  lemma {:induction false} ScanFromXml(s: string, p: nat, xs: seq<Part>)
    requires EachWellFormed(xs)
    requires p <= |s| && s[p..] == Xml(xs)
    ensures ScanFrom(s, p) == Tokens(xs)
    decreases |xs|
  {
    if xs == [] {
      ScanFromEnd(s, p);
    } else {
      var x, rest := xs[0], xs[1..];
      var q := p + |PartXml(x)|;
      XmlHead(xs);
      ScanFromPartPrefix(s, p, x, Xml(rest));
      ScanFromXml(s, q, rest);
      TokensHead(xs);
      assert ScanFrom(s, p) == Yield(x) + Tokens(rest);
    }
  }

  /** Round trip: the scanner finds in well-formed markup exactly the matches
      its parts stand for, in order. */
  lemma {:induction false} ScanXml(xs: seq<Part>)
    requires AllWellFormed(xs)
    ensures Scan(Xml(xs)) == Tokens(xs)
  {
    var m := Xml(xs);
    assert m[0..] == m;
    AllWellFormedEach(xs);
    ScanFromXml(m, 0, xs);
  }

  /** Extraction from well-formed markup reduces the matches its parts stand for. */
  lemma {:induction false} ExtractTextOfXml(xs: seq<Part>)
    requires AllWellFormed(xs)
    ensures ExtractText(Xml(xs)) == Reduce(Tokens(xs))
  {
    ScanXml(xs);
  }

  /** The markup of at least one part starts with `<`, so it is never blank. */
  lemma {:induction false} XmlNotBlank(xs: seq<Part>)
    requires xs != []
    ensures !IsBlank(Xml(xs))
  {
    XmlHead(xs);
    var x := xs[0];
    assert PartXml(x)[0] == '<';
    assert Xml(xs)[0] == '<';
  }

  /** The matches of two sequences of parts, one after the other. */
  lemma {:induction false} TokensAppend(a: seq<Part>, b: seq<Part>)
    ensures Tokens(a + b) == Tokens(a) + Tokens(b)
    decreases |a|
  {
    if a == [] {
      assert a + b == b;
    } else {
      assert (a + b)[0] == a[0];
      assert (a + b)[1..] == a[1..] + b;
      TokensAppend(a[1..], b);
    }
  }

  /** Two sequences of parts are well formed together exactly when each is. */
  lemma WellFormedAppend(a: seq<Part>, b: seq<Part>)
    ensures AllWellFormed(a + b) <==> AllWellFormed(a) && AllWellFormed(b)
  {
    if AllWellFormed(a + b) {
      forall i | 0 <= i < |a| ensures WellFormed(a[i]) { assert a[i] == (a + b)[i]; }
      forall i | 0 <= i < |b| ensures WellFormed(b[i]) { assert b[i] == (a + b)[|a| + i]; }
    }
  }

  /** A run `<w:r><w:t …>text</w:t></w:r>`. */
  function TextRun(text: string, space: string): seq<Part> {
    [OtherTag("w:r"), Element(Run(text, space)), OtherTag("/w:r")]
  }

  /** A bold run `<w:r><w:rPr><w:b/></w:rPr><w:t>text</w:t></w:r>`. */
  function BoldRun(text: string): seq<Part> {
    [OtherTag("w:r"), OtherTag("w:rPr"), OtherTag("w:b/"), OtherTag("/w:rPr"), Element(Run(text, "")), OtherTag("/w:r")]
  }

  /** A paragraph `<w:p attrs>body</w:p>`. */
  function Paragraph(attrs: string, body: seq<Part>): seq<Part> {
    [ParagraphStart(attrs)] + body + [OtherTag("/w:p")]
  }

  /** One paragraph per text, each written as a bare `<w:p>` holding one plain run. */
  function BareParagraphs(texts: seq<string>): seq<Part>
    decreases |texts|
  {
    if texts == [] then []
    else [OtherTag("w:p")] + TextRun(texts[0], "") + [OtherTag("/w:p")] + BareParagraphs(texts[1..])
  }

  /** One paragraph per text, each holding one plain run. */
  function PlainParagraphs(attrs: string, texts: seq<string>): seq<Part>
    decreases |texts|
  {
    if texts == [] then [] else Paragraph(attrs, TextRun(texts[0], "")) + PlainParagraphs(attrs, texts[1..])
  }

  /** The cells of a table row `<w:tc>…</w:tc>`, each holding one plain paragraph. */
  function Cells(attrs: string, texts: seq<string>): seq<Part>
    decreases |texts|
  {
    if texts == [] then []
    else [OtherTag("w:tc")] + Paragraph(attrs, TextRun(texts[0], "")) + [OtherTag("/w:tc")] + Cells(attrs, texts[1..])
  }

  /** The rows of a table, `<w:tr>` cells `</w:tr>` each. */
  function TableRows(attrs: string, rows: seq<seq<string>>): seq<Part>
    decreases |rows|
  {
    if rows == [] then [] else [OtherTag("w:tr")] + Cells(attrs, rows[0]) + [OtherTag("/w:tr")] + TableRows(attrs, rows[1..])
  }

  /** A table `<w:tbl>` rows `</w:tbl>`. */
  function Table(attrs: string, rows: seq<seq<string>>): seq<Part> {
    [OtherTag("w:tbl")] + TableRows(attrs, rows) + [OtherTag("/w:tbl")]
  }

  /** The cell texts of a table, row by row. */
  function Flatten(rows: seq<seq<string>>): seq<string> {
    if rows == [] then [] else rows[0] + Flatten(rows[1..])
  }

  /** A tag stands for no match. */
  lemma TokensTag(name: string)
    ensures Tokens([OtherTag(name)]) == []
  {
  }

  /** A run stands for its text element alone. */
  lemma {:induction false} TokensTextRun(text: string, space: string)
    ensures Tokens(TextRun(text, space)) == [Run(text, space)]
  {
    var xs := TextRun(text, space);
    assert xs[1..][1..][1..] == [];
    assert Tokens(xs[1..][1..]) == [];
  }

  /** A bold run stands for its text element alone: the formatting tags pass. */
  lemma {:induction false} TokensBoldRun(text: string)
    ensures Tokens(BoldRun(text)) == [Run(text, "")]
  {
    var t := Run(text, "");
    var x5 := [OtherTag("/w:r")];
    var x4 := [Element(t)] + x5;
    var x3 := [OtherTag("/w:rPr")] + x4;
    var x2 := [OtherTag("w:b/")] + x3;
    var x1 := [OtherTag("w:rPr")] + x2;
    TokensTag("/w:r");
    TokensCons(Element(t), x5);
    TokensCons(OtherTag("/w:rPr"), x4);
    TokensCons(OtherTag("w:b/"), x3);
    TokensCons(OtherTag("w:rPr"), x2);
    TokensCons(OtherTag("w:r"), x1);
    assert BoldRun(text) == [OtherTag("w:r")] + x1;
  }

  /** The matches of one part followed by more. */
  lemma TokensCons(x: Part, xs: seq<Part>)
    ensures Tokens([x] + xs) == Yield(x) + Tokens(xs)
  {
    assert ([x] + xs)[1..] == xs;
  }

  /** A paragraph stands for a boundary followed by its body's matches. */
  lemma {:induction false} TokensParagraph(attrs: string, body: seq<Part>)
    ensures Tokens(Paragraph(attrs, body)) == [Boundary] + Tokens(body)
  {
    TokensAppend([ParagraphStart(attrs)] + body, [OtherTag("/w:p")]);
    TokensAppend([ParagraphStart(attrs)], body);
    TokensTag("/w:p");
  }

  /** A paragraph holding one run stands for a boundary and the run. */
  lemma {:induction false} TokensRunParagraph(attrs: string, text: string, space: string)
    ensures Tokens(Paragraph(attrs, TextRun(text, space))) == [Boundary, Run(text, space)]
  {
    TokensParagraph(attrs, TextRun(text, space));
    TokensTextRun(text, space);
  }

  /** Plain paragraphs stand for one boundary and one plain run per text. */
  lemma {:induction false} TokensPlainParagraphs(attrs: string, texts: seq<string>)
    ensures Tokens(PlainParagraphs(attrs, texts)) == Paragraphs(texts)
    decreases |texts|
  {
    if texts != [] {
      TokensAppend(Paragraph(attrs, TextRun(texts[0], "")), PlainParagraphs(attrs, texts[1..]));
      TokensRunParagraph(attrs, texts[0], "");
      TokensPlainParagraphs(attrs, texts[1..]);
    }
  }

  /** Bare paragraphs stand for their runs alone: `<w:p>` is no paragraph start
      to the pattern, so no boundary separates the texts. */
  lemma {:induction false} TokensBareParagraphs(texts: seq<string>)
    ensures Tokens(BareParagraphs(texts)) == PlainRuns(texts)
    decreases |texts|
  {
    if texts != [] {
      var open, run, close := [OtherTag("w:p")], TextRun(texts[0], ""), [OtherTag("/w:p")];
      var rest := BareParagraphs(texts[1..]);
      TokensAppend(open + run + close, rest);
      TokensAppend(open + run, close);
      TokensAppend(open, run);
      TokensTag("w:p");
      TokensTag("/w:p");
      TokensTextRun(texts[0], "");
      TokensBareParagraphs(texts[1..]);
    }
  }

  /** The cells of a row stand for one paragraph per cell: the cell tags pass. */
  lemma {:induction false} TokensCells(attrs: string, texts: seq<string>)
    ensures Tokens(Cells(attrs, texts)) == Paragraphs(texts)
    decreases |texts|
  {
    if texts != [] {
      var open, para, close := [OtherTag("w:tc")], Paragraph(attrs, TextRun(texts[0], "")), [OtherTag("/w:tc")];
      var rest := Cells(attrs, texts[1..]);
      TokensAppend(open + para + close, rest);
      TokensAppend(open + para, close);
      TokensAppend(open, para);
      TokensTag("w:tc");
      TokensTag("/w:tc");
      TokensRunParagraph(attrs, texts[0], "");
      TokensCells(attrs, texts[1..]);
    }
  }

  /** The rows of a table stand for one paragraph per cell, row by row. */
  lemma {:induction false} TokensTableRows(attrs: string, rows: seq<seq<string>>)
    ensures Tokens(TableRows(attrs, rows)) == Paragraphs(Flatten(rows))
    decreases |rows|
  {
    if rows != [] {
      var open, cells, close := [OtherTag("w:tr")], Cells(attrs, rows[0]), [OtherTag("/w:tr")];
      var rest := TableRows(attrs, rows[1..]);
      TokensAppend(open + cells + close, rest);
      TokensAppend(open + cells, close);
      TokensAppend(open, cells);
      TokensTag("w:tr");
      TokensTag("/w:tr");
      TokensCells(attrs, rows[0]);
      TokensTableRows(attrs, rows[1..]);
      ParagraphsAppend(rows[0], Flatten(rows[1..]));
    }
  }

  /** A table stands for one paragraph per cell, row by row. */
  lemma {:induction false} TokensTable(attrs: string, rows: seq<seq<string>>)
    ensures Tokens(Table(attrs, rows)) == Paragraphs(Flatten(rows))
  {
    var open, body, close := [OtherTag("w:tbl")], TableRows(attrs, rows), [OtherTag("/w:tbl")];
    TokensAppend(open + body, close);
    TokensAppend(open, body);
    TokensTag("w:tbl");
    TokensTag("/w:tbl");
    TokensTableRows(attrs, rows);
  }

  /** The tags the builders use are passed over. */
  lemma BuilderTagsPassed()
    ensures Passed("w:r") && Passed("/w:r") && Passed("w:rPr") && Passed("w:b/") && Passed("/w:rPr")
    ensures Passed("/w:p") && Passed("w:tc") && Passed("/w:tc") && Passed("w:tr") && Passed("/w:tr")
    ensures Passed("w:tbl") && Passed("/w:tbl") && Passed("w:p")
  {
  }

  /** A run of text a run can hold, with a capture the pattern can produce, is well formed. */
  lemma TextRunWellFormed(text: string, space: string)
    requires Payload(text) && (space == "" || EqualsIgnoreCase(space, "preserve"))
    ensures AllWellFormed(TextRun(text, space))
  {
    BuilderTagsPassed();
  }

  /** A bold run of text a run can hold is well formed. */
  lemma BoldRunWellFormed(text: string)
    requires Payload(text)
    ensures AllWellFormed(BoldRun(text))
  {
    BuilderTagsPassed();
  }

  /** A paragraph with one-line attributes around a well-formed body is well formed. */
  lemma {:induction false} ParagraphWellFormed(attrs: string, body: seq<Part>)
    requires Attributes(attrs) && AllWellFormed(body)
    ensures AllWellFormed(Paragraph(attrs, body))
  {
    BuilderTagsPassed();
    WellFormedAppend([ParagraphStart(attrs)], body);
    WellFormedAppend([ParagraphStart(attrs)] + body, [OtherTag("/w:p")]);
  }

  /** A plain paragraph of text a run can hold is well formed. */
  lemma {:induction false} RunParagraphWellFormed(attrs: string, text: string)
    requires Attributes(attrs) && Payload(text)
    ensures AllWellFormed(Paragraph(attrs, TextRun(text, "")))
  {
    TextRunWellFormed(text, "");
    ParagraphWellFormed(attrs, TextRun(text, ""));
  }

  /** Plain paragraphs of texts runs can hold are well formed. */
  lemma {:induction false} PlainParagraphsWellFormed(attrs: string, texts: seq<string>)
    requires Attributes(attrs) && forall j :: 0 <= j < |texts| ==> Payload(texts[j])
    ensures AllWellFormed(PlainParagraphs(attrs, texts))
    decreases |texts|
  {
    if texts != [] {
      RunParagraphWellFormed(attrs, texts[0]);
      PlainParagraphsWellFormed(attrs, texts[1..]);
      WellFormedAppend(Paragraph(attrs, TextRun(texts[0], "")), PlainParagraphs(attrs, texts[1..]));
    }
  }

  /** Bare paragraphs of texts runs can hold are well formed. */
  lemma {:induction false} BareParagraphsWellFormed(texts: seq<string>)
    requires forall j :: 0 <= j < |texts| ==> Payload(texts[j])
    ensures AllWellFormed(BareParagraphs(texts))
    decreases |texts|
  {
    if texts != [] {
      var open, run, close := [OtherTag("w:p")], TextRun(texts[0], ""), [OtherTag("/w:p")];
      BuilderTagsPassed();
      TextRunWellFormed(texts[0], "");
      BareParagraphsWellFormed(texts[1..]);
      WellFormedAppend(open, run);
      WellFormedAppend(open + run, close);
      WellFormedAppend(open + run + close, BareParagraphs(texts[1..]));
    }
  }

  /** The cells of a row of texts runs can hold are well formed. */
  lemma {:induction false} CellsWellFormed(attrs: string, texts: seq<string>)
    requires Attributes(attrs) && forall j :: 0 <= j < |texts| ==> Payload(texts[j])
    ensures AllWellFormed(Cells(attrs, texts))
    decreases |texts|
  {
    if texts != [] {
      var open, para, close := [OtherTag("w:tc")], Paragraph(attrs, TextRun(texts[0], "")), [OtherTag("/w:tc")];
      BuilderTagsPassed();
      RunParagraphWellFormed(attrs, texts[0]);
      CellsWellFormed(attrs, texts[1..]);
      WellFormedAppend(open, para);
      WellFormedAppend(open + para, close);
      WellFormedAppend(open + para + close, Cells(attrs, texts[1..]));
    }
  }

  /** The rows of a table of texts runs can hold are well formed. */
  lemma {:induction false} TableRowsWellFormed(attrs: string, rows: seq<seq<string>>)
    requires Attributes(attrs)
    requires forall r, j :: 0 <= r < |rows| && 0 <= j < |rows[r]| ==> Payload(rows[r][j])
    ensures AllWellFormed(TableRows(attrs, rows))
    decreases |rows|
  {
    if rows != [] {
      var open, cells, close := [OtherTag("w:tr")], Cells(attrs, rows[0]), [OtherTag("/w:tr")];
      BuilderTagsPassed();
      CellsWellFormed(attrs, rows[0]);
      TableRowsWellFormed(attrs, rows[1..]);
      WellFormedAppend(open, cells);
      WellFormedAppend(open + cells, close);
      WellFormedAppend(open + cells + close, TableRows(attrs, rows[1..]));
    }
  }

  /** A table of texts runs can hold is well formed. */
  lemma {:induction false} TableWellFormed(attrs: string, rows: seq<seq<string>>)
    requires Attributes(attrs)
    requires forall r, j :: 0 <= r < |rows| && 0 <= j < |rows[r]| ==> Payload(rows[r][j])
    ensures AllWellFormed(Table(attrs, rows))
  {
    var open, body, close := [OtherTag("w:tbl")], TableRows(attrs, rows), [OtherTag("/w:tbl")];
    BuilderTagsPassed();
    TableRowsWellFormed(attrs, rows);
    WellFormedAppend(open, body);
    WellFormedAppend(open + body, close);
  }
}
