/**
 * A hand-written scanner that follows the extraction pattern of
 * `TextExtractor.ExtractText`,
 *
 *   (?:(<w:p\s.*?>|<w:br/>)|<w:t(?:(?:\sxml:space="(preserve)")|\s.*?|)>(.*?)<\/w:t>)
 *
 * under `RegexOptions.IgnoreCase`, the way `Regex.Matches` applies it: the
 * leftmost match is taken, alternatives are tried in order, lazy `.*?` grows one
 * character at a time and never crosses a `\n`, and the next search starts
 * where the previous match ended. Case is folded over ASCII letters only.
 */
module Scanner {
  import opened Wrappers
  import opened Text
  import opened Reducer

  /** `lit` occurs at position `p` of `s`, letters compared ignoring case. */
  predicate LiteralAt(s: string, p: int, lit: string) {
    0 <= p && p + |lit| <= |s| && forall i :: 0 <= i < |lit| ==> FoldCase(s[p + i]) == FoldCase(lit[i])
  }

  /** No `\n` among `s[k..e]`: the stretch a `.*?` may consume. */
  predicate NoNewline(s: string, k: int, e: int) {
    0 <= k <= e <= |s| && forall i :: k <= i < e ==> s[i] != '\n'
  }

  /** `.*?` followed by `lit`, started at `k`: the first position at which `lit`
      occurs, provided no newline has to be crossed to reach it. */
  function LazyUntil(s: string, k: nat, lit: string): (r: Option<nat>)
    requires k <= |s|
    ensures r.Some? ==> k <= r.value && r.value + |lit| <= |s|
    decreases |s| - k
  {
    if LiteralAt(s, k, lit) then Some(k)
    else if k == |s| || s[k] == '\n' then None
    else LazyUntil(s, k + 1, lit)
  }

  /** What the lazy search finds is the first occurrence of `lit` reachable
      without crossing a newline, and it finds nothing only when there is none. */
  lemma {:induction false} LazyUntilFirst(s: string, k: nat, lit: string)
    requires k <= |s|
    ensures LazyUntil(s, k, lit).Some? ==>
      var e := LazyUntil(s, k, lit).value;
      LiteralAt(s, e, lit) && NoNewline(s, k, e) && forall v :: k <= v < e ==> !LiteralAt(s, v, lit)
    ensures LazyUntil(s, k, lit).None? ==> forall e :: NoNewline(s, k, e) ==> !LiteralAt(s, e, lit)
    decreases |s| - k
  {
    if !LiteralAt(s, k, lit) && k < |s| && s[k] != '\n' {
      LazyUntilFirst(s, k + 1, lit);
      forall e | NoNewline(s, k, e) && e != k ensures NoNewline(s, k + 1, e) { }
    }
  }

  /** A run the scanner can produce: no newline in its payload, and a preserve
      capture that is either absent or a spelling of "preserve". */
  predicate Captured(t: Token) {
    t.Run? ==> (NoNewline(t.payload, 0, |t.payload|)
                && (t.space == "" || EqualsIgnoreCase(t.space, "preserve")))
  }

  /** `(.*?)<\/w:t>` from position `b`: the run with payload `s[b..e - 6]`, where `e`
      is the position after the closing tag. */
  function PayloadFrom(s: string, b: nat, space: string): (r: Option<(Token, nat)>)
    requires b <= |s|
    ensures r.Some? ==> b + 6 <= r.value.1 <= |s| && r.value.0 == Run(s[b..r.value.1 - 6], space)
  {
    match LazyUntil(s, b, "</w:t>")
    case Some(e) => Some((Run(s[b..e], space), e + 6))
    case None => None
  }

  /** The payload read stops at the first closing tag and never holds a newline. */
  lemma {:induction false} PayloadFromCaptured(s: string, b: nat, space: string)
    requires b <= |s|
    requires space == "" || EqualsIgnoreCase(space, "preserve")
    ensures PayloadFrom(s, b, space).Some? ==>
      Captured(PayloadFrom(s, b, space).value.0) && LiteralAt(s, PayloadFrom(s, b, space).value.1 - 6, "</w:t>")
  {
    LazyUntilFirst(s, b, "</w:t>");
    if LazyUntil(s, b, "</w:t>").Some? {
      var e := LazyUntil(s, b, "</w:t>").value;
      forall i | 0 <= i < e - b ensures s[b..e][i] != '\n' { assert s[b..e][i] == s[b + i]; }
    }
  }

  /** `\s.*?>(.*?)<\/w:t>` after the whitespace, at `k`: each `>` is tried in turn
      as the end of the attributes, backtracking when no closing tag follows it. */
  function AttributesThenPayload(s: string, k: nat): (r: Option<(Token, nat)>)
    requires k <= |s|
    ensures r.Some? ==> k < r.value.1 <= |s| && r.value.0.Run? && r.value.0.space == ""
    decreases |s| - k
  {
    if k < |s| && s[k] == '>' && PayloadFrom(s, k + 1, "").Some? then PayloadFrom(s, k + 1, "")
    else if k == |s| || s[k] == '\n' then None
    else AttributesThenPayload(s, k + 1)
  }

  /** The run read after arbitrary attributes is one the pattern can capture. */
  lemma {:induction false} AttributesThenPayloadCaptured(s: string, k: nat)
    requires k <= |s|
    ensures AttributesThenPayload(s, k).Some? ==> Captured(AttributesThenPayload(s, k).value.0)
    decreases |s| - k
  {
    if k < |s| && s[k] == '>' && PayloadFrom(s, k + 1, "").Some? {
      PayloadFromCaptured(s, k + 1, "");
    } else if k < |s| && s[k] != '\n' {
      AttributesThenPayloadCaptured(s, k + 1);
    }
  }

  /** The preserve attribute as the third alternative's first branch spells it. */
  const PreserveAttribute := "xml:space=\"preserve\""

  /** The first branch's test at `q`: whitespace, the preserve attribute, and `>`. */
  predicate PreserveHeadAt(s: string, q: nat) {
    q + 21 < |s| && IsWhite(s[q]) && LiteralAt(s, q + 1, PreserveAttribute) && s[q + 21] == '>'
  }

  /** The text-run alternative after `<w:t`, at `q`: first `\sxml:space="(preserve)"`,
      then `\s.*?`, then nothing, each followed by `>(.*?)<\/w:t>`. */
  function TextRunAt(s: string, q: nat): (r: Option<(Token, nat)>)
    requires q <= |s|
    ensures r.Some? ==> q < r.value.1 <= |s| && r.value.0.Run?
  {
    var preserved := if PreserveHeadAt(s, q) then PayloadFrom(s, q + 22, s[q + 12..q + 20]) else None;
    if preserved.Some? then preserved
    else if q < |s| && IsWhite(s[q]) then AttributesThenPayload(s, q + 1)
    else if q < |s| && s[q] == '>' then PayloadFrom(s, q + 1, "")
    else None
  }

  /** The capture of a matched preserve attribute spells "preserve". */
  lemma PreserveHeadCapture(s: string, q: nat)
    requires PreserveHeadAt(s, q)
    ensures EqualsIgnoreCase(s[q + 12..q + 20], "preserve")
  {
    forall i | 0 <= i < 8 ensures FoldCase(s[q + 12..q + 20][i]) == FoldCase("preserve"[i]) {
      assert s[q + 12..q + 20][i] == s[q + 1 + (11 + i)];
      assert "preserve"[i] == PreserveAttribute[11 + i];
    }
  }

  /** A text run is one the pattern can capture, and it carries a capture only
      when the first branch matched. */
  lemma {:induction false} TextRunAtCaptured(s: string, q: nat)
    requires q <= |s|
    ensures TextRunAt(s, q).Some? ==> Captured(TextRunAt(s, q).value.0)
    ensures TextRunAt(s, q).Some? && TextRunAt(s, q).value.0.space != "" ==> PreserveHeadAt(s, q)
  {
    if PreserveHeadAt(s, q) {
      PreserveHeadCapture(s, q);
      PayloadFromCaptured(s, q + 22, s[q + 12..q + 20]);
    }
    if q < |s| {
      AttributesThenPayloadCaptured(s, q + 1);
      PayloadFromCaptured(s, q + 1, "");
    }
  }

  /** The paragraph alternative `<w:p\s.*?>` at `p`: where the match ends, if it matches. */
  function ParagraphAt(s: string, p: nat): (r: Option<nat>)
    requires p <= |s|
    ensures r.Some? ==> p < r.value <= |s| && LiteralAt(s, p, "<w:p")
  {
    if LiteralAt(s, p, "<w:p") && p + 4 < |s| && IsWhite(s[p + 4]) then
      match LazyUntil(s, p + 5, ">")
      case Some(k) => Some(k + 1)
      case None => None
    else None
  }

  /** `>` is a literal without case: it is found exactly where it stands. */
  lemma GtLiteral(s: string, v: nat)
    requires v < |s|
    ensures LiteralAt(s, v, ">") <==> s[v] == '>'
  {
    assert FoldCase(">"[0]) == '>';
    if LiteralAt(s, v, ">") {
      assert FoldCase(s[v + 0]) == '>';
    }
  }

  /** A paragraph start ends right after the first `>` that follows `<w:p` and
      its whitespace on the same line; with no such `>`, the alternative fails. */
  lemma {:induction false} ParagraphAtFirstClose(s: string, p: nat)
    requires p <= |s|
    ensures ParagraphAt(s, p).Some? ==>
      var e := ParagraphAt(s, p).value;
      && p + 5 < e && IsWhite(s[p + 4]) && s[e - 1] == '>' && NoNewline(s, p + 5, e - 1)
      && forall v :: p + 5 <= v < e - 1 ==> s[v] != '>'
    ensures LiteralAt(s, p, "<w:p") && p + 4 < |s| && IsWhite(s[p + 4]) && ParagraphAt(s, p).None? ==>
      forall e :: NoNewline(s, p + 5, e) && e < |s| ==> s[e] != '>'
  {
    if LiteralAt(s, p, "<w:p") && p + 4 < |s| && IsWhite(s[p + 4]) {
      var k := p + 5;
      LazyUntilFirst(s, k, ">");
      match LazyUntil(s, k, ">")
      case Some(e) =>
        GtLiteral(s, e);
        forall v | k <= v < e ensures s[v] != '>' { GtLiteral(s, v); }
        assert ParagraphAt(s, p) == Some(e + 1);
      case None =>
        forall e | NoNewline(s, k, e) && e < |s| ensures s[e] != '>' { GtLiteral(s, e); }
    }
  }

  /** The whole pattern tried at position `p`: the token it yields and where the match ends. */
  function MatchAt(s: string, p: nat): (r: Option<(Token, nat)>)
    requires p <= |s|
    ensures r.Some? ==> p < r.value.1 <= |s|
  {
    var paragraph := ParagraphAt(s, p);
    if paragraph.Some? then Some((Boundary, paragraph.value))
    else if LiteralAt(s, p, "<w:br/>") then Some((Boundary, p + 7))
    else if LiteralAt(s, p, "<w:t") then TextRunAt(s, p + 4)
    else None
  }

  /** A match yields a boundary exactly for a paragraph start or a line break,
      and a run only after `<w:t`; every run is one the pattern can capture. */
  lemma {:induction false} MatchAtCaptured(s: string, p: nat)
    requires p <= |s|
    ensures MatchAt(s, p).Some? ==> Captured(MatchAt(s, p).value.0)
    ensures MatchAt(s, p).Some? ==>
      (MatchAt(s, p).value.0.Boundary? <==> LiteralAt(s, p, "<w:p") || LiteralAt(s, p, "<w:br/>"))
    ensures MatchAt(s, p).Some? && MatchAt(s, p).value.0.Run? ==> LiteralAt(s, p, "<w:t")
  {
    if ParagraphAt(s, p).None? && !LiteralAt(s, p, "<w:br/>") && LiteralAt(s, p, "<w:t") {
      TextRunAtCaptured(s, p + 4);
      assert FoldCase(s[p + 3]) == FoldCase("<w:t"[3]);
      NotLiteralAt(s, p, "<w:p", 3);
      NotLiteralAt(s, p, "<w:br/>", 3);
    }
  }

  /** `Regex.Matches` from position `p`: the tokens of the successive leftmost
      matches. Every match consumes input, so there are at most as many matches
      as characters left. */
  function ScanFrom(s: string, p: nat): (r: seq<Token>)
    requires p <= |s|
    ensures |r| <= |s| - p
    decreases |s| - p
  {
    if p == |s| then []
    else
      match MatchAt(s, p)
      case Some((t, e)) => [t] + ScanFrom(s, e)
      case None => ScanFrom(s, p + 1)
  }

  /** Every token scanned is one the pattern can capture. */
  lemma {:induction false} ScanFromCaptured(s: string, p: nat)
    requires p <= |s|
    ensures forall i :: 0 <= i < |ScanFrom(s, p)| ==> Captured(ScanFrom(s, p)[i])
    decreases |s| - p
  {
    if p < |s| {
      MatchAtCaptured(s, p);
      match MatchAt(s, p)
      case Some((t, e)) =>
        ScanFromCaptured(s, e);
        var rest := ScanFrom(s, e);
        assert ScanFrom(s, p) == [t] + rest;
        assert forall i :: 1 <= i < |rest| + 1 ==> ([t] + rest)[i] == rest[i - 1];
      case None =>
        ScanFromCaptured(s, p + 1);
    }
  }

  /** The matches of the extraction pattern in `contents`, in order; never more
      than there are characters. */
  function Scan(contents: string): (r: seq<Token>)
    ensures |r| <= |contents|
  {
    ScanFrom(contents, 0)
  }

  /** Every match is a token the pattern can capture, and a run keeps its
      whitespace exactly when the preserve group took part. */
  lemma {:induction false} ScanCaptured(contents: string)
    ensures forall i :: 0 <= i < |Scan(contents)| ==> Captured(Scan(contents)[i])
    ensures forall i :: 0 <= i < |Scan(contents)| && Scan(contents)[i].Run? ==>
      (Preserves(Scan(contents)[i]) <==> Scan(contents)[i].space != "")
  {
    ScanFromCaptured(contents, 0);
    var ts := Scan(contents);
    forall i | 0 <= i < |ts| && ts[i].Run? ensures Preserves(ts[i]) <==> ts[i].space != "" {
      assert Captured(ts[i]);
    }
  }

  /** `TextExtractor.ExtractText` for contents that are not blank. */
  function ExtractText(contents: string): (r: string)
    ensures Trimmed(r)
    ensures r == [] <==> IsBlank(Accumulate(Scan(contents)))
  {
    Reduce(Scan(contents))
  }

  /** Canonical markup for one token: a line break, or a text element that
      carries the preserve attribute exactly when the run has a capture. */
  function Render(t: Token): string {
    match t
    case Boundary => "<w:br/>"
    case Run(payload, space) =>
      if space == "" then "<w:t>" + payload + "</w:t>"
      else "<w:t xml:space=\"" + space + "\">" + payload + "</w:t>"
  }

  /** A token whose canonical markup the pattern reads back: a payload free of
      markup (`<`) and of newlines, and a capture that the pattern can produce. */
  predicate Renderable(t: Token) {
    t.Run? ==> (forall i :: 0 <= i < |t.payload| ==> t.payload[i] != '<' && t.payload[i] != '\n')
                && (t.space == "" || EqualsIgnoreCase(t.space, "preserve"))
  }

  /** A closing tag reached over characters that are neither `<` nor newline is
      where the lazy payload stops. */
  lemma {:induction false} LazyUntilStopsAtClose(s: string, k: nat, e: nat)
    requires k <= e && LiteralAt(s, e, "</w:t>")
    requires forall i :: k <= i < e ==> s[i] != '<' && s[i] != '\n'
    ensures LazyUntil(s, k, "</w:t>") == Some(e)
  {
    LazyUntilFirst(s, k, "</w:t>");
    assert NoNewline(s, k, e);
    forall v | k <= v < e ensures !LiteralAt(s, v, "</w:t>") {
      NotLiteralAt(s, v, "</w:t>", 0);
    }
  }

  /** The characters of `s` from `p` on spell `r`. */
  predicate SpellsAt(s: string, p: nat, r: string) {
    p + |r| <= |s| && forall i :: 0 <= i < |r| ==> s[p + i] == r[i]
  }

  /** One character that differs, even ignoring case, rules a literal out. */
  lemma NotLiteralAt(s: string, p: nat, lit: string, i: nat)
    requires i < |lit| && p + i < |s| && FoldCase(s[p + i]) != FoldCase(lit[i])
    ensures !LiteralAt(s, p, lit)
  {
  }

  /** One character of a spelling. */
  lemma SpellsAtChar(s: string, p: nat, r: string, i: nat)
    requires SpellsAt(s, p, r) && i < |r|
    ensures s[p + i] == r[i]
  {
  }

  /** A line break rendered at `p` is matched as a boundary. */
  lemma {:induction false} MatchRenderedBreak(s: string, p: nat)
    requires SpellsAt(s, p, "<w:br/>")
    ensures MatchAt(s, p) == Some((Boundary, p + 7))
  {
    SpellsAtChar(s, p, "<w:br/>", 3);
    NotLiteralAt(s, p, "<w:p", 3);
    assert LiteralAt(s, p, "<w:br/>");
  }

  /** A text element rendered at `p` opens the text-run alternative. */
  lemma {:induction false} MatchRenderedRunOpens(s: string, p: nat)
    requires SpellsAt(s, p, "<w:t")
    ensures MatchAt(s, p) == TextRunAt(s, p + 4)
  {
    SpellsAtChar(s, p, "<w:t", 3);
    NotLiteralAt(s, p, "<w:p", 3);
    NotLiteralAt(s, p, "<w:br/>", 3);
    assert LiteralAt(s, p, "<w:t");
  }

  /** A payload free of markup and newlines, followed by the closing tag, is read
      back as the run's payload. */
  lemma {:induction false} PayloadRendered(s: string, b: nat, payload: string, space: string)
    requires forall i :: 0 <= i < |payload| ==> payload[i] != '<' && payload[i] != '\n'
    requires SpellsAt(s, b, payload + "</w:t>")
    ensures PayloadFrom(s, b, space) == Some((Run(payload, space), b + |payload| + 6))
  {
    var n := |payload|;
    var r := payload + "</w:t>";
    assert forall i :: 0 <= i < n ==> s[b + i] == payload[i] by {
      forall i | 0 <= i < n ensures s[b + i] == payload[i] { assert r[i] == payload[i]; }
    }
    assert LiteralAt(s, b + n, "</w:t>") by {
      forall i | 0 <= i < 6 ensures s[b + n + i] == "</w:t>"[i] {
        assert r[n + i] == "</w:t>"[i];
      }
    }
    forall i | b <= i < b + n ensures s[i] != '<' && s[i] != '\n' {
      assert s[b + (i - b)] == payload[i - b];
    }
    LazyUntilStopsAtClose(s, b, b + n);
    assert s[b..b + n] == payload;
  }

  /** A spelling of `a + b` is a spelling of `a` followed by one of `b`. */
  lemma SpellsAtSplit(s: string, p: nat, a: string, b: string)
    requires SpellsAt(s, p, a + b)
    ensures SpellsAt(s, p, a) && SpellsAt(s, p + |a|, b)
  {
    forall i | 0 <= i < |a| ensures s[p + i] == a[i] { assert (a + b)[i] == a[i]; }
    forall i | 0 <= i < |b| ensures s[p + |a| + i] == b[i] { assert (a + b)[|a| + i] == b[i]; }
  }

  /** The third branch: no attributes, the payload right after `>`. */
  lemma TextRunPlain(s: string, q: nat)
    requires q < |s| && s[q] == '>'
    ensures TextRunAt(s, q) == PayloadFrom(s, q + 1, "")
  {
  }

  /** The first branch: the preserve attribute alone, then the payload. */
  lemma TextRunPreserved(s: string, q: nat, space: string)
    requires PreserveHeadAt(s, q) && s[q + 12..q + 20] == space
    requires PayloadFrom(s, q + 22, space).Some?
    ensures TextRunAt(s, q) == PayloadFrom(s, q + 22, space)
  {
  }

  /** The canonical markup of a run without capture, cut where the branches decide. */
  lemma RenderPlain(payload: string)
    ensures Render(Run(payload, "")) == "<w:t" + (">" + (payload + "</w:t>"))
  {
  }

  /** The canonical markup of a run with a capture, cut after its opening tag. */
  lemma RenderPreserved(payload: string, space: string)
    requires space != ""
    ensures Render(Run(payload, space)) == "<w:t xml:space=\"" + space + "\">" + (payload + "</w:t>")
  {
  }

  /** A run without capture rendered at `p` is matched back, through the third branch. */
  lemma {:induction false} MatchRenderedPlain(s: string, p: nat, payload: string)
    requires Renderable(Run(payload, ""))
    requires SpellsAt(s, p, Render(Run(payload, "")))
    ensures MatchAt(s, p) == Some((Run(payload, ""), p + |Render(Run(payload, ""))|))
  {
    var tail := payload + "</w:t>";
    RenderPlain(payload);
    SpellsAtSplit(s, p, "<w:t", ">" + tail);
    SpellsAtSplit(s, p + 4, ">", tail);
    SpellsAtChar(s, p + 4, ">", 0);
    MatchRenderedRunOpens(s, p);
    TextRunPlain(s, p + 4);
    PayloadRendered(s, p + 5, payload, "");
  }

  /** The opening tag of a preserving run starts with the text-run opener. */
  lemma PreservedHeadOpens(space: string)
    ensures "<w:t xml:space=\"" + space + "\">" == "<w:t" + (" xml:space=\"" + space + "\">")
  {
  }

  /** The opening tag of a preserving run, rendered at `p`, passes the first branch. */
  lemma {:induction false} PreservedHeadRendered(s: string, p: nat, space: string)
    requires EqualsIgnoreCase(space, "preserve")
    requires SpellsAt(s, p, "<w:t xml:space=\"" + space + "\">")
    ensures PreserveHeadAt(s, p + 4)
    ensures s[p + 16..p + 24] == space
  {
    var head := "<w:t xml:space=\"" + space + "\">";
    assert s[p + 4] == head[4] == ' ';
    assert s[p + 25] == head[25];
    forall i | 0 <= i < 20 ensures FoldCase(s[p + 5 + i]) == FoldCase(PreserveAttribute[i]) {
      assert s[p + 5 + i] == head[5 + i];
      if 11 <= i < 19 {
        assert head[5 + i] == space[i - 11];
        assert PreserveAttribute[i] == "preserve"[i - 11];
      }
    }
    forall i | 0 <= i < 8 ensures s[p + 16..p + 24][i] == space[i] {
      assert s[p + 16 + i] == head[16 + i];
    }
  }

  /** A run with a preserve capture rendered at `p` is matched back, through the first branch. */
  lemma {:induction false} MatchRenderedPreserved(s: string, p: nat, payload: string, space: string)
    requires space != "" && Renderable(Run(payload, space))
    requires SpellsAt(s, p, Render(Run(payload, space)))
    ensures MatchAt(s, p) == Some((Run(payload, space), p + |Render(Run(payload, space))|))
  {
    var head := "<w:t xml:space=\"" + space + "\">";
    var tail := payload + "</w:t>";
    RenderPreserved(payload, space);
    SpellsAtSplit(s, p, head, tail);
    PreservedHeadOpens(space);
    SpellsAtSplit(s, p, "<w:t", " xml:space=\"" + space + "\">");
    MatchRenderedRunOpens(s, p);
    PreservedHeadRendered(s, p, space);
    PayloadRendered(s, p + 26, payload, space);
    TextRunPreserved(s, p + 4, space);
  }

  /** A lazy `.*?>` started at `k` stops at the first `>`, when no newline
      comes before it. */
  lemma {:induction false} LazyUntilStopsAtGt(s: string, k: nat, e: nat)
    requires k <= e < |s| && s[e] == '>'
    requires forall i :: k <= i < e ==> s[i] != '>' && s[i] != '\n'
    ensures LazyUntil(s, k, ">") == Some(e)
  {
    LazyUntilFirst(s, k, ">");
    GtLiteral(s, e);
    assert NoNewline(s, k, e);
    forall v | k <= v < e ensures !LiteralAt(s, v, ">") {
      GtLiteral(s, v);
    }
  }

  /** A paragraph start `<w:p attrs>` is matched as one boundary, whatever
      attributes it carries on its line. */
  lemma {:induction false} MatchRenderedParagraph(s: string, p: nat, attrs: string)
    requires forall i :: 0 <= i < |attrs| ==> attrs[i] != '>' && attrs[i] != '\n'
    requires SpellsAt(s, p, "<w:p " + attrs + ">")
    ensures MatchAt(s, p) == Some((Boundary, p + |attrs| + 6))
  {
    var m, n := "<w:p " + attrs + ">", |attrs|;
    assert LiteralAt(s, p, "<w:p") by {
      forall i | 0 <= i < 4 ensures s[p + i] == "<w:p"[i] {
        assert m[i] == "<w:p"[i];
      }
    }
    assert s[p + 4] == m[4] == ' ';
    assert s[p + 5 + n] == m[5 + n] == '>';
    forall i | p + 5 <= i < p + 5 + n ensures s[i] != '>' && s[i] != '\n' {
      assert s[p + (i - p)] == m[i - p] == attrs[i - p - 5];
    }
    LazyUntilStopsAtGt(s, p + 5, p + 5 + n);
  }

  /** Every alternative of the pattern starts with `<`: nothing matches elsewhere. */
  lemma NoMatchOffMarkup(s: string, p: nat)
    requires p < |s| && s[p] != '<'
    ensures MatchAt(s, p).None?
  {
    NotLiteralAt(s, p, "<w:p", 0);
    NotLiteralAt(s, p, "<w:br/>", 0);
    NotLiteralAt(s, p, "<w:t", 0);
  }

  /** The pattern, tried where a rendered token starts, matches exactly that
      token's markup and yields the token back. */
  lemma {:induction false} MatchRendered(s: string, p: nat, t: Token)
    requires Renderable(t)
    requires SpellsAt(s, p, Render(t))
    ensures MatchAt(s, p) == Some((t, p + |Render(t)|))
  {
    if t.Boundary? {
      MatchRenderedBreak(s, p);
    } else if t.space == "" {
      MatchRenderedPlain(s, p, t.payload);
    } else {
      MatchRenderedPreserved(s, p, t.payload, t.space);
    }
  }

  /** A suffix that starts with `r` spells `r` and continues with the rest. */
  lemma SuffixSplit(s: string, p: nat, r: string, rest: string)
    requires p <= |s| && s[p..] == r + rest
    ensures SpellsAt(s, p, r) && s[p + |r|..] == rest
  {
    forall i | 0 <= i < |r| ensures s[p + i] == r[i] { assert s[p..][i] == s[p + i]; }
    assert s[p + |r|..] == s[p..][|r|..];
  }

  /** A match at `p` is the first token scanned from `p`. */
  lemma ScanFromMatch(s: string, p: nat, t: Token, e: nat)
    requires p <= |s| && MatchAt(s, p) == Some((t, e))
    ensures ScanFrom(s, p) == [t] + ScanFrom(s, e)
  {
  }

  /** Nothing is scanned at the end of the input. */
  lemma ScanFromEnd(s: string, p: nat)
    requires p <= |s| && s[p..] == []
    ensures ScanFrom(s, p) == []
  {
    assert p == |s|;
  }
}
