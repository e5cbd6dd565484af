/**
 * The text reducer of `TextExtractor.ExtractText`: every regex match is a
 * token, each token contributes one piece to an append-only accumulator in
 * match order, and the accumulator is trimmed once at the end.
 */
module Reducer {
  import opened Text

  /** One match of the extraction pattern.
      `Boundary` is a paragraph start `<w:p …>` or a line break `<w:br/>` (group 1).
      `Run` is a text element `<w:t …>payload</w:t>`; `space` is the value of the
      `preserve` capture (group 2), the empty string when that group did not take part. */
  datatype Token = Boundary | Run(payload: string, space: string)

  /** The run asks for its whitespace to be kept: the capture equals "preserve", ignoring case. */
  predicate Preserves(t: Token) {
    t.Run? && EqualsIgnoreCase(t.space, "preserve")
  }

  /** What one match appends to the accumulator. */
  function Piece(t: Token): (r: string)
    ensures IsBlank(r) <==> t.Boundary? || IsBlank(t.payload)
    ensures t.Run? ==> |r| <= |t.payload| && (Preserves(t) || Trimmed(r))
  {
    match t
    case Boundary => " "
    case Run(payload, _) => if Preserves(t) then payload else Trim(payload)
  }

  /** The accumulator after all matches: the pieces joined in match order. */
  function Accumulate(ts: seq<Token>): string {
    if ts == [] then "" else Piece(ts[0]) + Accumulate(ts[1..])
  }

  /** The text `ExtractText` returns for a sequence of matches. */
  function Reduce(ts: seq<Token>): (r: string)
    ensures Trimmed(r)
    ensures r == [] <==> IsBlank(Accumulate(ts))
  {
    Trim(Accumulate(ts))
  }

  /** The loop of `ExtractText`: for each match append one space for a paragraph
      or line break, the payload as it is when the capture is "preserve" in any
      case, and the trimmed payload otherwise; then trim once. */
  method ReduceMatches(matches: seq<Token>) returns (text: string)
    ensures text == Reduce(matches)
    ensures Trimmed(text)
  {
    text := "";
    for i := 0 to |matches|
      invariant text == Accumulate(matches[..i])
    {
      AccumulatePrefix(matches, i);
      var m := matches[i];
      if m.Boundary? {
        // A paragraph start or a line break becomes a single space.
        text := text + " ";
      } else if EqualsIgnoreCase(m.space, "preserve") {
        text := text + m.payload;
      } else {
        text := text + Trim(m.payload);
      }
    }
    AccumulateWhole(matches);
    text := Trim(text);
  }

  /** The accumulator is append-only: the pieces of a longer sequence of
      matches extend those of its prefix. */
  lemma {:induction false} AccumulateAppend(a: seq<Token>, b: seq<Token>)
    ensures Accumulate(a + b) == Accumulate(a) + Accumulate(b)
    decreases |a|
  {
    if a == [] {
      assert a + b == b;
    } else {
      assert (a + b)[0] == a[0];
      assert (a + b)[1..] == a[1..] + b;
      AccumulateAppend(a[1..], b);
      assert Accumulate(a + b) == Piece(a[0]) + (Accumulate(a[1..]) + Accumulate(b));
    }
  }

  /** A single match contributes its piece between what precedes and what follows it. */
  lemma {:induction false} AccumulateAround(a: seq<Token>, t: Token, b: seq<Token>)
    ensures Accumulate(a + [t] + b) == Accumulate(a) + Piece(t) + Accumulate(b)
  {
    var at := a + [t];
    AccumulateAppend(at, b);
    AccumulateAppend(a, [t]);
    AccumulateSingle(t);
  }

  /** A further match appends its piece to the accumulator. */
  lemma {:induction false} AccumulateSnoc(ts: seq<Token>, t: Token)
    ensures Accumulate(ts + [t]) == Accumulate(ts) + Piece(t)
  {
    AccumulateAppend(ts, [t]);
    AccumulateSingle(t);
  }

  /** One more match of a prefix appends that match's piece. */
  lemma {:induction false} AccumulatePrefix(ts: seq<Token>, i: nat)
    requires i < |ts|
    ensures Accumulate(ts[..i + 1]) == Accumulate(ts[..i]) + Piece(ts[i])
  {
    assert ts[..i + 1] == ts[..i] + [ts[i]];
    AccumulateSnoc(ts[..i], ts[i]);
  }

  /** The prefix of all matches is all of them. */
  lemma AccumulateWhole(ts: seq<Token>)
    ensures Accumulate(ts[..|ts|]) == Accumulate(ts)
  {
    assert ts[..|ts|] == ts;
  }

  /** A single match accumulates to its own piece. */
  lemma {:induction false} AccumulateSingle(t: Token)
    ensures Accumulate([t]) == Piece(t)
  {
    assert [t][1..] == [];
  }

  /** Every boundary, wherever it occurs, contributes exactly one space. */
  lemma {:induction false} BoundaryAddsOneSpace(a: seq<Token>, b: seq<Token>)
    ensures Accumulate(a + [Boundary] + b) == Accumulate(a) + " " + Accumulate(b)
  {
    AccumulateAround(a, Boundary, b);
  }

  /** A preserving run contributes its payload verbatim, wherever it occurs. */
  lemma {:induction false} PreservedRunVerbatim(a: seq<Token>, payload: string, space: string, b: seq<Token>)
    requires EqualsIgnoreCase(space, "preserve")
    ensures Accumulate(a + [Run(payload, space)] + b) == Accumulate(a) + payload + Accumulate(b)
  {
    AccumulateAround(a, Run(payload, space), b);
  }

  /** Any other run contributes its payload with the surrounding whitespace dropped. */
  lemma {:induction false} PlainRunTrimmed(a: seq<Token>, payload: string, space: string, b: seq<Token>)
    requires !EqualsIgnoreCase(space, "preserve")
    ensures Accumulate(a + [Run(payload, space)] + b) == Accumulate(a) + Trim(payload) + Accumulate(b)
  {
    AccumulateAround(a, Run(payload, space), b);
  }

  /** The capture asks for the whitespace to be kept exactly when it spells
      "preserve" with each letter in either case. */
  lemma {:induction false} PreserveSpellings(space: string)
    ensures EqualsIgnoreCase(space, "preserve") <==>
      |space| == 8 && forall i :: 0 <= i < 8 ==> space[i] == "preserve"[i] || space[i] == "PRESERVE"[i]
  {
    EqualsIgnoreCaseLetters(space, "preserve");
    assert forall i :: 0 <= i < 8 ==> "PRESERVE"[i] as int == "preserve"[i] as int - 32;
  }

  /** The preserve capture is compared ignoring case, and nothing but "preserve" qualifies. */
  lemma {:induction false} PreserveCaptureIgnoresCase()
    ensures Preserves(Run(" x ", "PRESERVE")) && Preserves(Run(" x ", "Preserve"))
    ensures !Preserves(Run(" x ", "")) && !Preserves(Run(" x ", "preserved"))
  {
    assert FoldCase('P') == 'p' && FoldCase('R') == 'r' && FoldCase('E') == 'e';
    assert FoldCase('S') == 's' && FoldCase('V') == 'v';
  }

  /** The reducer's result needs no further trimming. */
  lemma {:induction false} ReduceIsTrimFixpoint(ts: seq<Token>)
    ensures Trim(Reduce(ts)) == Reduce(ts)
  {
    TrimTrimmed(Reduce(ts));
  }

  /** The accumulator is blank exactly when every piece is. */
  lemma {:induction false} AccumulateBlank(ts: seq<Token>)
    ensures IsBlank(Accumulate(ts)) <==> forall i :: 0 <= i < |ts| ==> IsBlank(Piece(ts[i]))
    decreases |ts|
  {
    if ts != [] {
      AccumulateBlank(ts[1..]);
      var p, rest := Piece(ts[0]), Accumulate(ts[1..]);
      BlankConcat(p, rest);
      forall i | 1 <= i < |ts| ensures ts[i] == ts[1..][i - 1] { }
    }
  }

  /** The reducer returns the empty string exactly when no match contributes a
      non-white character. */
  lemma {:induction false} ReduceEmptyIff(ts: seq<Token>)
    ensures Reduce(ts) == "" <==> forall i :: 0 <= i < |ts| ==> IsBlank(Piece(ts[i]))
  {
    AccumulateBlank(ts);
  }

  /** Matches that are all boundaries, or runs that are blank once trimmed,
      reduce to the empty string. */
  lemma {:induction false} BoundariesAndBlankRunsReduceToEmpty(ts: seq<Token>)
    requires forall i :: 0 <= i < |ts| ==>
      ts[i].Boundary? || (!Preserves(ts[i]) && IsBlank(ts[i].payload))
    ensures Reduce(ts) == ""
  {
    forall i | 0 <= i < |ts| ensures IsBlank(Piece(ts[i])) {
      if ts[i].Run? {
        assert Trim(ts[i].payload) == [];
      }
    }
    ReduceEmptyIff(ts);
  }

  /** `n` boundaries in a row. */
  function Boundaries(n: nat): (ts: seq<Token>)
    ensures |ts| == n && forall i :: 0 <= i < n ==> ts[i] == Boundary
  {
    if n == 0 then [] else [Boundary] + Boundaries(n - 1)
  }

  /** Boundaries alone accumulate nothing but spaces. */
  lemma {:induction false} BoundariesBlank(n: nat)
    ensures IsBlank(Accumulate(Boundaries(n)))
  {
    if n > 0 {
      BoundariesBlank(n - 1);
      assert Boundaries(n)[1..] == Boundaries(n - 1);
      BlankConcat(" ", Accumulate(Boundaries(n - 1)));
    }
  }

  /** A run between nothing but boundaries keeps none of its outer whitespace,
      even when it preserves it: the final trim removes it. */
  lemma {:induction false} RunAmongBoundaries(n: nat, payload: string, space: string, m: nat)
    ensures Reduce(Boundaries(n) + [Run(payload, space)] + Boundaries(m)) == Trim(payload)
  {
    var t := Run(payload, space);
    AccumulateAround(Boundaries(n), t, Boundaries(m));
    BoundariesBlank(n);
    BoundariesBlank(m);
    TrimBlankMargins(Accumulate(Boundaries(n)), Piece(t), Accumulate(Boundaries(m)));
    if !Preserves(t) {
      TrimIdempotent(payload);
    }
  }

  /** A preserving run whose neighbours on both sides contribute text is kept
      verbatim, its whitespace included; only the outer margins are trimmed. */
  lemma {:induction false} PreservedRunInterior(a: seq<Token>, payload: string, space: string, b: seq<Token>)
    requires EqualsIgnoreCase(space, "preserve")
    requires !IsBlank(Accumulate(a)) && !IsBlank(Accumulate(b))
    ensures Reduce(a + [Run(payload, space)] + b)
         == TrimStart(Accumulate(a)) + payload + TrimEnd(Accumulate(b))
  {
    PreservedRunVerbatim(a, payload, space, b);
    TrimKeepsInterior(Accumulate(a), payload, Accumulate(b));
  }

  /** One paragraph per text: a paragraph marker followed by a plain run. */
  function Paragraphs(texts: seq<string>): (ts: seq<Token>)
    ensures |ts| == 2 * |texts|
  {
    if texts == [] then [] else [Boundary, Run(texts[0], "")] + Paragraphs(texts[1..])
  }

  /** The paragraphs of two lists of texts, one after the other. */
  lemma {:induction false} ParagraphsAppend(a: seq<string>, b: seq<string>)
    ensures Paragraphs(a + b) == Paragraphs(a) + Paragraphs(b)
    decreases |a|
  {
    if a != [] {
      assert (a + b)[0] == a[0];
      assert (a + b)[1..] == a[1..] + b;
      ParagraphsAppend(a[1..], b);
    } else {
      assert a + b == b;
    }
  }

  /** Paragraph `i` is the marker at `2 * i` followed by its text's run. */
  lemma {:induction false} ParagraphsElements(texts: seq<string>)
    ensures forall k :: 0 <= k < |Paragraphs(texts)| ==>
      (k % 2 == 0 ==> Paragraphs(texts)[k] == Boundary) && (k % 2 == 1 ==> Paragraphs(texts)[k] == Run(texts[k / 2], ""))
    decreases |texts|
  {
    if texts != [] {
      var head, rest := [Boundary, Run(texts[0], "")], Paragraphs(texts[1..]);
      ParagraphsElements(texts[1..]);
      assert Paragraphs(texts) == head + rest;
      forall k | 2 <= k < |Paragraphs(texts)| ensures Paragraphs(texts)[k] == rest[k - 2] && texts[1..][(k - 2) / 2] == texts[k / 2] { }
    }
  }

  /** The strings joined with one space between neighbours. */
  function JoinSpaced(xs: seq<string>): string {
    if xs == [] then "" else if |xs| == 1 then xs[0] else xs[0] + " " + JoinSpaced(xs[1..])
  }

  /** Each string of `texts` with its surrounding whitespace dropped. */
  function TrimAll(texts: seq<string>): (r: seq<string>)
    ensures |r| == |texts| && forall i :: 0 <= i < |texts| ==> r[i] == Trim(texts[i])
  {
    if texts == [] then [] else [Trim(texts[0])] + TrimAll(texts[1..])
  }

  /** Paragraphs (or table cells, each in its own paragraph) come out as their
      trimmed texts joined by one space each, in document order, and the whole
      trimmed once more: a blank paragraph still adds its space, so between
      two texts it leaves two spaces, and at either end it is trimmed away. */
  lemma {:induction false} ParagraphsReduced(texts: seq<string>)
    ensures Reduce(Paragraphs(texts)) == Trim(JoinSpaced(TrimAll(texts)))
  {
    if texts == [] {
      assert Accumulate(Paragraphs(texts)) == "" == JoinSpaced(TrimAll(texts));
    } else {
      ParagraphsAccumulate(texts);
      assert IsBlank(" ") && IsBlank("");
      TrimBlankMargins(" ", JoinSpaced(TrimAll(texts)), "");
      assert " " + JoinSpaced(TrimAll(texts)) + "" == " " + JoinSpaced(TrimAll(texts));
    }
  }

  /** When no paragraph is blank, the texts are joined by exactly one space. */
  lemma {:induction false} ParagraphsJoinedBySpaces(texts: seq<string>)
    requires forall i :: 0 <= i < |texts| ==> !IsBlank(texts[i])
    ensures Reduce(Paragraphs(texts)) == JoinSpaced(TrimAll(texts))
  {
    ParagraphsReduced(texts);
    if texts != [] {
      TrimAllNonEmpty(texts);
      JoinedTrimmed(TrimAll(texts));
      TrimTrimmed(JoinSpaced(TrimAll(texts)));
    }
  }

  /** A blank paragraph between two others leaves two spaces between their texts. */
  lemma {:induction false} BlankParagraphBetween(first: string, blank: string, last: string)
    requires !IsBlank(first) && IsBlank(blank) && !IsBlank(last)
    ensures Reduce(Paragraphs([first, blank, last])) == Trim(first) + "  " + Trim(last)
  {
    ParagraphsReduced([first, blank, last]);
    JoinThree(first, blank, last);
    assert Trim(blank) == [];
    TwoSpacesTrimmed(Trim(first), Trim(last));
  }

  /** Two non-empty trimmed strings with two spaces between them need no trim. */
  lemma TwoSpacesTrimmed(a: string, b: string)
    requires a != [] && Trimmed(a) && b != [] && Trimmed(b)
    ensures Trim(a + " " + [] + " " + b) == a + "  " + b
  {
    var j := a + "  " + b;
    assert a + " " + [] + " " + b == j;
    assert j[0] == a[0] && j[|j| - 1] == b[|b| - 1];
    TrimTrimmed(j);
  }

  /** Three trimmed texts joined. */
  lemma JoinThree(first: string, second: string, third: string)
    ensures JoinSpaced(TrimAll([first, second, third])) == Trim(first) + " " + Trim(second) + " " + Trim(third)
  {
    var r := TrimAll([first, second, third]);
    JoinSpacedThree(r);
    assert r[0] == Trim(first) && r[1] == Trim(second) && r[2] == Trim(third);
  }

  /** A blank first paragraph leaves no trace: its space is trimmed off. */
  lemma {:induction false} BlankParagraphFirst(blank: string, texts: seq<string>)
    requires IsBlank(blank)
    ensures Reduce(Paragraphs([blank] + texts)) == Reduce(Paragraphs(texts))
  {
    ParagraphsReduced([blank] + texts);
    ParagraphsReduced(texts);
    JoinBlankFirst(blank, texts);
    if texts != [] {
      var j := JoinSpaced(TrimAll(texts));
      assert IsBlank(" ") && IsBlank("");
      TrimBlankMargins(" ", j, "");
      assert " " + j + "" == " " + j;
    }
  }

  /** Joining the trims of a blank text and more: only the space remains of it. */
  lemma {:induction false} JoinBlankFirst(blank: string, texts: seq<string>)
    requires IsBlank(blank)
    ensures JoinSpaced(TrimAll([blank] + texts)) == if texts == [] then "" else " " + JoinSpaced(TrimAll(texts))
  {
    var all := [blank] + texts;
    assert all[0] == blank && all[1..] == texts;
    TrimAllTail(all);
    JoinEmptyFirst(TrimAll(all));
  }

  /** The trims of a non-empty list: the first one's, then the rest's. */
  lemma TrimAllTail(xs: seq<string>)
    requires xs != []
    ensures TrimAll(xs)[0] == Trim(xs[0]) && TrimAll(xs)[1..] == TrimAll(xs[1..])
  {
  }

  /** An empty first string contributes nothing but the space after it. */
  lemma JoinEmptyFirst(r: seq<string>)
    requires r != [] && r[0] == []
    ensures JoinSpaced(r) == if |r| == 1 then "" else " " + JoinSpaced(r[1..])
  {
    if |r| > 1 {
      assert JoinSpaced(r) == r[0] + " " + JoinSpaced(r[1..]);
    }
  }

  /** Three strings joined by single spaces. */
  lemma JoinSpacedThree(xs: seq<string>)
    requires |xs| == 3
    ensures JoinSpaced(xs) == xs[0] + " " + xs[1] + " " + xs[2]
  {
    assert JoinSpaced(xs[2..]) == xs[2];
    assert JoinSpaced(xs[1..]) == xs[1] + " " + JoinSpaced(xs[2..]) by { assert xs[1..][1..] == xs[2..]; }
    assert JoinSpaced(xs) == xs[0] + " " + JoinSpaced(xs[1..]);
  }

  /** Texts that are not blank stay non-empty, and become trimmed, when trimmed. */
  lemma {:induction false} TrimAllNonEmpty(texts: seq<string>)
    requires forall i :: 0 <= i < |texts| ==> !IsBlank(texts[i])
    ensures forall i :: 0 <= i < |texts| ==> TrimAll(texts)[i] != [] && Trimmed(TrimAll(texts)[i])
  {
  }

  /** A single leading space is all `Trim` removes from a trimmed string behind it. */
  lemma {:induction false} LeadingSpaceTrimmed(j: string)
    requires Trimmed(j)
    ensures Trim(" " + j) == j
  {
    assert IsBlank(" ");
    TrimStartBlankPrefix(" ", j);
    TrimTrimmed(j);
  }

  /** One paragraph's matches contribute a space and the trimmed text. */
  lemma {:induction false} ParagraphPiece(t: string)
    ensures Accumulate([Boundary, Run(t, "")]) == " " + Trim(t)
  {
    var r := Run(t, "");
    assert [Boundary, r][1..] == [r];
    AccumulateSingle(r);
    UncapturedRunTrimmed(t);
  }

  /** A run whose preserve group did not take part contributes its trimmed payload. */
  lemma {:induction false} UncapturedRunTrimmed(t: string)
    ensures Piece(Run(t, "")) == Trim(t)
  {
    assert !EqualsIgnoreCase("", "preserve");
  }

  /** The first paragraph contributes its space and trimmed text ahead of the others. */
  lemma {:induction false} ParagraphsFirst(texts: seq<string>)
    requires texts != []
    ensures Accumulate(Paragraphs(texts)) == " " + Trim(texts[0]) + Accumulate(Paragraphs(texts[1..]))
  {
    var t := texts[0];
    assert Paragraphs(texts) == [Boundary, Run(t, "")] + Paragraphs(texts[1..]);
    AccumulateAppend([Boundary, Run(t, "")], Paragraphs(texts[1..]));
    ParagraphPiece(t);
  }

  /** Joining the trimmed texts puts the first one ahead of the rest. */
  lemma {:induction false} JoinTrimmedFirst(texts: seq<string>)
    requires |texts| > 1
    ensures JoinSpaced(TrimAll(texts)) == Trim(texts[0]) + " " + JoinSpaced(TrimAll(texts[1..]))
  {
    var trimmed := TrimAll(texts);
    assert trimmed[1..] == TrimAll(texts[1..]);
  }

  /** One step of the induction below: a further paragraph in front. */
  lemma {:induction false} ParagraphsStep(texts: seq<string>)
    requires |texts| > 1
    requires Accumulate(Paragraphs(texts[1..])) == " " + JoinSpaced(TrimAll(texts[1..]))
    ensures Accumulate(Paragraphs(texts)) == " " + JoinSpaced(TrimAll(texts))
  {
    ParagraphsFirst(texts);
    JoinTrimmedFirst(texts);
    var x, j := Trim(texts[0]), JoinSpaced(TrimAll(texts[1..]));
    ConcatAssoc(" ", x, " ", j);
  }

  /** The paragraphs' accumulator is a leading space and the joined trimmed texts. */
  lemma {:induction false} ParagraphsAccumulate(texts: seq<string>)
    requires texts != []
    ensures Accumulate(Paragraphs(texts)) == " " + JoinSpaced(TrimAll(texts))
    decreases |texts|
  {
    if |texts| == 1 {
      ParagraphsFirst(texts);
      assert Paragraphs(texts[1..]) == [];
      assert " " + Trim(texts[0]) + "" == " " + Trim(texts[0]);
    } else {
      ParagraphsAccumulate(texts[1..]);
      ParagraphsStep(texts);
    }
  }

  /** Joining trimmed, non-empty strings with spaces leaves a trimmed, non-empty string. */
  lemma {:induction false} JoinedTrimmed(xs: seq<string>)
    requires xs != []
    requires forall i :: 0 <= i < |xs| ==> xs[i] != [] && Trimmed(xs[i])
    ensures JoinSpaced(xs) != [] && Trimmed(JoinSpaced(xs))
    ensures JoinSpaced(xs)[0] == xs[0][0]
    decreases |xs|
  {
    if |xs| > 1 {
      var rest := xs[1..];
      assert forall i :: 0 <= i < |rest| ==> rest[i] == xs[i + 1];
      JoinedTrimmed(rest);
      var j := JoinSpaced(rest);
      assert JoinSpaced(xs) == xs[0] + " " + j;
      assert (xs[0] + " " + j)[|xs[0] + " " + j| - 1] == j[|j| - 1];
    }
  }

  /** One plain run per text, with no paragraph marker between them: what
      paragraphs written as a bare `<w:p>` leave to the pattern. */
  function PlainRuns(texts: seq<string>): (ts: seq<Token>)
    ensures |ts| == |texts|
  {
    if texts == [] then [] else [Run(texts[0], "")] + PlainRuns(texts[1..])
  }

  /** The strings one after another, with nothing between them. */
  function Join(xs: seq<string>): string {
    if xs == [] then "" else xs[0] + Join(xs[1..])
  }

  /** Plain runs without markers run together: their trimmed texts are joined
      with no separator at all. */
  lemma {:induction false} PlainRunsReduced(texts: seq<string>)
    ensures Reduce(PlainRuns(texts)) == Join(TrimAll(texts))
  {
    PlainRunsAccumulate(texts);
    JoinTrimmedPieces(TrimAll(texts));
    TrimTrimmed(Join(TrimAll(texts)));
  }

  /** The plain runs' accumulator is the trimmed texts, joined. */
  lemma {:induction false} PlainRunsAccumulate(texts: seq<string>)
    ensures Accumulate(PlainRuns(texts)) == Join(TrimAll(texts))
    decreases |texts|
  {
    if texts != [] {
      var r := Run(texts[0], "");
      assert PlainRuns(texts) == [r] + PlainRuns(texts[1..]);
      AccumulateAppend([r], PlainRuns(texts[1..]));
      AccumulateSingle(r);
      UncapturedRunTrimmed(texts[0]);
      PlainRunsAccumulate(texts[1..]);
      assert TrimAll(texts)[1..] == TrimAll(texts[1..]);
    }
  }

  /** Trimmed strings joined with nothing between them need no further trim. */
  lemma {:induction false} JoinTrimmedPieces(xs: seq<string>)
    requires forall i :: 0 <= i < |xs| ==> Trimmed(xs[i])
    ensures Trimmed(Join(xs))
    decreases |xs|
  {
    if xs != [] {
      var rest := xs[1..];
      assert forall i :: 0 <= i < |rest| ==> rest[i] == xs[i + 1];
      JoinTrimmedPieces(rest);
      var a, j := xs[0], Join(rest);
      if a == [] {
        assert a + j == j;
      } else if j == [] {
        assert a + j == a;
      } else {
        assert (a + j)[0] == a[0] && (a + j)[|a + j| - 1] == j[|j| - 1];
      }
    }
  }
}
