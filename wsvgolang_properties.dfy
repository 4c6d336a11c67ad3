/** What package wsvgolang's parser returns, stated over the WSV grammar. A
    well-formed line whose quoted fields hold no escapes, and that does not
    end with a quoted field, parses to the values of its fields as in
    package wsv; everything else behaves differently: a failing field becomes
    "" and the parse goes on, a '"' ends a quoted value whatever follows it,
    and a '"' that ends the line panics. */
module WsvGolangProperties {
  import opened WsvSyntax
  import opened LineSplit
  import opened WsvGrammar
  import opened WsvGolang

  /** Quoted pieces without escapes: plain codepoints only. */
  predicate PlainPieces(ps: seq<QuotedPiece>) {
    forall k :: 0 <= k < |ps| ==> ps[k].Literal?
  }

  /** Every quoted field among the items is plain. */
  predicate PlainItems(items: seq<Item>) {
    forall k :: 0 <= k < |items| ==> (items[k].field.Quoted? ==> PlainPieces(items[k].field.pieces))
  }

  /** A line this edition reads as the grammar says: plain quoted fields,
      and a quoted last field is followed by whitespace or a comment. */
  predicate PlainLine(l: Line) {
    WellFormedLine(l) && PlainItems(l.items) &&
    (l.items != [] && l.items[|l.items| - 1].field.Quoted? ==> l.trail + l.comment != [])
  }

  /** Plain pieces spell out their own value, and hold no '"'. */
  lemma {:induction false} PlainPiecesText(ps: seq<QuotedPiece>)
    requires WellFormedPieces(ps) && PlainPieces(ps)
    ensures PiecesText(ps) == PiecesValue(ps) && DQ !in PiecesText(ps)
  {
    if ps != [] {
      WellFormedPiecesTail(ps);
      assert PlainPieces(ps[1..]) by {
        forall k | 0 <= k < |ps[1..]| ensures ps[1..][k].Literal? {
          assert ps[1..][k] == ps[k + 1];
        }
      }
      PlainPiecesText(ps[1..]);
    }
  }

  lemma {:induction false} PlainItemsTail(items: seq<Item>)
    requires PlainItems(items) && items != []
    ensures PlainItems(items[1..])
  {
    forall k | 0 <= k < |items[1..]|
      ensures items[1..][k].field.Quoted? ==> PlainPieces(items[1..][k].field.pieces)
    {
      assert items[1..][k] == items[k + 1];
    }
  }

  /** The first '"' from p on is at q, right after a run without one. */
  lemma {:induction false} FirstQuoteOver(chars: seq<int>, p: nat, text: seq<int>, q: nat)
    requires At(chars, p, text) && DQ !in text && q == p + |text|
    requires q == |chars| || chars[q] == DQ
    ensures FirstQuote(chars, p) == q
  {
    var r := FirstQuote(chars, p);
    if r < q {
      AtIndex(chars, p, text, r - p, r);
    }
  }

  /** One step of the line loop: the field found at j, after the whitespace,
      has value v and ends at e. */
  lemma {:induction false} LineStep(chars: seq<int>, i: nat, j: nat, v: Value, e: nat)
    requires i <= j < |chars| && SkipWs(chars, i) == j && chars[j] != HASH
    requires e <= |chars|
    requires (chars[j] == DQ && QuotedRest(chars, j + 1) == Ok(Token(v, e))) ||
             (chars[j] != DQ && BareValue(chars, j).Ok? && BareValue(chars, j).value.end == e &&
              v == Collapse(BareValue(chars, j).value.value))
    ensures LineFrom(chars, i) == Prepend([v], LineFrom(chars, e))
  {
  }

  /** A failing scan at j: a bare value that stops at a '"' and a quoted
      value that is not closed both become "", and the line goes on from
      where the scan stopped; a '"' that ends the line panics. */
  lemma {:induction false} LineStepSwallows(chars: seq<int>, i: nat, j: nat)
    requires i <= j < |chars| && SkipWs(chars, i) == j && chars[j] != HASH
    ensures chars[j] != DQ && BareValue(chars, j).Err? ==>
      LineFrom(chars, i) == Prepend([[]], LineFrom(chars, BareEnd(chars, j)))
    ensures chars[j] == DQ && QuotedRest(chars, j + 1).Err? ==> LineFrom(chars, i) == Ok([[]])
    ensures chars[j] == DQ && QuotedRest(chars, j + 1).Panic? ==> LineFrom(chars, i) == Panic
  {
    if chars[j] == DQ && QuotedRest(chars, j + 1).Err? {
      var none: Row := [];
      assert LineFrom(chars, |chars|) == Ok(none);
      assert [[]] + none == [[]];
    }
  }

  /** One item at i: its whitespace is skipped, its field starts at j and is
      read whole, up to e. A quoted field needs a codepoint after it. */
  lemma {:induction false} ItemStep(chars: seq<int>, i: nat, item: Item, j: nat, e: nat)
    requires AllWhitespace(item.lead) && WellFormedField(item.field)
    requires item.field.Quoted? ==> PlainPieces(item.field.pieces) && e < |chars|
    requires At(chars, i, item.lead + FieldText(item.field))
    requires j == i + |item.lead| && e == j + |FieldText(item.field)| && Separated(chars, e)
    ensures LineFrom(chars, i) == Prepend([FieldValue(item.field)], LineFrom(chars, e))
  {
    var text := FieldText(item.field);
    AtSplit(chars, i, item.lead, text, j);
    AtIndex(chars, j, text, 0, j);
    SyntaxIsNotWhitespace(DQ);
    match item.field
    case Bare(t) =>
      assert !EndsBare(t[0]);
      SkipWsOver(chars, i, item.lead, j);
      BareOver(chars, j, t, e);
      LineStep(chars, i, j, Collapse(t), e);
    case Quoted(ps) =>
      PlainQuotedToken(chars, j, ps, j + 1 + |PiecesText(ps)|, e);
      SkipWsOver(chars, i, item.lead, j);
      LineStep(chars, i, j, PiecesValue(ps), e);
  }

  /** A plain quoted field at j, closed by a '"' at q that some codepoint
      follows, is one token that ends at e, right after that '"'. */
  lemma {:induction false} PlainQuotedToken(chars: seq<int>, j: nat, ps: seq<QuotedPiece>, q: nat, e: nat)
    requires WellFormedPieces(ps) && PlainPieces(ps)
    requires At(chars, j, FieldText(Quoted(ps))) && q == j + 1 + |PiecesText(ps)|
    requires e == q + 1 && e < |chars|
    ensures QuotedRest(chars, j + 1) == Ok(Token(PiecesValue(ps), e))
  {
    QuotedFieldAt(chars, j, ps, q);
    PlainPiecesText(ps);
    FirstQuoteOver(chars, j + 1, PiecesText(ps), q);
    AtSlice(chars, j + 1, PiecesText(ps));
  }

  /** The items from i to e contribute their values, in order, in front of
      whatever the line holds after them. */
  lemma {:induction false} ItemsPrefix(chars: seq<int>, i: nat, items: seq<Item>, e: nat)
    requires WellFormedItems(items) && PlainItems(items)
    requires At(chars, i, ItemsText(items)) && e == i + |ItemsText(items)|
    requires items != [] ==> Separated(chars, e) && (items[|items| - 1].field.Quoted? ==> e < |chars|)
    ensures LineFrom(chars, i) == Prepend(Values(items), LineFrom(chars, e))
    decreases |items|
  {
    if items == [] {
      assert e == i;
      PrependNothing(LineFrom(chars, e));
    } else {
      var j := i + |items[0].lead|;
      var m := j + |FieldText(items[0].field)|;
      ItemsSplit(chars, i, items, m);
      ItemsHead(items);
      PlainItemsTail(items);
      if |items| > 1 {
        NextItemSeparates(chars, m, items[1..]);
        assert items[1..][|items[1..]| - 1] == items[|items| - 1];
      } else {
        assert items[1..] == [];
        assert m == e;
      }
      ItemStep(chars, i, items[0], j, m);
      ItemsPrefix(chars, m, items[1..], e);
      Chain(LineFrom(chars, i), LineFrom(chars, m), LineFrom(chars, e), [FieldValue(items[0].field)], Values(items[1..]));
    }
  }

  /** Trailing whitespace and a comment from e to the end yield no field,
      whatever the comment holds. */
  lemma {:induction false} LineTail(chars: seq<int>, e: nat, trail: seq<int>, comment: seq<int>)
    requires At(chars, e, trail + comment) && e + |trail| + |comment| == |chars|
    requires AllWhitespace(trail) && (comment == [] || comment[0] == HASH)
    ensures LineFrom(chars, e) == Ok([])
  {
    var c := e + |trail|;
    AtSplit(chars, e, trail, comment, c);
    if comment != [] {
      AtIndex(chars, c, comment, 0, c);
      SyntaxIsNotWhitespace(HASH);
    }
    SkipWsOver(chars, e, trail, c);
  }

  /** Plain items followed by a tail of whitespace and a comment parse to the
      values of the items. */
  lemma {:induction false} ItemsThenTail(chars: seq<int>, items: seq<Item>, trail: seq<int>, comment: seq<int>, n: nat)
    requires WellFormedItems(items) && PlainItems(items)
    requires AllWhitespace(trail) && (comment == [] || comment[0] == HASH)
    requires items != [] && items[|items| - 1].field.Quoted? ==> trail + comment != []
    requires chars == ItemsText(items) + (trail + comment) && n == |ItemsText(items)|
    ensures LineFrom(chars, 0) == Ok(Values(items))
  {
    AtConcat(ItemsText(items), trail + comment, n);
    TailSeparates(chars, n, trail, comment);
    ItemsPrefix(chars, 0, items, n);
    LineTail(chars, n, trail, comment);
    assert Values(items) + [] == Values(items);
  }

  /** The grammar theorem of this edition: a plain line parses to the values
      of its fields, in source order, as in package wsv. */
  lemma {:induction false} LineGrammar(l: Line)
    requires PlainLine(l)
    ensures LineFrom(LineText(l), 0) == Ok(Values(l.items))
  {
    var it := ItemsText(l.items);
    assert LineText(l) == it + l.trail + l.comment;
    assert it + l.trail + l.comment == it + (l.trail + l.comment);
    ItemsThenTail(LineText(l), l.items, l.trail, l.comment, |it|);
  }

  /** The parse reaches index j, the first codepoint of a field that follows
      plain items (which end at n) and some whitespace, having parsed those
      items. */
  lemma {:induction false} ReachField(items: seq<Item>, lead: seq<int>, rest: seq<int>, n: nat, j: nat)
    requires WellFormedItems(items) && PlainItems(items) && AllWhitespace(lead) && (items != [] ==> |lead| > 0)
    requires rest != [] && !IsWsvWhitespace(rest[0])
    requires n == |ItemsText(items)| && j == n + |lead|
    ensures var chars := ItemsText(items) + (lead + rest);
      LineFrom(chars, 0) == Prepend(Values(items), LineFrom(chars, n)) &&
      SkipWs(chars, n) == j && At(chars, j, rest)
  {
    var chars := ItemsText(items) + (lead + rest);
    AtConcat(ItemsText(items), lead + rest, n);
    AtSplit(chars, n, lead, rest, j);
    AtIndex(chars, j, rest, 0, j);
    if items != [] {
      AtIndex(chars, n, lead, 0, n);
    }
    ItemsPrefix(chars, 0, items, n);
    SkipWsOver(chars, n, lead, j);
  }

  /** A quoted field at j, reached from n, whose text (without '"') runs up to
      a '"' at q or to the end: where the scan from j + 1 goes. */
  lemma {:induction false} QuotedFieldAtQuote(chars: seq<int>, j: nat, text: seq<int>, q: nat)
    requires At(chars, j, [DQ] + text) && DQ !in text && q == j + 1 + |text|
    requires q == |chars| || chars[q] == DQ
    ensures j < |chars| && chars[j] == DQ && FirstQuote(chars, j + 1) == q
    ensures q <= |chars| && chars[j + 1..q] == text
  {
    AtSplit(chars, j, [DQ], text, j + 1);
    AtIndex(chars, j, [DQ], 0, j);
    FirstQuoteOver(chars, j + 1, text, q);
    AtSlice(chars, j + 1, text);
  }

  /** A '"' that is the last codepoint of the line panics (the source reads
      chars[len(chars)]), where package wsv closes the value. */
  lemma {:induction false} QuotedAtEndPanics(items: seq<Item>, lead: seq<int>, text: seq<int>)
    requires WellFormedItems(items) && PlainItems(items) && AllWhitespace(lead) && (items != [] ==> |lead| > 0)
    requires DQ !in text
    ensures LineFrom(ItemsText(items) + (lead + ([DQ] + text + [DQ])), 0) == Panic
  {
    var field := [DQ] + text + [DQ];
    var chars := ItemsText(items) + (lead + field);
    var n := |ItemsText(items)|;
    var j := n + |lead|;
    var q := j + 1 + |text|;
    SyntaxIsNotWhitespace(DQ);
    ReachField(items, lead, field, n, j);
    AtSplit(chars, j, [DQ] + text, [DQ], q);
    AtIndex(chars, q, [DQ], 0, q);
    QuotedFieldAtQuote(chars, j, text, q);
    LineStepSwallows(chars, n, j);
  }

  /** A quoted value that is never closed becomes "" and ends the line,
      where package wsv reports "string not closed". */
  lemma {:induction false} UnclosedSwallowed(items: seq<Item>, lead: seq<int>, text: seq<int>)
    requires WellFormedItems(items) && PlainItems(items) && AllWhitespace(lead) && (items != [] ==> |lead| > 0)
    requires DQ !in text
    ensures LineFrom(ItemsText(items) + (lead + ([DQ] + text)), 0) == Ok(Values(items) + [[]])
  {
    var field := [DQ] + text;
    var chars := ItemsText(items) + (lead + field);
    var n := |ItemsText(items)|;
    var j := n + |lead|;
    SyntaxIsNotWhitespace(DQ);
    ReachField(items, lead, field, n, j);
    QuotedFieldAtQuote(chars, j, text, |chars|);
    LineStepSwallows(chars, n, j);
  }

  /** A '"' ends a quoted value whatever follows it: the value is the text
      before it, and the line goes on at the codepoint x after it, at e. So
      '""' is not an escape in this edition. */
  lemma {:induction false} QuoteEndsAtOnce(items: seq<Item>, lead: seq<int>, text: seq<int>, x: int, rest: seq<int>, e: nat)
    requires WellFormedItems(items) && PlainItems(items) && AllWhitespace(lead) && (items != [] ==> |lead| > 0)
    requires DQ !in text
    requires e == |ItemsText(items)| + |lead| + |text| + 2
    ensures var chars := ItemsText(items) + (lead + ([DQ] + text + ([DQ, x] + rest)));
      e < |chars| && chars[e] == x &&
      LineFrom(chars, 0) == Prepend(Values(items) + [text], LineFrom(chars, e))
  {
    var field := [DQ] + text + ([DQ, x] + rest);
    var chars := ItemsText(items) + (lead + field);
    var n := |ItemsText(items)|;
    var j := n + |lead|;
    var q := j + 1 + |text|;
    SyntaxIsNotWhitespace(DQ);
    ReachField(items, lead, field, n, j);
    AtSplit(chars, j, [DQ] + text, [DQ, x] + rest, q);
    AtIndex(chars, q, [DQ, x] + rest, 0, q);
    AtIndex(chars, q, [DQ, x] + rest, 1, e);
    QuoteThenCodepoint(chars, n, j, text, q, e);
    Chain(LineFrom(chars, 0), LineFrom(chars, n), LineFrom(chars, e), Values(items), [text]);
  }

  /** The same, at an index: a quoted field at j, reached from n, whose
      first '"' after the opening one is at q and is followed by some
      codepoint, at e. */
  lemma {:induction false} QuoteThenCodepoint(chars: seq<int>, n: nat, j: nat, text: seq<int>, q: nat, e: nat)
    requires n <= j < |chars| && SkipWs(chars, n) == j
    requires At(chars, j, [DQ] + text) && DQ !in text && q == j + 1 + |text|
    requires q < |chars| && chars[q] == DQ && e == q + 1 && e < |chars|
    ensures LineFrom(chars, n) == Prepend([text], LineFrom(chars, e))
  {
    QuotedFieldAtQuote(chars, j, text, q);
    LineStep(chars, n, j, text, e);
  }

  /** A '"' inside a bare value: the value becomes "" and the line goes on
      at that '"', at e, where package wsv fails the line. */
  lemma {:induction false} BareQuoteSwallowed(items: seq<Item>, lead: seq<int>, t: seq<int>, rest: seq<int>, e: nat)
    requires WellFormedItems(items) && PlainItems(items) && AllWhitespace(lead) && (items != [] ==> |lead| > 0)
    requires WellFormedField(Bare(t))
    requires e == |ItemsText(items)| + |lead| + |t|
    ensures var chars := ItemsText(items) + (lead + (t + [DQ] + rest));
      e < |chars| && chars[e] == DQ &&
      LineFrom(chars, 0) == Prepend(Values(items) + [[]], LineFrom(chars, e))
  {
    var field := t + [DQ] + rest;
    var chars := ItemsText(items) + (lead + field);
    var n := |ItemsText(items)|;
    var j := n + |lead|;
    assert field[0] == t[0] && !EndsBare(t[0]);
    ReachField(items, lead, field, n, j);
    AtSplit(chars, j, t + [DQ], rest, e + 1);
    AtSplit(chars, j, t, [DQ], e);
    AtIndex(chars, e, [DQ], 0, e);
    AtIndex(chars, j, t, 0, j);
    BareOver(chars, j, t, e);
    LineStepSwallows(chars, n, j);
    Chain(LineFrom(chars, 0), LineFrom(chars, n), LineFrom(chars, e), Values(items), [[]]);
  }

  /** A bare value that ends in a '"' at the end of the line gives two empty
      values: the bare value fails, then the '"' opens a string that is not
      closed. Package wsv fails this line with "invalid double quote in
      value". */
  lemma {:induction false} BareQuoteAtEnd(items: seq<Item>, lead: seq<int>, t: seq<int>)
    requires WellFormedItems(items) && PlainItems(items) && AllWhitespace(lead) && (items != [] ==> |lead| > 0)
    requires WellFormedField(Bare(t))
    ensures LineFrom(ItemsText(items) + (lead + (t + [DQ] + [])), 0) == Ok(Values(items) + [[], []])
  {
    var chars := ItemsText(items) + (lead + (t + [DQ] + []));
    var e := |ItemsText(items)| + |lead| + |t|;
    BareQuoteSwallowed(items, lead, t, [], e);
    assert e + 1 == |chars|;
    SyntaxIsNotWhitespace(DQ);
    assert SkipWs(chars, e) == e;
    LineStepSwallows(chars, e, e);
    assert Values(items) + [[]] + [[]] == Values(items) + [[], []];
  }

  /** Plain lines parse to one row per line. */
  lemma {:induction false} LinesGrammar(ls: seq<Line>)
    requires forall k :: 0 <= k < |ls| ==> PlainLine(ls[k])
    ensures ParseLines(LineTexts(ls)) == Ok(LineValues(ls))
  {
    if ls != [] {
      LineGrammar(ls[0]);
      forall k | 0 <= k < |ls[1..]| ensures PlainLine(ls[1..][k]) {
        assert ls[1..][k] == ls[k + 1];
      }
      LinesGrammar(ls[1..]);
      assert LineTexts(ls)[0] == LineText(ls[0]) && LineTexts(ls)[1..] == LineTexts(ls[1..]);
    }
  }

  /** Plain lines without linefeeds, joined by linefeeds, parse as a
      document to one row per line. */
  lemma {:induction false} DocumentGrammar(ls: seq<Line>)
    requires |ls| > 0
    requires forall k :: 0 <= k < |ls| ==> PlainLine(ls[k]) && LF !in LineText(ls[k])
    ensures Document(JoinLines(LineTexts(ls))) == Ok(LineValues(ls))
  {
    LinesGrammar(ls);
    LineTextsAt(ls);
    SplitJoin(LineTexts(ls));
  }

  /** Parsing lines one after the other: the rows of the first lines, then
      those of the rest, unless a first line panics. */
  lemma {:induction false} ParseLinesAppend(a: seq<seq<int>>, b: seq<seq<int>>)
    ensures ParseLines(a + b) == if ParseLines(a).Ok? then Prepend(ParseLines(a).value, ParseLines(b)) else Panic
  {
    if a == [] {
      assert a + b == b;
      PrependNothing(ParseLines(b));
    } else {
      assert (a + b)[0] == a[0] && (a + b)[1..] == a[1..] + b;
      ParseLinesAppend(a[1..], b);
      if LineFrom(a[0], 0).Ok? && ParseLines(a[1..]).Ok? {
        PrependPrepend([LineFrom(a[0], 0).value], ParseLines(a[1..]).value, ParseLines(b));
      }
    }
  }

  /** The empty document is one empty row. */
  lemma {:induction false} EmptyContent()
    ensures Document([]) == Ok([[]])
  {
    var empty: seq<seq<int>> := [[]];
    var row: Row := [];
    assert SplitLines([]) == empty && empty[1..] == [];
    assert LineFrom(empty[0], 0) == Ok(row);
    assert [row] + [] == [row];
  }

  /** A trailing linefeed adds a trailing empty row. */
  lemma {:induction false} TrailingLinefeed(content: seq<int>)
    ensures Document(content + [LF]) == if Document(content).Ok? then Ok(Document(content).value + [[]]) else Panic
  {
    SplitTrailingLinefeed(content);
    ParseLinesAppend(SplitLines(content), [[]]);
    EmptyContent();
  }
}
