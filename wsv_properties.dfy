/** What package wsv's parser returns, stated over the WSV grammar: every
    well-formed line parses to the values of its fields, in source order;
    separators and comments leave no trace; each malformed field fails the
    line with its own error or panic; a document has one row per line. */
module WsvProperties {
  import opened WsvSyntax
  import opened LineSplit
  import opened WsvGrammar
  import opened Wsv

  /** One piece of the inside of a quoted field decodes to its value: '""' to
      '"', '"/' and the codepoint after it to a linefeed, anything else to
      itself. The next piece starts at e. */
  lemma {:induction false} QuotedPieceStep(chars: seq<int>, p: nat, piece: QuotedPiece, e: nat)
    requires At(chars, p, PieceText(piece)) && e == p + |PieceText(piece)|
    requires piece.Literal? ==> piece.c != DQ
    ensures QuotedRest(chars, p) == PrependValue(PieceValue(piece), QuotedRest(chars, e))
  {
    var text := PieceText(piece);
    AtIndex(chars, p, text, 0, p);
    match piece
    case Literal(c) =>
      assert e == p + 1;
    case EscapedQuote =>
      AtIndex(chars, p, text, 1, p + 1);
      assert e == p + 2;
    case LineBreak(x) =>
      AtIndex(chars, p, text, 1, p + 1);
      assert e == p + 3;
  }

  /** The inside of a quoted field decodes piece by piece, up to e. */
  lemma {:induction false} QuotedPieces(chars: seq<int>, p: nat, ps: seq<QuotedPiece>, e: nat)
    requires WellFormedPieces(ps) && At(chars, p, PiecesText(ps)) && e == p + |PiecesText(ps)|
    ensures QuotedRest(chars, p) == PrependValue(PiecesValue(ps), QuotedRest(chars, e))
    decreases |ps|
  {
    if ps == [] {
      assert e == p;
      PrependValueNothing(QuotedRest(chars, e));
    } else {
      var m := p + |PieceText(ps[0])|;
      assert PiecesText(ps) == PieceText(ps[0]) + PiecesText(ps[1..]);
      AtSplit(chars, p, PieceText(ps[0]), PiecesText(ps[1..]), m);
      WellFormedPiecesTail(ps);
      QuotedPieceStep(chars, p, ps[0], m);
      QuotedPieces(chars, m, ps[1..], e);
      ChainValue(QuotedRest(chars, p), QuotedRest(chars, m), QuotedRest(chars, e), PieceValue(ps[0]), PiecesValue(ps[1..]));
    }
  }

  /** A '"' followed by the end of the line, whitespace or '#' closes a quoted
      value; the scan stops at e, right after it. */
  lemma {:induction false} CloseQuote(chars: seq<int>, q: nat, e: nat)
    requires q < |chars| && chars[q] == DQ && e == q + 1 && Separated(chars, e)
    ensures QuotedRest(chars, q) == Ok(Token([], e))
  {
    if e < |chars| && IsWsvWhitespace(chars[e]) {
      SyntaxIsNotWhitespace(DQ);
      SyntaxIsNotWhitespace(SLASH);
    }
  }

  /** A quoted field whose closing '"' at q is followed by a separator is one
      token, which ends at e, right after that '"'. */
  lemma {:induction false} QuotedFieldToken(chars: seq<int>, j: nat, ps: seq<QuotedPiece>, q: nat, e: nat)
    requires WellFormedPieces(ps) && q == j + 1 + |PiecesText(ps)| && q < |chars| && chars[q] == DQ
    requires At(chars, j + 1, PiecesText(ps)) && e == q + 1 && Separated(chars, e)
    ensures QuotedRest(chars, j + 1) == Ok(Token(PiecesValue(ps), e))
  {
    CloseQuote(chars, q, e);
    QuotedPieces(chars, j + 1, ps, q);
    assert PiecesValue(ps) + [] == PiecesValue(ps);
  }

  /** One step of the line loop: the field found at j, after the whitespace,
      has value v and ends at e. */
  lemma {:induction false} LineStep(chars: seq<int>, i: nat, j: nat, v: Value, e: nat)
    requires i <= j < |chars| && SkipWs(chars, i) == j && chars[j] != HASH
    requires e <= |chars|
    requires (chars[j] == DQ && QuotedRest(chars, j + 1) == Ok(Token(v, e))) ||
             (chars[j] != DQ && BareValue(chars, j).Ok? && BareValue(chars, j).value.end == e &&
              v == Collapse(BareValue(chars, j).value.value))
    ensures LineFrom(chars, i) == Prepend([v], LineFrom(chars, e))
  {
  }

  /** One item at i: its whitespace is skipped, its field starts at j and is
      read whole, up to e. */
  lemma {:induction false} ItemStep(chars: seq<int>, i: nat, item: Item, j: nat, e: nat)
    requires AllWhitespace(item.lead) && WellFormedField(item.field)
    requires At(chars, i, item.lead + FieldText(item.field))
    requires j == i + |item.lead| && e == j + |FieldText(item.field)| && Separated(chars, e)
    ensures LineFrom(chars, i) == Prepend([FieldValue(item.field)], LineFrom(chars, e))
  {
    var text := FieldText(item.field);
    AtSplit(chars, i, item.lead, text, j);
    AtIndex(chars, j, text, 0, j);
    SyntaxIsNotWhitespace(DQ);
    match item.field
    case Bare(t) =>
      assert !EndsBare(t[0]);
      SkipWsOver(chars, i, item.lead, j);
      BareOver(chars, j, t, e);
      LineStep(chars, i, j, Collapse(t), e);
    case Quoted(ps) =>
      var q := j + 1 + |PiecesText(ps)|;
      QuotedFieldAt(chars, j, ps, q);
      QuotedFieldToken(chars, j, ps, q, e);
      SkipWsOver(chars, i, item.lead, j);
      LineStep(chars, i, j, PiecesValue(ps), e);
  }

  /** The items from i to e contribute their values, in order, in front of
      whatever the line holds after them. */
  lemma {:induction false} ItemsPrefix(chars: seq<int>, i: nat, items: seq<Item>, e: nat)
    requires WellFormedItems(items) && At(chars, i, ItemsText(items)) && e == i + |ItemsText(items)|
    requires items != [] ==> Separated(chars, e)
    ensures LineFrom(chars, i) == Prepend(Values(items), LineFrom(chars, e))
    decreases |items|
  {
    if items == [] {
      assert e == i;
      PrependNothing(LineFrom(chars, e));
    } else {
      var j := i + |items[0].lead|;
      var m := j + |FieldText(items[0].field)|;
      ItemsSplit(chars, i, items, m);
      ItemsHead(items);
      if |items| > 1 {
        NextItemSeparates(chars, m, items[1..]);
      } else {
        assert items[1..] == [];
        assert m == e;
      }
      ItemStep(chars, i, items[0], j, m);
      ItemsPrefix(chars, m, items[1..], e);
      Chain(LineFrom(chars, i), LineFrom(chars, m), LineFrom(chars, e), [FieldValue(items[0].field)], Values(items[1..]));
    }
  }

  /** Trailing whitespace and a comment from e to the end yield no field,
      whatever the comment holds. */
  lemma {:induction false} LineTail(chars: seq<int>, e: nat, trail: seq<int>, comment: seq<int>)
    requires At(chars, e, trail + comment) && e + |trail| + |comment| == |chars|
    requires AllWhitespace(trail) && (comment == [] || comment[0] == HASH)
    ensures LineFrom(chars, e) == Ok([])
  {
    var c := e + |trail|;
    AtSplit(chars, e, trail, comment, c);
    if comment != [] {
      AtIndex(chars, c, comment, 0, c);
      SyntaxIsNotWhitespace(HASH);
    }
    SkipWsOver(chars, e, trail, c);
  }

  /** Well-formed items followed by a tail of whitespace and a comment parse
      to the values of the items. */
  lemma {:induction false} ItemsThenTail(chars: seq<int>, items: seq<Item>, trail: seq<int>, comment: seq<int>, n: nat)
    requires WellFormedItems(items) && AllWhitespace(trail) && (comment == [] || comment[0] == HASH)
    requires chars == ItemsText(items) + (trail + comment) && n == |ItemsText(items)|
    ensures LineFrom(chars, 0) == Ok(Values(items))
  {
    AtConcat(ItemsText(items), trail + comment, n);
    TailSeparates(chars, n, trail, comment);
    ItemsPrefix(chars, 0, items, n);
    LineTail(chars, n, trail, comment);
    assert Values(items) + [] == Values(items);
  }

  /** The grammar theorem: a well-formed line parses to the values of its
      fields, in source order. Bare fields are verbatim except that "-" is
      "", quoted fields are decoded, whitespace and the comment are dropped. */
  lemma {:induction false} LineGrammar(l: Line)
    requires WellFormedLine(l)
    ensures LineFrom(LineText(l), 0) == Ok(Values(l.items))
  {
    var it := ItemsText(l.items);
    assert LineText(l) == it + l.trail + l.comment;
    assert it + l.trail + l.comment == it + (l.trail + l.comment);
    ItemsThenTail(LineText(l), l.items, l.trail, l.comment, |it|);
  }

  /** The parse reaches index j, the first codepoint of a field that follows
      well-formed items (which end at n) and some whitespace, having parsed
      those items. */
  lemma {:induction false} ReachField(items: seq<Item>, lead: seq<int>, rest: seq<int>, n: nat, j: nat)
    requires WellFormedItems(items) && AllWhitespace(lead) && (items != [] ==> |lead| > 0)
    requires rest != [] && !IsWsvWhitespace(rest[0])
    requires n == |ItemsText(items)| && j == n + |lead|
    ensures var chars := ItemsText(items) + (lead + rest);
      LineFrom(chars, 0) == Prepend(Values(items), LineFrom(chars, n)) &&
      SkipWs(chars, n) == j && At(chars, j, rest)
  {
    var chars := ItemsText(items) + (lead + rest);
    AtConcat(ItemsText(items), lead + rest, n);
    AtSplit(chars, n, lead, rest, j);
    AtIndex(chars, j, rest, 0, j);
    if items != [] {
      AtIndex(chars, n, lead, 0, n);
    }
    ItemsPrefix(chars, 0, items, n);
    SkipWsOver(chars, n, lead, j);
  }

  /** The line loop stops at a field whose scan fails, with that failure. */
  lemma {:induction false} LineStepFails(chars: seq<int>, i: nat, j: nat)
    requires i <= j < |chars| && SkipWs(chars, i) == j && chars[j] != HASH
    ensures chars[j] == DQ && !QuotedRest(chars, j + 1).Ok? ==> LineFrom(chars, i) == Propagate(QuotedRest(chars, j + 1))
    ensures chars[j] != DQ && !BareValue(chars, j).Ok? ==> LineFrom(chars, i) == Propagate(BareValue(chars, j))
  {
  }

  /** A '"' inside a bare value fails the whole line. */
  lemma {:induction false} BareQuoteFails(items: seq<Item>, lead: seq<int>, t: seq<int>, rest: seq<int>)
    requires WellFormedItems(items) && AllWhitespace(lead) && (items != [] ==> |lead| > 0)
    requires WellFormedField(Bare(t))
    ensures LineFrom(ItemsText(items) + (lead + (t + [DQ] + rest)), 0) == Err(InvalidDoubleQuoteInValue)
  {
    var field := t + [DQ] + rest;
    var chars := ItemsText(items) + (lead + field);
    var n := |ItemsText(items)|;
    var j := n + |lead|;
    var e := j + |t|;
    assert field[0] == t[0] && !EndsBare(t[0]);
    ReachField(items, lead, field, n, j);
    AtSplit(chars, j, t + [DQ], rest, e + 1);
    AtSplit(chars, j, t, [DQ], e);
    AtIndex(chars, e, [DQ], 0, e);
    AtIndex(chars, j, t, 0, j);
    BareOver(chars, j, t, e);
    LineStepFails(chars, n, j);
  }

  /** A quoted field that runs to the end of the line is "string not
      closed". */
  lemma {:induction false} UnclosedStringFails(items: seq<Item>, lead: seq<int>, ps: seq<QuotedPiece>)
    requires WellFormedItems(items) && AllWhitespace(lead) && (items != [] ==> |lead| > 0)
    requires WellFormedPieces(ps)
    ensures LineFrom(ItemsText(items) + (lead + ([DQ] + PiecesText(ps))), 0) == Err(StringNotClosed)
  {
    var field := [DQ] + PiecesText(ps);
    var chars := ItemsText(items) + (lead + field);
    var n := |ItemsText(items)|;
    var j := n + |lead|;
    SyntaxIsNotWhitespace(DQ);
    ReachField(items, lead, field, n, j);
    AtSplit(chars, j, [DQ], PiecesText(ps), j + 1);
    AtIndex(chars, j, [DQ], 0, j);
    QuotedPieces(chars, j + 1, ps, |chars|);
    LineStepFails(chars, n, j);
  }

  /** What a closing '"' at q followed by a codepoint means inside a quoted
      value. */
  lemma {:induction false} QuoteThen(chars: seq<int>, q: nat)
    requires q + 1 < |chars| && chars[q] == DQ
    ensures chars[q + 1] == SLASH && q + 2 == |chars| ==> QuotedRest(chars, q) == Panic
    ensures !IsWsvWhitespace(chars[q + 1]) && chars[q + 1] != HASH && chars[q + 1] != DQ && chars[q + 1] != SLASH ==>
      QuotedRest(chars, q) == Err(InvalidCharacterAfterString)
  {
  }

  /** A quoted field at j, reached from n, whose pieces are followed by
      after, which starts with a '"' at q: when the scan from that '"' fails,
      the line fails with it. */
  lemma {:induction false} QuotedFieldFailsAt(chars: seq<int>, n: nat, j: nat, ps: seq<QuotedPiece>, after: seq<int>, q: nat)
    requires n <= j < |chars| && SkipWs(chars, n) == j
    requires WellFormedPieces(ps) && |after| >= 2 && after[0] == DQ
    requires At(chars, j, [DQ] + PiecesText(ps) + after) && q == j + 1 + |PiecesText(ps)|
    ensures q + 1 < |chars| && chars[q] == DQ && chars[q + 1] == after[1]
    ensures !QuotedRest(chars, q).Ok? ==> LineFrom(chars, n) == Propagate(QuotedRest(chars, q))
  {
    AtSplit(chars, j, [DQ] + PiecesText(ps), after, q);
    AtSplit(chars, j, [DQ], PiecesText(ps), j + 1);
    AtIndex(chars, j, [DQ], 0, j);
    AtIndex(chars, q, after, 0, q);
    AtIndex(chars, q, after, 1, q + 1);
    SyntaxIsNotWhitespace(DQ);
    QuotedPieces(chars, j + 1, ps, q);
    LineStepFails(chars, n, j);
  }

  /** The same, for a line: a quoted field after well-formed items, whose
      pieces are followed by after. */
  lemma {:induction false} QuotedFieldFails(items: seq<Item>, lead: seq<int>, ps: seq<QuotedPiece>, after: seq<int>, n: nat, j: nat, q: nat)
    requires WellFormedItems(items) && AllWhitespace(lead) && (items != [] ==> |lead| > 0)
    requires WellFormedPieces(ps) && |after| >= 2 && after[0] == DQ
    requires n == |ItemsText(items)| && j == n + |lead| && q == j + 1 + |PiecesText(ps)|
    ensures var chars := ItemsText(items) + (lead + ([DQ] + PiecesText(ps) + after));
      q + 1 < |chars| && chars[q] == DQ && chars[q + 1] == after[1] &&
      (!QuotedRest(chars, q).Ok? ==> LineFrom(chars, 0) == Propagate(QuotedRest(chars, q)))
  {
    var field := [DQ] + PiecesText(ps) + after;
    var chars := ItemsText(items) + (lead + field);
    SyntaxIsNotWhitespace(DQ);
    ReachField(items, lead, field, n, j);
    QuotedFieldFailsAt(chars, n, j, ps, after, q);
    if !QuotedRest(chars, q).Ok? {
      PrependFailure(Values(items), LineFrom(chars, n), QuotedRest(chars, q));
    }
  }

  /** A closing '"' followed by anything but whitespace, '#', '"' or '/' is
      "invalid character after string". */
  lemma {:induction false} CharacterAfterStringFails(items: seq<Item>, lead: seq<int>, ps: seq<QuotedPiece>, x: int, rest: seq<int>)
    requires WellFormedItems(items) && AllWhitespace(lead) && (items != [] ==> |lead| > 0)
    requires WellFormedPieces(ps)
    requires !IsWsvWhitespace(x) && x != HASH && x != DQ && x != SLASH
    ensures LineFrom(ItemsText(items) + (lead + ([DQ] + PiecesText(ps) + ([DQ, x] + rest))), 0) ==
      Err(InvalidCharacterAfterString)
  {
    var chars := ItemsText(items) + (lead + ([DQ] + PiecesText(ps) + ([DQ, x] + rest)));
    var n := |ItemsText(items)|;
    var j := n + |lead|;
    var q := j + 1 + |PiecesText(ps)|;
    QuotedFieldFails(items, lead, ps, [DQ, x] + rest, n, j, q);
    assert q + 2 <= |chars|;
    QuoteThen(chars, q);
  }

  /** A '"/' that ends the line makes the source read past the end of the
      line: the parse panics instead of reporting "invalid string line
      break". */
  lemma {:induction false} LineBreakAtEndPanics(items: seq<Item>, lead: seq<int>, ps: seq<QuotedPiece>)
    requires WellFormedItems(items) && AllWhitespace(lead) && (items != [] ==> |lead| > 0)
    requires WellFormedPieces(ps)
    ensures LineFrom(ItemsText(items) + (lead + ([DQ] + PiecesText(ps) + [DQ, SLASH])), 0) == Panic
  {
    var chars := ItemsText(items) + (lead + ([DQ] + PiecesText(ps) + [DQ, SLASH]));
    var n := |ItemsText(items)|;
    var j := n + |lead|;
    var q := j + 1 + |PiecesText(ps)|;
    QuotedFieldFails(items, lead, ps, [DQ, SLASH], n, j, q);
    assert q + 2 == |chars|;
    QuoteThen(chars, q);
  }

  /** Which whitespace separates the fields of a well-formed line, and what
      its comment says, does not change the result: a line separated by
      U+3000 parses like one separated by U+0020. */
  lemma {:induction false} SeparatorsIrrelevant(l: Line, l': Line)
    requires WellFormedLine(l) && WellFormedLine(l')
    requires |l.items| == |l'.items|
    requires forall k :: 0 <= k < |l.items| ==> l.items[k].field == l'.items[k].field
    ensures LineFrom(LineText(l), 0) == LineFrom(LineText(l'), 0)
  {
    LineGrammar(l);
    LineGrammar(l');
    ValuesOfFields(l.items, l'.items);
  }

  /** u and v differ at most in which whitespace codepoint stands where:
      they have the same length, and wherever they differ both hold
      whitespace. */
  predicate WhitespaceSwapped(u: seq<int>, v: seq<int>) {
    |u| == |v| && forall k :: 0 <= k < |u| ==> u[k] == v[k] || (IsWsvWhitespace(u[k]) && IsWsvWhitespace(v[k]))
  }

  /** Two scans of such lines agree up to the whitespace their values keep:
      the same failure, or tokens ending at the same index. */
  predicate TokensSwapped(x: Outcome<Token>, y: Outcome<Token>) {
    match x
    case Ok(t) => y.Ok? && y.value.end == t.end && WhitespaceSwapped(t.value, y.value.value)
    case Err(e) => y == Err(e)
    case Panic => y == Panic
  }

  /** Two line parses agree up to the whitespace their values keep: the same
      failure, or as many fields, field by field swapped. */
  predicate RowsSwapped(x: Outcome<Row>, y: Outcome<Row>) {
    match x
    case Ok(r) => y.Ok? && |y.value| == |r| && forall k :: 0 <= k < |r| ==> WhitespaceSwapped(r[k], y.value[k])
    case Err(e) => y == Err(e)
    case Panic => y == Panic
  }

  lemma {:induction false} SkipWsSwapped(a: seq<int>, b: seq<int>, i: nat)
    requires WhitespaceSwapped(a, b) && i <= |a|
    ensures SkipWs(a, i) == SkipWs(b, i)
    decreases |a| - i
  {
    if i < |a| {
      assert IsWsvWhitespace(a[i]) <==> IsWsvWhitespace(b[i]);
      SkipWsSwapped(a, b, i + 1);
    }
  }

  lemma {:induction false} BareEndSwapped(a: seq<int>, b: seq<int>, i: nat)
    requires WhitespaceSwapped(a, b) && i < |a|
    ensures BareEnd(a, i) == BareEnd(b, i)
    decreases |a| - i
  {
    if i + 1 < |a| {
      assert EndsBare(a[i + 1]) <==> EndsBare(b[i + 1]);
      BareEndSwapped(a, b, i + 1);
    }
  }

  /** A bare value holds no whitespace, so it reads the same from both lines. */
  lemma {:induction false} BareValueSwapped(a: seq<int>, b: seq<int>, j: nat)
    requires WhitespaceSwapped(a, b) && j < |a| && !IsWsvWhitespace(a[j])
    ensures BareValue(a, j) == BareValue(b, j)
  {
    var k := BareEnd(a, j);
    BareEndSwapped(a, b, j);
    assert forall t :: j <= t < k ==> a[t] == b[t] by {
      forall t | j <= t < k ensures a[t] == b[t] {
        if t > j {
          assert !EndsBare(a[t]);
        }
      }
    }
    assert a[j..k] == b[j..k];
    if k < |a| {
      SyntaxIsNotWhitespace(DQ);
      assert a[k] == DQ <==> b[k] == DQ;
    }
  }

  lemma {:induction false} PrependSwapped(c: int, d: int, x: Outcome<Token>, y: Outcome<Token>)
    requires c == d || (IsWsvWhitespace(c) && IsWsvWhitespace(d))
    requires TokensSwapped(x, y)
    ensures TokensSwapped(PrependValue([c], x), PrependValue([d], y))
  {
    if x.Ok? {
      var u := [c] + x.value.value;
      var v := [d] + y.value.value;
      assert forall k :: 0 < k < |u| ==> u[k] == x.value.value[k - 1] && v[k] == y.value.value[k - 1];
    }
  }

  /** The quoted scan takes the same path through both lines; its value
      keeps whichever whitespace each line holds. */
  lemma {:induction false} QuotedRestSwapped(a: seq<int>, b: seq<int>, p: nat)
    requires WhitespaceSwapped(a, b) && p <= |a|
    ensures TokensSwapped(QuotedRest(a, p), QuotedRest(b, p))
    decreases |a| - p
  {
    if p < |a| {
      SyntaxIsNotWhitespace(DQ);
      SyntaxIsNotWhitespace(SLASH);
      SyntaxIsNotWhitespace(HASH);
      assert a[p] == DQ <==> b[p] == DQ;
      if a[p] != DQ {
        QuotedRestSwapped(a, b, p + 1);
        PrependSwapped(a[p], b[p], QuotedRest(a, p + 1), QuotedRest(b, p + 1));
      } else if p + 1 < |a| {
        assert a[p + 1] == DQ <==> b[p + 1] == DQ;
        assert a[p + 1] == SLASH <==> b[p + 1] == SLASH;
        assert a[p + 1] == HASH <==> b[p + 1] == HASH;
        assert IsWsvWhitespace(a[p + 1]) <==> IsWsvWhitespace(b[p + 1]);
        if a[p + 1] == DQ {
          QuotedRestSwapped(a, b, p + 2);
          PrependSwapped(DQ, DQ, QuotedRest(a, p + 2), QuotedRest(b, p + 2));
        } else if a[p + 1] == SLASH && p + 2 < |a| {
          QuotedRestSwapped(a, b, p + 3);
          PrependSwapped(LF, LF, QuotedRest(a, p + 3), QuotedRest(b, p + 3));
        }
      }
    }
  }

  lemma {:induction false} PrependRowSwapped(u: Value, v: Value, x: Outcome<Row>, y: Outcome<Row>)
    requires WhitespaceSwapped(u, v) && RowsSwapped(x, y)
    ensures RowsSwapped(Prepend([u], x), Prepend([v], y))
  {
    if x.Ok? {
      var r := [u] + x.value;
      var s := [v] + y.value;
      assert forall k :: 0 < k < |r| ==> r[k] == x.value[k - 1] && s[k] == y.value[k - 1];
    }
  }

  /** The line loop from index i takes the same path through both lines, so
      which whitespace a line uses never changes whether it parses, its
      error, or its number of fields; the values differ only in the
      whitespace that quoted values keep, and not at all when no '"' follows
      i. */
  lemma {:induction false} LineFromSwapped(a: seq<int>, b: seq<int>, i: nat)
    requires WhitespaceSwapped(a, b) && i <= |a|
    ensures RowsSwapped(LineFrom(a, i), LineFrom(b, i))
    ensures (forall t :: i <= t < |a| ==> a[t] != DQ) ==> LineFrom(a, i) == LineFrom(b, i)
    decreases |a| - i
  {
    var j := SkipWs(a, i);
    SkipWsSwapped(a, b, i);
    if j < |a| {
      assert a[j] == b[j];
      if a[j] == DQ {
        QuotedRestSwapped(a, b, j + 1);
        var qa := QuotedRest(a, j + 1);
        if qa.Ok? {
          LineFromSwapped(a, b, qa.value.end);
          PrependRowSwapped(qa.value.value, QuotedRest(b, j + 1).value.value,
            LineFrom(a, qa.value.end), LineFrom(b, qa.value.end));
        }
      } else if a[j] != HASH {
        BareValueSwapped(a, b, j);
        var ba := BareValue(a, j);
        if ba.Ok? {
          var u := Collapse(ba.value.value);
          LineFromSwapped(a, b, ba.value.end);
          PrependRowSwapped(u, u, LineFrom(a, ba.value.end), LineFrom(b, ba.value.end));
        }
      }
    }
  }

  /** Which whitespace codepoints a line uses, as separators or anywhere
      else, never changes whether it parses, which error it reports, whether
      it panics, or how many fields it has; a line without '"' parses to
      exactly the same fields. */
  lemma {:induction false} WhitespaceChoiceIrrelevant(a: seq<int>, b: seq<int>)
    requires WhitespaceSwapped(a, b)
    ensures LineFrom(a, 0).Err? ==> LineFrom(b, 0) == LineFrom(a, 0)
    ensures LineFrom(a, 0).Panic? <==> LineFrom(b, 0).Panic?
    ensures LineFrom(a, 0).Ok? <==> LineFrom(b, 0).Ok?
    ensures LineFrom(a, 0).Ok? ==> |LineFrom(b, 0).value| == |LineFrom(a, 0).value|
    ensures DQ !in a ==> LineFrom(a, 0) == LineFrom(b, 0)
  {
    LineFromSwapped(a, b, 0);
    if LineFrom(b, 0).Err? {
      LineFromSwapped(b, a, 0);
    }
  }

  /** Parsing lines one after the other: the rows of the first lines, then
      those of the rest, unless a first line fails. */
  lemma {:induction false} ParseLinesAppend(a: seq<seq<int>>, b: seq<seq<int>>)
    ensures ParseLines(a + b) == if ParseLines(a).Ok? then Prepend(ParseLines(a).value, ParseLines(b)) else ParseLines(a)
  {
    if a == [] {
      assert a + b == b;
      PrependNothing(ParseLines(b));
    } else {
      assert (a + b)[0] == a[0] && (a + b)[1..] == a[1..] + b;
      ParseLinesAppend(a[1..], b);
      if LineFrom(a[0], 0).Ok? && ParseLines(a[1..]).Ok? {
        PrependPrepend([LineFrom(a[0], 0).value], ParseLines(a[1..]).value, ParseLines(b));
      }
    }
  }

  /** The empty document is one empty row. */
  lemma {:induction false} EmptyContent()
    ensures Document([]) == Ok([[]])
  {
    var empty: seq<seq<int>> := [[]];
    var row: Row := [];
    assert SplitLines([]) == empty && empty[1..] == [];
    assert LineFrom(empty[0], 0) == Ok(row);
    assert [row] + [] == [row];
  }

  /** A trailing linefeed adds a trailing empty row. */
  lemma {:induction false} TrailingLinefeed(content: seq<int>)
    ensures Document(content + [LF]) == if Document(content).Ok? then Ok(Document(content).value + [[]]) else Document(content)
  {
    SplitTrailingLinefeed(content);
    ParseLinesAppend(SplitLines(content), [[]]);
    EmptyContent();
  }

  /** Well-formed lines parse to one row per line, each the values of that
      line's fields; rows may differ in length. */
  lemma {:induction false} LinesGrammar(ls: seq<Line>)
    requires forall k :: 0 <= k < |ls| ==> WellFormedLine(ls[k])
    ensures ParseLines(LineTexts(ls)) == Ok(LineValues(ls))
  {
    if ls != [] {
      LineGrammar(ls[0]);
      forall k | 0 <= k < |ls[1..]| ensures WellFormedLine(ls[1..][k]) {
        assert ls[1..][k] == ls[k + 1];
      }
      LinesGrammar(ls[1..]);
      assert LineTexts(ls)[0] == LineText(ls[0]) && LineTexts(ls)[1..] == LineTexts(ls[1..]);
    }
  }

  /** Well-formed lines without linefeeds, joined by linefeeds, parse as a
      document to one row per line. */
  lemma {:induction false} DocumentGrammar(ls: seq<Line>)
    requires |ls| > 0
    requires forall k :: 0 <= k < |ls| ==> WellFormedLine(ls[k]) && LF !in LineText(ls[k])
    ensures Document(JoinLines(LineTexts(ls))) == Ok(LineValues(ls))
  {
    LinesGrammar(ls);
    LineTextsAt(ls);
    SplitJoin(LineTexts(ls));
  }

  /** A well-formed first line does not save a document whose later line
      fails: the document fails with that line's failure. */
  lemma {:induction false} LaterLineFailsDocument(first: Line, later: seq<int>)
    requires WellFormedLine(first) && LF !in LineText(first) && LF !in later
    requires !LineFrom(later, 0).Ok?
    ensures Document(LineText(first) + [LF] + later) == Propagate(LineFrom(later, 0))
  {
    var lines := [LineText(first), later];
    var rest: seq<seq<int>> := [later];
    assert lines[0] == LineText(first) && lines[1..] == rest && rest[1..] == [];
    assert JoinLines(rest) == later;
    assert JoinLines(lines) == LineText(first) + [LF] + later;
    SplitJoin(lines);
    LineGrammar(first);
    assert ParseLines(rest) == Propagate(LineFrom(later, 0));
    assert ParseLines(lines) == Propagate(LineFrom(later, 0));
  }

  /** The pieces of the quoted value from p, read off the way QuotedRest
      reads them, up to its closing '"'. */
  function PiecesFrom(chars: seq<int>, p: nat): seq<QuotedPiece>
    requires p <= |chars| && QuotedRest(chars, p).Ok?
    decreases |chars| - p
  {
    if chars[p] != DQ then [Literal(chars[p])] + PiecesFrom(chars, p + 1)
    else if p + 1 == |chars| then []
    else if chars[p + 1] == DQ then [EscapedQuote] + PiecesFrom(chars, p + 2)
    else if chars[p + 1] == SLASH then [LineBreak(chars[p + 2])] + PiecesFrom(chars, p + 3)
    else []
  }

  /** A quoted value the scan accepts is well-formed pieces, spelled out
      from p up to a closing '"' at q, followed by a separator; its value is
      the value of those pieces. */
  lemma {:induction false} PiecesFromRead(chars: seq<int>, p: nat, q: nat)
    requires p <= |chars| && QuotedRest(chars, p).Ok? && q + 1 == QuotedRest(chars, p).value.end
    ensures p <= q < |chars| && chars[q] == DQ && Separated(chars, q + 1)
    ensures WellFormedPieces(PiecesFrom(chars, p)) && chars[p..q] == PiecesText(PiecesFrom(chars, p))
    ensures PiecesValue(PiecesFrom(chars, p)) == QuotedRest(chars, p).value.value
    decreases |chars| - p
  {
    if chars[p] != DQ {
      PiecesFromRead(chars, p + 1, q);
      PiecesFromLiteral(chars, p, q);
    } else if p + 1 == |chars| || (chars[p + 1] != DQ && chars[p + 1] != SLASH) {
      assert PiecesFrom(chars, p) == [];
    } else if chars[p + 1] == DQ {
      PiecesFromRead(chars, p + 2, q);
      PiecesFromEscape(chars, p, q, EscapedQuote, p + 2);
    } else {
      PiecesFromRead(chars, p + 3, q);
      PiecesFromEscape(chars, p, q, LineBreak(chars[p + 2]), p + 3);
    }
  }

  /** The case of PiecesFromRead where a plain codepoint comes first. */
  lemma {:induction false} PiecesFromLiteral(chars: seq<int>, p: nat, q: nat)
    requires p < |chars| && chars[p] != DQ
    requires QuotedRest(chars, p + 1).Ok? && q + 1 == QuotedRest(chars, p + 1).value.end && p + 1 <= q < |chars|
    requires WellFormedPieces(PiecesFrom(chars, p + 1)) && chars[p + 1..q] == PiecesText(PiecesFrom(chars, p + 1))
    requires PiecesValue(PiecesFrom(chars, p + 1)) == QuotedRest(chars, p + 1).value.value
    ensures QuotedRest(chars, p).Ok? && q + 1 == QuotedRest(chars, p).value.end
    ensures WellFormedPieces(PiecesFrom(chars, p)) && chars[p..q] == PiecesText(PiecesFrom(chars, p))
    ensures PiecesValue(PiecesFrom(chars, p)) == QuotedRest(chars, p).value.value
  {
    PiecesFromStep(chars, p, q, Literal(chars[p]), p + 1);
  }

  /** The cases of PiecesFromRead where '""' or '"/' and a codepoint come
      first, up to n. */
  lemma {:induction false} PiecesFromEscape(chars: seq<int>, p: nat, q: nat, piece: QuotedPiece, n: nat)
    requires p + 1 < |chars| && chars[p] == DQ
    requires (chars[p + 1] == DQ && piece == EscapedQuote && n == p + 2) ||
             (chars[p + 1] == SLASH && p + 2 < |chars| && piece == LineBreak(chars[p + 2]) && n == p + 3)
    requires QuotedRest(chars, n).Ok? && q + 1 == QuotedRest(chars, n).value.end && n <= q < |chars|
    requires WellFormedPieces(PiecesFrom(chars, n)) && chars[n..q] == PiecesText(PiecesFrom(chars, n))
    requires PiecesValue(PiecesFrom(chars, n)) == QuotedRest(chars, n).value.value
    ensures QuotedRest(chars, p).Ok? && q + 1 == QuotedRest(chars, p).value.end
    ensures WellFormedPieces(PiecesFrom(chars, p)) && chars[p..q] == PiecesText(PiecesFrom(chars, p))
    ensures PiecesValue(PiecesFrom(chars, p)) == QuotedRest(chars, p).value.value
  {
    PiecesFromStep(chars, p, q, piece, n);
  }

  /** One step of PiecesFromRead: a piece spelled out from p to n in front
      of what the scan from n reads. */
  lemma {:induction false} PiecesFromStep(chars: seq<int>, p: nat, q: nat, piece: QuotedPiece, n: nat)
    requires p < n <= q < |chars| && chars[p..n] == PieceText(piece) && (piece.Literal? ==> piece.c != DQ)
    requires QuotedRest(chars, n).Ok? && q + 1 == QuotedRest(chars, n).value.end
    requires QuotedRest(chars, p) == PrependValue(PieceValue(piece), QuotedRest(chars, n))
    requires PiecesFrom(chars, p) == [piece] + PiecesFrom(chars, n)
    requires WellFormedPieces(PiecesFrom(chars, n)) && chars[n..q] == PiecesText(PiecesFrom(chars, n))
    requires PiecesValue(PiecesFrom(chars, n)) == QuotedRest(chars, n).value.value
    ensures WellFormedPieces(PiecesFrom(chars, p)) && chars[p..q] == PiecesText(PiecesFrom(chars, p))
    ensures PiecesValue(PiecesFrom(chars, p)) == QuotedRest(chars, p).value.value
  {
    PiecesCons(piece, PiecesFrom(chars, n));
    assert chars[p..q] == chars[p..n] + chars[n..q];
  }

  /** The end of the field that starts at j, in a line that parses from j
      on: after the closing '"' of a quoted field, or where a bare value
      stops. */
  function FieldEnd(chars: seq<int>, j: nat): (e: nat)
    requires j < |chars| && LineFrom(chars, j).Ok? && SkipWs(chars, j) == j && chars[j] != HASH
    ensures j < e <= |chars| && LineFrom(chars, e).Ok? && Separated(chars, e)
  {
    if chars[j] == DQ then
      var e := QuotedRest(chars, j + 1).value.end;
      PiecesFromRead(chars, j + 1, e - 1);
      e
    else BareEnd(chars, j)
  }

  /** The field that starts at j, as the grammar writes it. */
  function FieldAt(chars: seq<int>, j: nat): Field
    requires j < |chars| && LineFrom(chars, j).Ok? && SkipWs(chars, j) == j && chars[j] != HASH
  {
    if chars[j] == DQ then Quoted(PiecesFrom(chars, j + 1)) else Bare(chars[j..FieldEnd(chars, j)])
  }

  /** The line that the parse from i reads: each field with the whitespace
      in front of it, then the trailing whitespace and the comment. */
  function ParsedLine(chars: seq<int>, i: nat): Line
    requires i <= |chars| && LineFrom(chars, i).Ok?
    decreases |chars| - i
  {
    var j := SkipWs(chars, i);
    if j == |chars| || chars[j] == HASH then Line([], chars[i..j], chars[j..])
    else
      var rest := ParsedLine(chars, FieldEnd(chars, j));
      Line([Item(chars[i..j], FieldAt(chars, j))] + rest.items, rest.trail, rest.comment)
  }

  /** The field at j, reached from i and ending at e, is well formed,
      spells out the codepoints from j to e, and is what the line loop
      appends. */
  lemma {:induction false} FieldRead(chars: seq<int>, i: nat, j: nat, e: nat, f: Field)
    requires i <= j < |chars| && SkipWs(chars, i) == j && chars[j] != HASH && LineFrom(chars, i).Ok?
    requires LineFrom(chars, j).Ok? && SkipWs(chars, j) == j
    requires e == FieldEnd(chars, j) && f == FieldAt(chars, j)
    ensures WellFormedField(f) && FieldText(f) == chars[j..e]
    ensures LineFrom(chars, i) == Prepend([FieldValue(f)], LineFrom(chars, e))
  {
    if chars[j] == DQ {
      QuotedFieldRead(chars, i, j, e, PiecesFrom(chars, j + 1));
    } else {
      BareFieldRead(chars, i, j, e);
    }
  }

  /** FieldRead for a quoted field, with pieces ps. */
  lemma {:induction false} QuotedFieldRead(chars: seq<int>, i: nat, j: nat, e: nat, ps: seq<QuotedPiece>)
    requires i <= j < |chars| && SkipWs(chars, i) == j && chars[j] == DQ
    requires QuotedRest(chars, j + 1).Ok? && e == QuotedRest(chars, j + 1).value.end
    requires ps == PiecesFrom(chars, j + 1)
    ensures WellFormedPieces(ps) && FieldText(Quoted(ps)) == chars[j..e]
    ensures LineFrom(chars, i) == Prepend([PiecesValue(ps)], LineFrom(chars, e))
  {
    PiecesFromRead(chars, j + 1, e - 1);
    SliceAround(chars, j, e);
    SyntaxIsNotWhitespace(DQ);
    LineStep(chars, i, j, PiecesValue(ps), e);
  }

  /** FieldRead for a bare field. */
  lemma {:induction false} BareFieldRead(chars: seq<int>, i: nat, j: nat, e: nat)
    requires i <= j < |chars| && SkipWs(chars, i) == j && chars[j] != HASH && chars[j] != DQ
    requires BareValue(chars, j).Ok? && e == BareEnd(chars, j)
    ensures WellFormedField(Bare(chars[j..e]))
    ensures LineFrom(chars, i) == Prepend([Collapse(chars[j..e])], LineFrom(chars, e))
  {
    var t := chars[j..e];
    forall k | 0 <= k < |t| ensures !EndsBare(t[k]) {
      if k == 0 {
        assert t[k] == chars[j];
      } else {
        assert t[k] == BareValue(chars, j).value.value[k];
      }
    }
    LineStep(chars, i, j, Collapse(t), e);
  }

  /** What ParsedLineReads states of the line built from index i. */
  predicate ReadsBack(chars: seq<int>, i: nat)
    requires i <= |chars| && LineFrom(chars, i).Ok?
  {
    WellFormedLine(ParsedLine(chars, i)) &&
    LineText(ParsedLine(chars, i)) == chars[i..] &&
    Values(ParsedLine(chars, i).items) == LineFrom(chars, i).value &&
    (ParsedLine(chars, i).items != [] ==>
      |ParsedLine(chars, i).items[0].lead| == SkipWs(chars, i) - i &&
      SkipWs(chars, i) < |chars| && chars[SkipWs(chars, i)] != HASH)
  }

  /** ParsedLineReads where the line ends, or a comment starts, after the
      whitespace at i. */
  lemma {:induction false} ParsedLineTail(chars: seq<int>, i: nat, j: nat)
    requires i <= |chars| && LineFrom(chars, i).Ok? && j == SkipWs(chars, i)
    requires j == |chars| || chars[j] == HASH
    ensures ReadsBack(chars, i)
  {
    assert chars[i..] == chars[i..j] + chars[j..];
    forall k | 0 <= k < |chars[i..j]| ensures IsWsvWhitespace(chars[i..j][k]) {
      assert chars[i..j][k] == chars[i + k];
    }
  }

  /** The line loop from i and from the end of the whitespace at i are the
      same loop. */
  lemma {:induction false} SkipThenLine(chars: seq<int>, i: nat, j: nat)
    requires i <= |chars| && j == SkipWs(chars, i)
    ensures SkipWs(chars, j) == j && LineFrom(chars, j) == LineFrom(chars, i)
  {
  }

  /** ParsedLineReads where a field starts after the whitespace at i and
      ends at e, given what it states from e on. */
  lemma {:induction false} ParsedLineField(chars: seq<int>, i: nat, j: nat, e: nat)
    requires i <= |chars| && LineFrom(chars, i).Ok? && j == SkipWs(chars, i)
    requires j < |chars| && chars[j] != HASH && e == FieldEnd(chars, j)
    requires ReadsBack(chars, e)
    ensures ReadsBack(chars, i)
  {
    SkipThenLine(chars, i, j);
    var l := ParsedLine(chars, i);
    var item := Item(chars[i..j], FieldAt(chars, j));
    var rest := ParsedLine(chars, e);
    FieldRead(chars, i, j, e, item.field);
    forall k | 0 <= k < |chars[i..j]| ensures IsWsvWhitespace(chars[i..j][k]) {
      assert chars[i..j][k] == chars[i + k];
    }
    if rest.items != [] {
      SyntaxIsNotWhitespace(HASH);
      assert |rest.items[0].lead| > 0;
    }
    assert l == Line([item] + rest.items, rest.trail, rest.comment);
    ItemsCons(item, rest.items);
    LineTextCons(item, rest);
    SliceThree(chars, i, j, e);
  }

  /** The line ParsedLine builds is well formed, spells out the codepoints
      from i on, and its values are what the parse returns. Its first field,
      if any, comes after the whitespace at i. */
  lemma {:induction false} ParsedLineReads(chars: seq<int>, i: nat)
    requires i <= |chars| && LineFrom(chars, i).Ok?
    ensures WellFormedLine(ParsedLine(chars, i))
    ensures LineText(ParsedLine(chars, i)) == chars[i..]
    ensures Values(ParsedLine(chars, i).items) == LineFrom(chars, i).value
    ensures ParsedLine(chars, i).items != [] ==>
      |ParsedLine(chars, i).items[0].lead| == SkipWs(chars, i) - i &&
      SkipWs(chars, i) < |chars| && chars[SkipWs(chars, i)] != HASH
    decreases |chars| - i
  {
    var j := SkipWs(chars, i);
    if j == |chars| || chars[j] == HASH {
      ParsedLineTail(chars, i, j);
    } else {
      var e := FieldEnd(chars, j);
      ParsedLineReads(chars, e);
      ParsedLineField(chars, i, j, e);
    }
  }

  /** The converse of LineGrammar: every line that parses is a well-formed
      line whose values are the result. So a field never holds the
      whitespace around it, and a '#' at a field boundary drops the rest. */
  lemma {:induction false} LineParsesOnlyWellFormed(chars: seq<int>)
    ensures LineFrom(chars, 0).Ok? ==>
      exists l :: WellFormedLine(l) && LineText(l) == chars && Values(l.items) == LineFrom(chars, 0).value
  {
    if LineFrom(chars, 0).Ok? {
      ParsedLineReads(chars, 0);
      assert chars[0..] == chars;
      var l := ParsedLine(chars, 0);
      assert WellFormedLine(l) && LineText(l) == chars && Values(l.items) == LineFrom(chars, 0).value;
    }
  }

  /** A line parses exactly when it is well-formed WSV. */
  lemma {:induction false} LineParsesIffWellFormed(chars: seq<int>)
    ensures LineFrom(chars, 0).Ok? <==> exists l :: WellFormedLine(l) && LineText(l) == chars
  {
    LineParsesOnlyWellFormed(chars);
    if l :| WellFormedLine(l) && LineText(l) == chars {
      LineGrammar(l);
    }
  }
}
