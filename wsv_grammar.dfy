/** The WSV line grammar as data. A line is a sequence of items (some
    whitespace, then a field), then trailing whitespace, then an optional
    comment that starts with '#'. LineText spells a line out as codepoints and
    Values says what its fields mean; the properties modules prove what each
    parser returns for LineText. */
module WsvGrammar {
  import opened WsvSyntax

  /** One piece of the inside of a quoted field. */
  datatype QuotedPiece =
    | Literal(c: int)          // any codepoint but '"', kept as it is
    | EscapedQuote             // '""', a '"'
    | LineBreak(skipped: int)  // '"/' and one more codepoint, a linefeed

  datatype Field = Bare(text: seq<int>) | Quoted(pieces: seq<QuotedPiece>)

  /** A field and the whitespace in front of it. */
  datatype Item = Item(lead: seq<int>, field: Field)

  datatype Line = Line(items: seq<Item>, trail: seq<int>, comment: seq<int>)

  function PieceText(p: QuotedPiece): seq<int> {
    match p
    case Literal(c) => [c]
    case EscapedQuote => [DQ, DQ]
    case LineBreak(x) => [DQ, SLASH, x]
  }

  function PieceValue(p: QuotedPiece): Value {
    match p
    case Literal(c) => [c]
    case EscapedQuote => [DQ]
    case LineBreak(_) => [LF]
  }

  function PiecesText(ps: seq<QuotedPiece>): seq<int> {
    if ps == [] then [] else PieceText(ps[0]) + PiecesText(ps[1..])
  }

  function PiecesValue(ps: seq<QuotedPiece>): Value {
    if ps == [] then [] else PieceValue(ps[0]) + PiecesValue(ps[1..])
  }

  function FieldText(f: Field): seq<int> {
    match f
    case Bare(t) => t
    case Quoted(ps) => [DQ] + PiecesText(ps) + [DQ]
  }

  /** What a field means: a bare "-" is the empty value. */
  function FieldValue(f: Field): Value {
    match f
    case Bare(t) => Collapse(t)
    case Quoted(ps) => PiecesValue(ps)
  }

  function ItemsText(items: seq<Item>): seq<int> {
    if items == [] then [] else items[0].lead + FieldText(items[0].field) + ItemsText(items[1..])
  }

  function Values(items: seq<Item>): Row {
    if items == [] then [] else [FieldValue(items[0].field)] + Values(items[1..])
  }

  function LineText(l: Line): seq<int> {
    ItemsText(l.items) + l.trail + l.comment
  }

  function LineTexts(ls: seq<Line>): seq<seq<int>> {
    if ls == [] then [] else [LineText(ls[0])] + LineTexts(ls[1..])
  }

  function LineValues(ls: seq<Line>): Table {
    if ls == [] then [] else [Values(ls[0].items)] + LineValues(ls[1..])
  }

  predicate AllWhitespace(s: seq<int>) {
    forall k :: 0 <= k < |s| ==> IsWsvWhitespace(s[k])
  }

  predicate WellFormedPieces(ps: seq<QuotedPiece>) {
    forall k :: 0 <= k < |ps| ==> (ps[k].Literal? ==> ps[k].c != DQ)
  }

  /** A bare field is non-empty and holds no whitespace, '#' or '"'. */
  predicate WellFormedField(f: Field) {
    match f
    case Bare(t) => |t| > 0 && forall k :: 0 <= k < |t| ==> !EndsBare(t[k])
    case Quoted(ps) => WellFormedPieces(ps)
  }

  /** Every lead is whitespace, and every field after the first has some. */
  predicate WellFormedItems(items: seq<Item>) {
    forall k :: 0 <= k < |items| ==>
      AllWhitespace(items[k].lead) && WellFormedField(items[k].field) && (k > 0 ==> |items[k].lead| > 0)
  }

  predicate WellFormedLine(l: Line) {
    WellFormedItems(l.items) && AllWhitespace(l.trail) && (l.comment == [] || l.comment[0] == HASH)
  }

  /** What may follow a field: the end of the line, whitespace or '#'. */
  predicate Separated(chars: seq<int>, e: nat) {
    e == |chars| || (e < |chars| && (IsWsvWhitespace(chars[e]) || chars[e] == HASH))
  }

  /** The codepoint k places after index p. */
  function Offset(chars: seq<int>, p: nat, k: nat): int
    requires p + k < |chars|
  {
    chars[p + k]
  }

  /** text occurs in chars at index p. */
  predicate At(chars: seq<int>, p: nat, text: seq<int>) {
    p + |text| <= |chars| &&
    forall k {:trigger Offset(chars, p, k)} :: 0 <= k < |text| ==> Offset(chars, p, k) == text[k]
  }

  /** The k-th codepoint of text is the one at index q = p + k. Here and
      below, an index that a caller must name is a parameter, so that the
      caller's own spelling of it is the one in the contract. */
  lemma AtIndex(chars: seq<int>, p: nat, text: seq<int>, k: nat, q: nat)
    requires At(chars, p, text) && k < |text| && q == p + k
    ensures q < |chars| && chars[q] == text[k]
  {
    assert Offset(chars, p, k) == text[k];
  }

  /** A concatenation occurs at p: its first part at p, its second at q,
      right after the first. */
  lemma AtSplit(chars: seq<int>, p: nat, a: seq<int>, b: seq<int>, q: nat)
    requires At(chars, p, a + b) && q == p + |a|
    ensures At(chars, p, a) && At(chars, q, b)
  {
    forall k | 0 <= k < |a| ensures Offset(chars, p, k) == a[k] {
      assert Offset(chars, p, k) == (a + b)[k];
    }
    forall k | 0 <= k < |b| ensures Offset(chars, q, k) == b[k] {
      assert Offset(chars, p, |a| + k) == (a + b)[|a| + k];
    }
  }

  lemma AtConcat(a: seq<int>, b: seq<int>, n: nat)
    requires n == |a|
    ensures At(a + b, 0, a) && At(a + b, n, b)
  {
    forall k | 0 <= k < |a| ensures Offset(a + b, 0, k) == a[k] {
    }
    forall k | 0 <= k < |b| ensures Offset(a + b, n, k) == b[k] {
    }
  }

  lemma AtSlice(chars: seq<int>, p: nat, text: seq<int>)
    requires At(chars, p, text)
    ensures chars[p..p + |text|] == text
  {
    forall k | 0 <= k < |text| ensures chars[p..p + |text|][k] == text[k] {
      AtIndex(chars, p, text, k, p + k);
    }
  }

  lemma WellFormedItemsTail(items: seq<Item>)
    requires WellFormedItems(items) && items != []
    ensures WellFormedItems(items[1..])
  {
    forall k | 0 <= k < |items[1..]|
      ensures AllWhitespace(items[1..][k].lead) && WellFormedField(items[1..][k].field)
    {
      assert items[1..][k] == items[k + 1];
    }
  }

  lemma WellFormedPiecesTail(ps: seq<QuotedPiece>)
    requires WellFormedPieces(ps) && ps != []
    ensures WellFormedPieces(ps[1..])
  {
    forall k | 0 <= k < |ps[1..]| ensures ps[1..][k].Literal? ==> ps[1..][k].c != DQ {
      assert ps[1..][k] == ps[k + 1];
    }
  }

  /** Whitespace skipping stops at e, right after a run of whitespace that
      is not followed by more. */
  lemma SkipWsOver(chars: seq<int>, i: nat, lead: seq<int>, e: nat)
    requires At(chars, i, lead) && AllWhitespace(lead) && e == i + |lead|
    requires e == |chars| || !IsWsvWhitespace(chars[e])
    ensures SkipWs(chars, i) == e
  {
    forall k | i <= k < e ensures IsWsvWhitespace(chars[k]) {
      AtIndex(chars, i, lead, k - i, k);
    }
  }

  /** A bare scan over a well-formed bare field stops at e, right after it,
      when what follows ends a bare value. */
  lemma BareOver(chars: seq<int>, j: nat, t: seq<int>, e: nat)
    requires WellFormedField(Bare(t)) && At(chars, j, t) && e == j + |t|
    requires e == |chars| || EndsBare(chars[e])
    ensures BareEnd(chars, j) == e
    ensures BareValue(chars, j).Ok? <==> (e == |chars| || chars[e] != DQ)
    ensures BareValue(chars, j).Ok? ==> BareValue(chars, j).value == Token(t, e)
  {
    forall k | j < k < e ensures !EndsBare(chars[k]) {
      AtIndex(chars, j, t, k - j, k);
    }
    AtSlice(chars, j, t);
  }

  /** The text of the items is the first item's, then, from e on, the
      rest's. */
  lemma {:induction false} ItemsSplit(chars: seq<int>, i: nat, items: seq<Item>, e: nat)
    requires items != [] && At(chars, i, ItemsText(items))
    requires e == i + |items[0].lead| + |FieldText(items[0].field)|
    ensures At(chars, i, items[0].lead + FieldText(items[0].field))
    ensures At(chars, e, ItemsText(items[1..]))
    ensures i + |ItemsText(items)| == e + |ItemsText(items[1..])|
  {
    assert ItemsText(items) == (items[0].lead + FieldText(items[0].field)) + ItemsText(items[1..]);
    AtSplit(chars, i, items[0].lead + FieldText(items[0].field), ItemsText(items[1..]), e);
  }

  /** The first item is well formed, and so are the rest; the next one, if
      any, starts with whitespace. */
  lemma {:induction false} ItemsHead(items: seq<Item>)
    requires WellFormedItems(items) && items != []
    ensures AllWhitespace(items[0].lead) && WellFormedField(items[0].field)
    ensures WellFormedItems(items[1..])
    ensures |items| > 1 ==> |items[1..][0].lead| > 0
  {
    WellFormedItemsTail(items);
    if |items| > 1 {
      assert items[1..][0] == items[1];
    }
  }

  /** After a field comes the next item's whitespace. */
  lemma {:induction false} NextItemSeparates(chars: seq<int>, e: nat, rest: seq<Item>)
    requires WellFormedItems(rest) && rest != [] && |rest[0].lead| > 0
    requires At(chars, e, ItemsText(rest))
    ensures e < |chars| && Separated(chars, e)
  {
    assert AllWhitespace(rest[0].lead);
    assert ItemsText(rest)[0] == rest[0].lead[0];
    AtIndex(chars, e, ItemsText(rest), 0, e);
  }

  /** What follows the items of a line: whitespace, a comment or the end. */
  lemma {:induction false} TailSeparates(chars: seq<int>, n: nat, trail: seq<int>, comment: seq<int>)
    requires At(chars, n, trail + comment) && n + |trail| + |comment| == |chars|
    requires AllWhitespace(trail) && (comment == [] || comment[0] == HASH)
    ensures Separated(chars, n)
  {
    var tail := trail + comment;
    if tail != [] {
      AtIndex(chars, n, tail, 0, n);
      if trail != [] {
        assert tail[0] == trail[0];
      } else {
        assert tail[0] == comment[0];
      }
    }
  }

  lemma {:induction false} ValuesOfFields(items: seq<Item>, items': seq<Item>)
    requires |items| == |items'|
    requires forall k :: 0 <= k < |items| ==> items[k].field == items'[k].field
    ensures Values(items) == Values(items')
  {
    if items != [] {
      assert items[0].field == items'[0].field;
      forall k | 0 <= k < |items[1..]| ensures items[1..][k].field == items'[1..][k].field {
        assert items[1..][k] == items[k + 1] && items'[1..][k] == items'[k + 1];
      }
      ValuesOfFields(items[1..], items'[1..]);
    }
  }

  lemma {:induction false} LineTextsAt(ls: seq<Line>)
    ensures |LineTexts(ls)| == |ls|
    ensures forall k :: 0 <= k < |ls| ==> LineTexts(ls)[k] == LineText(ls[k])
  {
    if ls != [] {
      LineTextsAt(ls[1..]);
      forall k | 1 <= k < |ls| ensures LineTexts(ls)[k] == LineText(ls[k]) {
        assert ls[1..][k - 1] == ls[k];
      }
    }
  }

  lemma {:induction false} LineValuesAt(ls: seq<Line>)
    ensures |LineValues(ls)| == |ls|
    ensures forall k :: 0 <= k < |ls| ==> LineValues(ls)[k] == Values(ls[k].items)
  {
    if ls != [] {
      LineValuesAt(ls[1..]);
      forall k | 1 <= k < |ls| ensures LineValues(ls)[k] == Values(ls[k].items) {
        assert ls[1..][k - 1] == ls[k];
      }
    }
  }

  /** The codepoints of a quoted field that starts at j: an opening '"', the
      pieces, and a closing '"' at q. */
  lemma {:induction false} QuotedFieldAt(chars: seq<int>, j: nat, ps: seq<QuotedPiece>, q: nat)
    requires At(chars, j, FieldText(Quoted(ps))) && q == j + 1 + |PiecesText(ps)|
    ensures |FieldText(Quoted(ps))| == |PiecesText(ps)| + 2
    ensures j < q < |chars| && chars[j] == DQ && chars[q] == DQ
    ensures At(chars, j + 1, PiecesText(ps))
  {
    var text := PiecesText(ps);
    AtSplit(chars, j, [DQ] + text, [DQ], q);
    AtSplit(chars, j, [DQ], text, j + 1);
    AtIndex(chars, j, [DQ], 0, j);
    AtIndex(chars, q, [DQ], 0, q);
  }

  /** A slice of at least two codepoints: its first, its middle, its last. */
  lemma SliceAround(s: seq<int>, a: nat, b: nat)
    requires a + 2 <= b <= |s|
    ensures s[a..b] == [s[a]] + s[a + 1..b - 1] + [s[b - 1]]
  {
  }

  /** A suffix cut in three at b and c. */
  lemma SliceThree(s: seq<int>, a: nat, b: nat, c: nat)
    requires a <= b <= c <= |s|
    ensures s[a..] == s[a..b] + s[b..c] + s[c..]
  {
  }

  /** The text of a line with one more item in front. */
  lemma {:induction false} LineTextCons(item: Item, l: Line)
    ensures LineText(Line([item] + l.items, l.trail, l.comment)) ==
      item.lead + FieldText(item.field) + LineText(l)
  {
    ItemsCons(item, l.items);
  }

  /** The text and the values of items with one more item at the end. */
  lemma {:induction false} ItemsSnoc(items: seq<Item>, item: Item)
    ensures ItemsText(items + [item]) == ItemsText(items) + (item.lead + FieldText(item.field))
    ensures Values(items + [item]) == Values(items) + [FieldValue(item.field)]
  {
    if items == [] {
      assert items + [item] == [item];
      assert [item][1..] == [];
    } else {
      assert (items + [item])[0] == items[0] && (items + [item])[1..] == items[1..] + [item];
      ItemsSnoc(items[1..], item);
    }
  }

  /** The text, the values and the well-formedness of items with one more
      item in front. */
  lemma {:induction false} ItemsCons(item: Item, items: seq<Item>)
    ensures ItemsText([item] + items) == item.lead + FieldText(item.field) + ItemsText(items)
    ensures Values([item] + items) == [FieldValue(item.field)] + Values(items)
    ensures (AllWhitespace(item.lead) && WellFormedField(item.field) && WellFormedItems(items) &&
             (items != [] ==> |items[0].lead| > 0)) ==> WellFormedItems([item] + items)
  {
    var all := [item] + items;
    assert all[0] == item && all[1..] == items;
    if AllWhitespace(item.lead) && WellFormedField(item.field) && WellFormedItems(items) &&
      (items != [] ==> |items[0].lead| > 0) {
      forall k | 0 < k < |all|
        ensures AllWhitespace(all[k].lead) && WellFormedField(all[k].field) && |all[k].lead| > 0
      {
        assert all[k] == items[k - 1];
      }
    }
  }

  /** The text, the value and the well-formedness of pieces with one more
      piece in front. */
  lemma {:induction false} PiecesCons(piece: QuotedPiece, ps: seq<QuotedPiece>)
    ensures PiecesText([piece] + ps) == PieceText(piece) + PiecesText(ps)
    ensures PiecesValue([piece] + ps) == PieceValue(piece) + PiecesValue(ps)
    ensures WellFormedPieces(ps) && (piece.Literal? ==> piece.c != DQ) ==> WellFormedPieces([piece] + ps)
  {
    var all := [piece] + ps;
    assert all[0] == piece && all[1..] == ps;
    if WellFormedPieces(ps) && (piece.Literal? ==> piece.c != DQ) {
      forall k | 0 < k < |all| ensures all[k].Literal? ==> all[k].c != DQ {
        assert all[k] == ps[k - 1];
      }
    }
  }

  /** A quoted field made of the codepoints of text, none of them escaped. */
  function Literals(text: seq<int>): (ps: seq<QuotedPiece>)
    ensures |ps| == |text| && forall k :: 0 <= k < |ps| ==> ps[k] == Literal(text[k])
  {
    if text == [] then [] else [Literal(text[0])] + Literals(text[1..])
  }

  /** Unescaped codepoints spell out their own value; without a '"' among
      them they are well formed. */
  lemma {:induction false} LiteralsText(text: seq<int>)
    ensures PiecesText(Literals(text)) == text && PiecesValue(Literals(text)) == text
    ensures DQ !in text ==> WellFormedPieces(Literals(text))
  {
    if text != [] {
      var ps := Literals(text);
      assert ps[0] == Literal(text[0]) && ps[1..] == Literals(text[1..]);
      LiteralsText(text[1..]);
      assert text == [text[0]] + text[1..];
      if DQ !in text {
        forall k | 0 <= k < |ps| ensures ps[k].Literal? ==> ps[k].c != DQ {
          assert text[k] in text;
        }
      }
    }
  }
}
