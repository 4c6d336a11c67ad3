/** The documents written out in the source's tests ("a b c" LF "1 2 3" in both
    editions, and the jagged "a b c" LF "1 2 3 4" LF "5 6 7" of package wsv),
    worked through the grammar theorems. */
module Samples {
  import opened WsvSyntax
  import opened LineSplit
  import opened WsvGrammar
  import Wsv
  import WsvGolang
  import WsvProperties
  import Editions

  /** A codepoint that makes a bare field on its own and reads back as
      itself: not whitespace, '#', '"', a linefeed or '-'. Letters and digits
      are such codepoints, since the WSV whitespace set holds none of them
      (AsciiPlain, NonAsciiPlain). */
  predicate PlainCodepoint(c: int) {
    !EndsBare(c) && c != LF && c != MINUS
  }

  predicate AllPlain(cs: seq<int>) {
    forall k :: 0 <= k < |cs| ==> PlainCodepoint(cs[k])
  }

  /** An ASCII digit or a lowercase ASCII letter. */
  predicate Alphanumeric(c: int) {
    0x30 <= c <= 0x39 || 0x61 <= c <= 0x7A
  }

  /** An uppercase letter and letters beyond ASCII are plain too: 'A',
      'é' (U+00E9) and 'ж' (U+0436). */
  lemma {:induction false} NonAsciiPlain()
    ensures PlainCodepoint(0x41) && PlainCodepoint(0xE9) && PlainCodepoint(0x436)
  {
    WhitespaceIsListed(0x41);
    WhitespaceIsListed(0xE9);
    WhitespaceIsListed(0x436);
  }

  /** ASCII digits and lowercase ASCII letters are plain codepoints. */
  lemma {:induction false} AsciiPlain(c: int)
    requires Alphanumeric(c)
    ensures PlainCodepoint(c)
  {
    WhitespaceIsListed(c);
  }

  lemma {:induction false} SpaceIsWhitespace()
    ensures IsWsvWhitespace(0x20)
  {
    WhitespaceIsListed(0x20);
    assert WhitespaceCodepoints[4] == 0x20;
  }

  /** One-codepoint bare fields, each after a single space. */
  function SpacedItems(cs: seq<int>): seq<Item> {
    seq(|cs|, k requires 0 <= k < |cs| => Item([0x20], Bare([cs[k]])))
  }

  /** One-codepoint bare fields separated by single spaces. */
  function Spaced(cs: seq<int>): Line
    requires cs != []
  {
    Line([Item([], Bare([cs[0]]))] + SpacedItems(cs[1..]), [], [])
  }

  /** A space before each codepoint. */
  function Gaps(cs: seq<int>): seq<int> {
    if cs == [] then [] else [0x20, cs[0]] + Gaps(cs[1..])
  }

  /** The codepoints with a space between each two. */
  function SpacedText(cs: seq<int>): seq<int>
    requires cs != []
  {
    [cs[0]] + Gaps(cs[1..])
  }

  /** Each codepoint as a value of its own. */
  function Singletons(cs: seq<int>): Row {
    seq(|cs|, k requires 0 <= k < |cs| => [cs[k]])
  }

  lemma {:induction false} SpacedItemsWellFormed(cs: seq<int>)
    requires AllPlain(cs)
    ensures WellFormedItems(SpacedItems(cs))
  {
    SpaceIsWhitespace();
    var it := SpacedItems(cs);
    forall k | 0 <= k < |it|
      ensures AllWhitespace(it[k].lead) && WellFormedField(it[k].field)
    {
      assert it[k] == Item([0x20], Bare([cs[k]]));
    }
  }

  lemma {:induction false} SpacedItemsRead(cs: seq<int>)
    requires AllPlain(cs)
    ensures ItemsText(SpacedItems(cs)) == Gaps(cs) && LF !in Gaps(cs) && DQ !in Gaps(cs)
    ensures Values(SpacedItems(cs)) == Singletons(cs)
    decreases |cs|
  {
    if cs != [] {
      var head := Item([0x20], Bare([cs[0]]));
      var tail := SpacedItems(cs[1..]);
      assert SpacedItems(cs) == [head] + tail;
      SpacedItemsRead(cs[1..]);
      ItemsCons(head, tail);
      assert Singletons(cs) == [[cs[0]]] + Singletons(cs[1..]);
    }
  }

  lemma {:induction false} GapsCons(c: int, cs: seq<int>)
    ensures Gaps([c] + cs) == [0x20, c] + Gaps(cs)
  {
    assert ([c] + cs)[1..] == cs;
  }

  lemma {:induction false} SpacedThree(x: int, y: int, z: int)
    ensures SpacedText([x, y, z]) == [x, 0x20, y, 0x20, z]
    ensures Singletons([x, y, z]) == [[x], [y], [z]]
  {
    GapsCons(z, []);
    GapsCons(y, [z]);
    assert [x, y, z][1..] == [y] + [z];
    assert [y] + [z] == [y, z];
  }

  lemma {:induction false} SpacedFour(w: int, x: int, y: int, z: int)
    ensures SpacedText([w, x, y, z]) == [w, 0x20, x, 0x20, y, 0x20, z]
    ensures Singletons([w, x, y, z]) == [[w], [x], [y], [z]]
  {
    GapsCons(z, []);
    GapsCons(y, [z]);
    GapsCons(x, [y, z]);
    assert [y] + [z] == [y, z] && [x] + [y, z] == [x, y, z];
    assert [w, x, y, z][1..] == [x, y, z];
  }

  /** A spaced line of plain codepoints is well formed, has no linefeed and
      no '"', and its values are its codepoints. */
  lemma {:induction false} SpacedLine(cs: seq<int>)
    requires cs != [] && AllPlain(cs)
    ensures WellFormedLine(Spaced(cs)) && LineText(Spaced(cs)) == SpacedText(cs)
    ensures LF !in SpacedText(cs) && DQ !in SpacedText(cs)
    ensures Values(Spaced(cs).items) == Singletons(cs)
  {
    SpacedLineText(cs);
    SpacedLineValues(cs);
  }

  lemma {:induction false} SpacedLineText(cs: seq<int>)
    requires cs != [] && AllPlain(cs)
    ensures WellFormedLine(Spaced(cs)) && LineText(Spaced(cs)) == SpacedText(cs)
    ensures LF !in SpacedText(cs) && DQ !in SpacedText(cs)
  {
    var first := Item([], Bare([cs[0]]));
    var rest := SpacedItems(cs[1..]);
    assert Spaced(cs).items == [first] + rest;
    SpacedItemsRead(cs[1..]);
    SpacedItemsWellFormed(cs[1..]);
    ItemsCons(first, rest);
    assert LineText(Spaced(cs)) == ItemsText([first] + rest) + [] + [];
  }

  lemma {:induction false} SpacedLineValues(cs: seq<int>)
    requires cs != [] && AllPlain(cs)
    ensures Values(Spaced(cs).items) == Singletons(cs)
  {
    var first := Item([], Bare([cs[0]]));
    var rest := SpacedItems(cs[1..]);
    assert Spaced(cs).items == [first] + rest;
    SpacedItemsRead(cs[1..]);
    ItemsCons(first, rest);
    SingletonsCons(cs);
  }

  lemma {:induction false} SingletonsCons(cs: seq<int>)
    requires cs != []
    ensures Singletons(cs) == [[cs[0]]] + Singletons(cs[1..])
  {
  }

  /** The lines of a document of spaced lines. */
  function SpacedLines(rows: seq<seq<int>>): seq<Line>
    requires forall k :: 0 <= k < |rows| ==> rows[k] != []
  {
    seq(|rows|, k requires 0 <= k < |rows| => Spaced(rows[k]))
  }

  /** Spaced lines of plain codepoints, of any lengths, joined by
      linefeeds, parse to one row per line holding that line's codepoints. */
  lemma {:induction false} SpacedDocument(rows: seq<seq<int>>)
    requires |rows| > 0
    requires forall k :: 0 <= k < |rows| ==> rows[k] != [] && AllPlain(rows[k])
    ensures Wsv.Document(JoinLines(seq(|rows|, k requires 0 <= k < |rows| => SpacedText(rows[k])))) ==
      Ok(seq(|rows|, k requires 0 <= k < |rows| => Singletons(rows[k])))
  {
    var ls := SpacedLines(rows);
    forall k | 0 <= k < |ls|
      ensures WellFormedLine(ls[k]) && LF !in LineText(ls[k])
      ensures LineText(ls[k]) == SpacedText(rows[k]) && Values(ls[k].items) == Singletons(rows[k])
    {
      SpacedLine(rows[k]);
    }
    LineTextsAt(ls);
    LineValuesAt(ls);
    assert LineTexts(ls) == seq(|rows|, k requires 0 <= k < |rows| => SpacedText(rows[k]));
    assert LineValues(ls) == seq(|rows|, k requires 0 <= k < |rows| => Singletons(rows[k]));
    WsvProperties.DocumentGrammar(ls);
  }

  /** The text of two lines of three spaced plain codepoints, and their
      values, as SpacedDocument builds them. */
  lemma {:induction false} TwoSpacedTexts(x1: int, y1: int, z1: int, x2: int, y2: int, z2: int)
    requires PlainCodepoint(x1) && PlainCodepoint(y1) && PlainCodepoint(z1)
    requires PlainCodepoint(x2) && PlainCodepoint(y2) && PlainCodepoint(z2)
    ensures var rows := [[x1, y1, z1], [x2, y2, z2]];
      JoinLines(seq(|rows|, k requires 0 <= k < |rows| => SpacedText(rows[k]))) ==
        [x1, 0x20, y1, 0x20, z1, LF, x2, 0x20, y2, 0x20, z2] &&
      seq(|rows|, k requires 0 <= k < |rows| => Singletons(rows[k])) == [[[x1], [y1], [z1]], [[x2], [y2], [z2]]]
    ensures DQ !in [x1, 0x20, y1, 0x20, z1, LF, x2, 0x20, y2, 0x20, z2]
  {
    var rows := [[x1, y1, z1], [x2, y2, z2]];
    var t1 := [x1, 0x20, y1, 0x20, z1];
    var t2 := [x2, 0x20, y2, 0x20, z2];
    SpacedThree(x1, y1, z1);
    SpacedThree(x2, y2, z2);
    var texts := seq(|rows|, k requires 0 <= k < |rows| => SpacedText(rows[k]));
    assert texts == [t1, t2];
    assert texts[1..] == [t2];
    JoinCons(t1, [t2]);
    assert seq(|rows|, k requires 0 <= k < |rows| => Singletons(rows[k])) == [[[x1], [y1], [z1]], [[x2], [y2], [z2]]];
    assert 0x20 != DQ && LF != DQ;
  }

  /** Two lines of three spaced plain codepoints, joined by a linefeed,
      parse to two rows of three values: "a b c" LF "1 2 3" gives
      [["a","b","c"],["1","2","3"]], in both editions. */
  lemma {:induction false} TwoSpacedLines(x1: int, y1: int, z1: int, x2: int, y2: int, z2: int)
    requires PlainCodepoint(x1) && PlainCodepoint(y1) && PlainCodepoint(z1)
    requires PlainCodepoint(x2) && PlainCodepoint(y2) && PlainCodepoint(z2)
    ensures Wsv.Document([x1, 0x20, y1, 0x20, z1, LF, x2, 0x20, y2, 0x20, z2]) ==
      Ok([[[x1], [y1], [z1]], [[x2], [y2], [z2]]])
    ensures WsvGolang.Document([x1, 0x20, y1, 0x20, z1, LF, x2, 0x20, y2, 0x20, z2]) ==
      Ok([[[x1], [y1], [z1]], [[x2], [y2], [z2]]])
  {
    SpacedDocument([[x1, y1, z1], [x2, y2, z2]]);
    TwoSpacedTexts(x1, y1, z1, x2, y2, z2);
    Editions.QuoteFreeDocumentsAgree([x1, 0x20, y1, 0x20, z1, LF, x2, 0x20, y2, 0x20, z2]);
  }

  /** The rows of the jagged document are plain ASCII letters and digits. */
  lemma {:induction false} JaggedPlain()
    ensures var rows := [[0x61, 0x62, 0x63], [0x31, 0x32, 0x33, 0x34], [0x35, 0x36, 0x37]];
      forall k :: 0 <= k < |rows| ==> rows[k] != [] && AllPlain(rows[k])
  {
    var rows := [[0x61, 0x62, 0x63], [0x31, 0x32, 0x33, 0x34], [0x35, 0x36, 0x37]];
    forall k, m | 0 <= k < |rows| && 0 <= m < |rows[k]|
      ensures PlainCodepoint(rows[k][m])
    {
      AsciiPlain(rows[k][m]);
    }
  }

  /** The text of the jagged document, as SpacedDocument builds it. */
  lemma {:induction false} JaggedText()
    ensures var rows := [[0x61, 0x62, 0x63], [0x31, 0x32, 0x33, 0x34], [0x35, 0x36, 0x37]];
      JoinLines(seq(|rows|, k requires 0 <= k < |rows| => SpacedText(rows[k]))) ==
        [0x61, 0x20, 0x62, 0x20, 0x63, LF, 0x31, 0x20, 0x32, 0x20, 0x33, 0x20, 0x34, LF, 0x35, 0x20, 0x36, 0x20, 0x37]
  {
    var rows := [[0x61, 0x62, 0x63], [0x31, 0x32, 0x33, 0x34], [0x35, 0x36, 0x37]];
    var t1 := [0x61, 0x20, 0x62, 0x20, 0x63];
    var t2 := [0x31, 0x20, 0x32, 0x20, 0x33, 0x20, 0x34];
    var t3 := [0x35, 0x20, 0x36, 0x20, 0x37];
    SpacedThree(0x61, 0x62, 0x63);
    SpacedFour(0x31, 0x32, 0x33, 0x34);
    SpacedThree(0x35, 0x36, 0x37);
    var texts := seq(|rows|, k requires 0 <= k < |rows| => SpacedText(rows[k]));
    assert texts == [t1, t2, t3];
    JoinThree(t1, t2, t3);
  }

  lemma {:induction false} JoinThree(a: seq<int>, b: seq<int>, c: seq<int>)
    ensures JoinLines([a, b, c]) == a + [LF] + b + [LF] + c
  {
    assert [a, b, c][1..] == [b, c] && [b, c][1..] == [c];
    JoinCons(b, [c]);
    JoinCons(a, [b, c]);
  }

  /** The values of the jagged document, as SpacedDocument builds them. */
  lemma {:induction false} JaggedValues()
    ensures var rows := [[0x61, 0x62, 0x63], [0x31, 0x32, 0x33, 0x34], [0x35, 0x36, 0x37]];
      seq(|rows|, k requires 0 <= k < |rows| => Singletons(rows[k])) ==
        [[[0x61], [0x62], [0x63]], [[0x31], [0x32], [0x33], [0x34]], [[0x35], [0x36], [0x37]]]
  {
    SpacedThree(0x61, 0x62, 0x63);
    SpacedFour(0x31, 0x32, 0x33, 0x34);
    SpacedThree(0x35, 0x36, 0x37);
  }

  /** The jagged document "a b c" LF "1 2 3 4" LF "5 6 7" parses to rows of
      three, four and three values. */
  lemma {:induction false} JaggedLines()
    ensures Wsv.Document([0x61, 0x20, 0x62, 0x20, 0x63, LF,
                          0x31, 0x20, 0x32, 0x20, 0x33, 0x20, 0x34, LF,
                          0x35, 0x20, 0x36, 0x20, 0x37]) ==
      Ok([[[0x61], [0x62], [0x63]], [[0x31], [0x32], [0x33], [0x34]], [[0x35], [0x36], [0x37]]])
  {
    JaggedPlain();
    SpacedDocument([[0x61, 0x62, 0x63], [0x31, 0x32, 0x33, 0x34], [0x35, 0x36, 0x37]]);
    JaggedText();
    JaggedValues();
  }
}
