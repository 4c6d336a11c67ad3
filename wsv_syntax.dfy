/** Codepoints, the WSV whitespace set, the outcome of a parse, and the scans
    that both editions of the parser share. wsv.go and wsvgolang.go declare the
    same constants, the same whitespace set and the same bare-value scan. */
module WsvSyntax {

  const LF := 0x0A
  const DQ := 0x22
  const HASH := 0x23
  const MINUS := 0x2D
  const SLASH := 0x2F

  /** The WSV whitespace codepoints, in increasing order. 0x0D (CR) is one
      of them, 0x0A (LF) is not. */
  const WhitespaceCodepoints: seq<int> := [
    0x09, 0x0B, 0x0C, 0x0D, 0x20, 0x85, 0xA0, 0x1680,
    0x2000, 0x2001, 0x2002, 0x2003, 0x2004, 0x2005, 0x2006, 0x2007, 0x2008, 0x2009, 0x200A,
    0x2028, 0x2029, 0x202F, 0x205F, 0x3000
  ]

  /** c is one of the first n whitespace codepoints, looked up from the n-th
      down. */
  predicate ListedBefore(c: int, n: nat)
    requires n <= |WhitespaceCodepoints|
  {
    n > 0 && (c == WhitespaceCodepoints[n - 1] || ListedBefore(c, n - 1))
  }

  /** The reference whitespace test that both editions' range tests are
      proved against. */
  predicate IsWsvWhitespace(c: int) {
    ListedBefore(c, |WhitespaceCodepoints|)
  }

  lemma {:induction false} ListedBeforeIsIn(c: int, n: nat)
    requires n <= |WhitespaceCodepoints|
    ensures ListedBefore(c, n) <==> c in WhitespaceCodepoints[..n]
  {
    if n > 0 {
      ListedBeforeIsIn(c, n - 1);
      assert WhitespaceCodepoints[..n] == WhitespaceCodepoints[..n - 1] + [WhitespaceCodepoints[n - 1]];
    }
  }

  lemma WhitespaceIsListed(c: int)
    ensures IsWsvWhitespace(c) <==> c in WhitespaceCodepoints
  {
    ListedBeforeIsIn(c, |WhitespaceCodepoints|);
    assert WhitespaceCodepoints[..|WhitespaceCodepoints|] == WhitespaceCodepoints;
  }

  /** No codepoint the grammar gives a meaning to is whitespace. */
  lemma SyntaxIsNotWhitespace(c: int)
    requires c == LF || c == DQ || c == HASH || c == MINUS || c == SLASH
    ensures !IsWsvWhitespace(c)
  {
    WhitespaceIsListed(c);
  }

  /** A field value, a row of fields and a whole document, as codepoints. */
  type Value = seq<int>
  type Row = seq<Value>
  type Table = seq<Row>

  /** The errors the parser can report (their message texts in the source are
      "invalid double quote in value", "string not closed", "invalid string line
      break", "invalid character after string" and "empty document"). */
  datatype ParseError =
    | InvalidDoubleQuoteInValue
    | StringNotClosed
    | InvalidStringLineBreak
    | InvalidCharacterAfterString
    | EmptyDocument

  /** What a call does: it returns a value, it returns an error, or it panics
      because it reads a slice element at index len (Go's index-out-of-range
      run-time panic). */
  datatype Outcome<+T> = Ok(value: T) | Err(error: ParseError) | Panic

  /** The same failure, at another result type. */
  function Propagate<T, U>(o: Outcome<T>): Outcome<U>
    requires !o.Ok?
  {
    match o
    case Err(e) => Err(e)
    case Panic => Panic
  }

  /** Puts xs in front of a successful result; a failure stays as it is. */
  function Prepend<T>(xs: seq<T>, o: Outcome<seq<T>>): Outcome<seq<T>> {
    match o
    case Ok(ys) => Ok(xs + ys)
    case Err(e) => Err(e)
    case Panic => Panic
  }

  lemma PrependNothing<T>(o: Outcome<seq<T>>)
    ensures Prepend([], o) == o
  {
    if o.Ok? {
      assert [] + o.value == o.value;
    }
  }

  lemma PrependPrepend<T>(xs: seq<T>, ys: seq<T>, o: Outcome<seq<T>>)
    ensures Prepend(xs, Prepend(ys, o)) == Prepend(xs + ys, o)
  {
    if o.Ok? {
      assert xs + (ys + o.value) == (xs + ys) + o.value;
    }
  }

  /** A scanned field: its value and the iterator index where the scan stopped. */
  datatype Token = Token(value: Value, end: nat)

  /** Puts v in front of the value of a successful scan. */
  function PrependValue(v: Value, o: Outcome<Token>): Outcome<Token> {
    match o
    case Ok(t) => Ok(Token(v + t.value, t.end))
    case Err(e) => Err(e)
    case Panic => Panic
  }

  lemma PrependValueNothing(o: Outcome<Token>)
    ensures PrependValue([], o) == o
  {
    if o.Ok? {
      assert [] + o.value.value == o.value.value;
    }
  }

  lemma PrependValuePrependValue(v: Value, w: Value, o: Outcome<Token>)
    ensures PrependValue(v, PrependValue(w, o)) == PrependValue(v + w, o)
  {
    if o.Ok? {
      assert v + (w + o.value.value) == (v + w) + o.value.value;
    }
  }

  /** Two scans one after the other: their values, in order. */
  lemma {:induction false} ChainValue(a: Outcome<Token>, b: Outcome<Token>, c: Outcome<Token>, v: Value, w: Value)
    requires a == PrependValue(v, b) && b == PrependValue(w, c)
    ensures a == PrependValue(v + w, c)
  {
    PrependValuePrependValue(v, w, c);
  }

  /** Two stretches of a line one after the other: their fields, in order. */
  lemma {:induction false} Chain(a: Outcome<Row>, b: Outcome<Row>, c: Outcome<Row>, xs: Row, ys: Row)
    requires a == Prepend(xs, b) && b == Prepend(ys, c)
    ensures a == Prepend(xs + ys, c)
  {
    PrependPrepend(xs, ys, c);
  }

  /** A failure after some fields stays that failure. */
  lemma PrependFailure<T>(xs: seq<T>, o: Outcome<seq<T>>, f: Outcome<Token>)
    requires !f.Ok? && o == Propagate(f)
    ensures Prepend(xs, o) == Propagate(f)
  {
  }

  /** What a scan function of the source returns: the value, or the error. */
  function ValueOf(o: Outcome<Token>): Outcome<Value> {
    match o
    case Ok(t) => Ok(t.value)
    case Err(e) => Err(e)
    case Panic => Panic
  }

  /** The null sentinel: a bare value that is exactly "-" stands for "". */
  function Collapse(v: Value): (r: Value)
    ensures r == [] <==> (v == [] || v == [MINUS])
    ensures v != [MINUS] ==> r == v
  {
    if v == [MINUS] then [] else v
  }

  /** Where a run of whitespace starting at i ends: the first index at or
      after i that does not hold whitespace, or |chars|. */
  function SkipWs(chars: seq<int>, i: nat): (r: nat)
    requires i <= |chars|
    ensures i <= r <= |chars|
    ensures forall j :: i <= j < r ==> IsWsvWhitespace(chars[j])
    ensures r < |chars| ==> !IsWsvWhitespace(chars[r])
    decreases |chars| - i
  {
    if i == |chars| || !IsWsvWhitespace(chars[i]) then i else SkipWs(chars, i + 1)
  }

  /** The codepoints that stop a bare value: whitespace, '#' and '"'. */
  predicate EndsBare(c: int) {
    IsWsvWhitespace(c) || c == HASH || c == DQ
  }

  /** Where a bare value starting at i stops: the first index after i (the
      first codepoint itself is never tested) that holds whitespace, '#' or
      '"', or |chars|. */
  function BareEnd(chars: seq<int>, i: nat): (r: nat)
    requires i < |chars|
    ensures i < r <= |chars|
    ensures forall j :: i < j < r ==> !EndsBare(chars[j])
    ensures r < |chars| ==> EndsBare(chars[r])
    decreases |chars| - i
  {
    if i + 1 == |chars| || EndsBare(chars[i + 1]) then i + 1 else BareEnd(chars, i + 1)
  }

  /** The bare-value scan of both editions: the raw codepoints from i up to
      BareEnd, or an error when the scan stopped at a '"'. The iterator is
      left at BareEnd in both cases. */
  function BareValue(chars: seq<int>, i: nat): (r: Outcome<Token>)
    requires i < |chars|
    ensures r.Ok? <==> (BareEnd(chars, i) == |chars| || chars[BareEnd(chars, i)] != DQ)
    ensures r.Ok? ==> r.value.end == BareEnd(chars, i) && r.value.value == chars[i..r.value.end]
    ensures r.Ok? ==> forall k :: 0 < k < |r.value.value| ==> !EndsBare(r.value.value[k])
    ensures !r.Ok? ==> r == Err(InvalidDoubleQuoteInValue)
  {
    var k := BareEnd(chars, i);
    if k < |chars| && chars[k] == DQ then Err(InvalidDoubleQuoteInValue) else Ok(Token(chars[i..k], k))
  }
}
