/** The parser of package wsvgolang (wsvgolang.go). It has the same grammar as
    package wsv, with two differences that change what it returns:
    - the WsvParser methods drop every error: parseLine appends the "" that a
      failing scan returns and goes on from wherever the scan left the
      iterator, so a line or a document never fails with an error;
    - parseDoubleQuotedValue tests `if iterator.next() { break }` where wsv.go
      tests `if !iterator.next() { break }`: a '"' followed by any codepoint
      ends the value at once, and a '"' that is the last codepoint of the line
      falls through to a read of chars[len(chars)], a run-time panic.
    The receiver structs WsvChar, WsvParser, WsvLine and WsvDocument have no
    fields; their methods are modelled as module-level members. */
module WsvGolang {
  import opened WsvSyntax
  import opened LineSplit

  /** WsvChar.isWhitespace: the range tests accept exactly the WSV whitespace
      set. */
  function IsWhitespace(c: int): (r: bool)
    ensures r <==> IsWsvWhitespace(c)
  {
    WhitespaceIsListed(c);
    c == 0x09 ||
    (0x0B <= c <= 0x0D) ||
    c == 0x20 ||
    c == 0x85 ||
    c == 0xA0 ||
    c == 0x1680 ||
    (0x2000 <= c <= 0x200A) ||
    (0x2028 <= c <= 0x2029) ||
    c == 0x202F ||
    c == 0x205F ||
    c == 0x3000
  }

  /** BasicWsvCharIterator of package wsvgolang: the codepoints of one line
      and a mutable index into them. Reads of the current codepoint require
      index < |chars|, as Go's bounds check does. */
  class CharIterator {
    const chars: seq<int>
    var index: nat
    const lineIndex: int  // stored, never read

    /** The index never moves past the end of the line. */
    ghost predicate Valid()
      reads this
    {
      index <= |chars|
    }

    constructor (chars: seq<int>, lineIndex: int)
      ensures this.chars == chars && index == 0 && this.lineIndex == lineIndex
      ensures Valid()
    {
      this.chars := chars;
      this.index := 0;
      this.lineIndex := lineIndex;
    }

    /** isEnd: at a valid index, exactly at the end of the line. */
    predicate IsEnd()
      reads this
      ensures Valid() ==> (IsEnd() <==> index == |chars|)
    {
      index >= |chars|
    }

    /** is: the codepoint that get reads is c. */
    predicate Is(c: int)
      reads this
      requires index < |chars|
      ensures Is(c) <==> Get() == c
    {
      chars[index] == c
    }

    /** isWhitespace: the codepoint that get reads is WSV whitespace. */
    predicate AtWhitespace()
      reads this
      requires index < |chars|
      ensures AtWhitespace() <==> IsWsvWhitespace(Get())
    {
      IsWhitespace(chars[index])
    }

    /** next: advances by one and tells whether a codepoint is now
        available; every caller calls it only before the end. */
    method Next() returns (more: bool)
      requires index < |chars|
      modifies this
      ensures index == old(index) + 1 && Valid()
      ensures more <==> index < |chars|
    {
      index := index + 1;
      more := !IsEnd();
    }

    /** get: the codepoint right after the ones before the index. */
    function Get(): (r: int)
      reads this
      requires index < |chars|
      ensures chars[..index] + [r] == chars[..index + 1]
    {
      chars[index]
    }

    /** getSlice: the codepoints from startIndex up to the index, so that
        the ones before startIndex and these are the ones before the index. */
    function Slice(startIndex: nat): (r: seq<int>)
      reads this
      requires startIndex <= index <= |chars|
      ensures |r| == index - startIndex && chars[..startIndex] + r == chars[..index]
    {
      chars[startIndex..index]
    }
  }

  /** WsvParser.skipWhitespace: leaves the index where it is unless the
      current codepoint is whitespace, and otherwise stops at the first
      codepoint that is not, or at the end of the line. */
  method SkipWhitespace(it: CharIterator)
    requires it.Valid()
    modifies it
    ensures it.Valid()
    ensures it.index == SkipWs(it.chars, old(it.index))
  {
    if it.IsEnd() {
      return;
    }
    if !it.AtWhitespace() {
      return;
    }
    while true
      invariant it.Valid() && old(it.index) <= it.index < |it.chars|
      invariant SkipWs(it.chars, old(it.index)) == SkipWs(it.chars, it.index)
      decreases |it.chars| - it.index
    {
      if !it.AtWhitespace() {
        return;
      }
      var more := it.Next();
      if !more {
        break;
      }
    }
  }

  /** WsvParser.parseValue: the same bare-value scan as in package wsv. */
  method ParseValue(it: CharIterator) returns (r: Outcome<Value>)
    requires it.Valid() && !it.IsEnd()
    modifies it
    ensures it.Valid()
    ensures r == ValueOf(BareValue(it.chars, old(it.index)))
    ensures it.index == BareEnd(it.chars, old(it.index))
  {
    var startIndex := it.index;
    while true
      invariant it.Valid() && startIndex <= it.index < |it.chars|
      invariant BareEnd(it.chars, startIndex) == BareEnd(it.chars, it.index)
      decreases |it.chars| - it.index
    {
      var more := it.Next();
      if !more {
        break;
      }
      if it.AtWhitespace() || it.Is(HASH) {
        break;
      } else if it.Is(DQ) {
        r := Err(InvalidDoubleQuoteInValue);
        return;
      }
    }
    r := Ok(it.Slice(startIndex));
  }

  /** The first '"' at or after p, or |chars|. */
  function FirstQuote(chars: seq<int>, p: nat): (q: nat)
    requires p <= |chars|
    ensures p <= q <= |chars|
    ensures forall j :: p <= j < q ==> chars[j] != DQ
    ensures q < |chars| ==> chars[q] == DQ
    decreases |chars| - p
  {
    if p == |chars| || chars[p] == DQ then p else FirstQuote(chars, p + 1)
  }

  /** What parseDoubleQuotedValue does from position p (the codepoint after
      the opening '"'): the value is every codepoint up to the next '"', with
      no escapes; if a codepoint follows that '"' the scan stops on it;
      if the '"' is the last codepoint the source reads chars[len(chars)] and
      panics; with no '"' at all the string is not closed. */
  function QuotedRest(chars: seq<int>, p: nat): (r: Outcome<Token>)
    requires p <= |chars|
    ensures r.Ok? <==> FirstQuote(chars, p) + 1 < |chars|
    ensures r.Ok? ==> r.value == Token(chars[p..FirstQuote(chars, p)], FirstQuote(chars, p) + 1)
    ensures r.Ok? ==> DQ !in r.value.value && p < r.value.end < |chars|
    ensures r.Err? <==> DQ !in chars[p..]
    ensures r.Err? ==> r.error == StringNotClosed
    ensures r.Panic? <==> FirstQuote(chars, p) + 1 == |chars|
  {
    var q := FirstQuote(chars, p);
    if q == |chars| then
      assert forall c :: c in chars[p..] ==> c != DQ;
      Err(StringNotClosed)
    else if q + 1 == |chars| then
      assert chars[p..][q - p] == DQ;
      Panic
    else
      assert chars[p..][q - p] == DQ;
      Ok(Token(chars[p..q], q + 1))
  }

  /** WsvParser.parseDoubleQuotedValue: scans a quoted value whose opening
      '"' is the current codepoint. When the string is not closed the
      iterator is left at the end of the line. */
  method ParseDoubleQuotedValue(it: CharIterator) returns (r: Outcome<Value>)
    requires it.Valid() && !it.IsEnd()
    modifies it
    ensures it.Valid()
    ensures r == ValueOf(QuotedRest(it.chars, old(it.index) + 1))
    ensures r.Ok? ==> it.index == QuotedRest(it.chars, old(it.index) + 1).value.end
    ensures r.Err? ==> it.index == |it.chars|
  {
    ghost var start := it.index;
    var value: Value := [];
    while true
      invariant it.Valid() && start <= it.index < |it.chars|
      invariant value == it.chars[start + 1..it.index + 1]
      invariant FirstQuote(it.chars, start + 1) == FirstQuote(it.chars, it.index + 1)
      decreases |it.chars| - it.index
    {
      var more := it.Next();
      if !more {
        r := Err(StringNotClosed);
        return;
      }
      if it.Is(DQ) {
        more := it.Next();
        if more {
          break;
        }
        // the tests that follow in the source begin with is('"'), a read
        // of chars[len(chars)]
        r := Panic;
        return;
      } else {
        value := value + [it.Get()];
      }
    }
    r := Ok(value);
  }

  /** The fields of a line from index i on. Same loop as package wsv, but a
      failing scan contributes "" and the line goes on from where the scan
      left the iterator: at the '"' that stopped a bare value, or at the end
      of the line after an unclosed string. */
  function LineFrom(chars: seq<int>, i: nat): (r: Outcome<Row>)
    requires i <= |chars|
    ensures !r.Err?
    ensures r.Ok? ==> |r.value| <= |chars| - i
    decreases |chars| - i
  {
    var j := SkipWs(chars, i);
    if j == |chars| || chars[j] == HASH then Ok([])
    else if chars[j] == DQ then
      match QuotedRest(chars, j + 1)
      case Ok(t) => Prepend([t.value], LineFrom(chars, t.end))
      case Err(_) => Prepend([[]], LineFrom(chars, |chars|))
      case Panic => Panic
    else
      var k := BareEnd(chars, j);
      match BareValue(chars, j)
      case Ok(t) => Prepend([Collapse(t.value)], LineFrom(chars, k))
      case Err(_) => Prepend([[]], LineFrom(chars, k))
      case Panic => Panic
  }

  /** One pass of the line loop from i, whose whitespace ends at the field
      at j: the pass appends v and goes on from e, where the scan left the
      iterator. A failed scan appends "". */
  lemma {:induction false} LineFromStep(chars: seq<int>, i: nat, j: nat, v: Value, e: nat)
    requires i <= |chars| && j == SkipWs(chars, i) && j < |chars| && chars[j] != HASH
    requires chars[j] == DQ ==>
      !QuotedRest(chars, j + 1).Panic? &&
      v == (if QuotedRest(chars, j + 1).Ok? then QuotedRest(chars, j + 1).value.value else []) &&
      e == (if QuotedRest(chars, j + 1).Ok? then QuotedRest(chars, j + 1).value.end else |chars|)
    requires chars[j] != DQ ==>
      v == Collapse(if BareValue(chars, j).Ok? then BareValue(chars, j).value.value else []) &&
      e == BareEnd(chars, j)
    ensures e <= |chars| && LineFrom(chars, i) == Prepend([v], LineFrom(chars, e))
  {
  }

  /** WsvParser.parseLine: tokenizes one line, dropping every error. */
  method ParseLine(line: seq<int>, lineIndex: int) returns (r: Outcome<Row>)
    ensures r == LineFrom(line, 0)
  {
    var it := new CharIterator(line, lineIndex);
    var values: Row := [];
    PrependNothing(LineFrom(line, 0));
    while true
      invariant it.chars == line && it.Valid()
      invariant LineFrom(line, 0) == Prepend(values, LineFrom(line, it.index))
      decreases |line| - it.index
    {
      ghost var before := it.index;
      SkipWhitespace(it);
      if it.IsEnd() {
        break;
      }
      if it.Is(HASH) {
        break;
      }
      ghost var j := it.index;
      var curValue: Value;
      if it.Is(DQ) {
        var v := ParseDoubleQuotedValue(it);
        if v.Panic? {
          r := Panic;
          return;
        }
        // an error leaves curValue == ""
        curValue := if v.Ok? then v.value else [];
      } else {
        var v := ParseValue(it);
        curValue := if v.Ok? then v.value else [];
        if curValue == [MINUS] {
          curValue := [];
        }
      }
      LineFromStep(line, before, j, curValue, it.index);
      Chain(LineFrom(line, 0), LineFrom(line, before), LineFrom(line, it.index), values, [curValue]);
      values := values + [curValue];
    }
    assert values + [] == values;
    r := Ok(values);
  }

  /** The rows of a document given as its lines: one row per line, unless a
      line panics. */
  function ParseLines(lines: seq<seq<int>>): (r: Outcome<Table>)
    ensures !r.Err?
    ensures r.Ok? ==> |r.value| == |lines|
    ensures r.Ok? ==> forall k :: 0 <= k < |lines| ==> LineFrom(lines[k], 0) == Ok(r.value[k])
    ensures r.Panic? <==> exists k :: 0 <= k < |lines| && LineFrom(lines[k], 0).Panic?
  {
    if lines == [] then Ok([])
    else
      var rest := ParseLines(lines[1..]);
      assert forall k :: 1 <= k < |lines| ==> lines[k] == lines[1..][k - 1];
      match LineFrom(lines[0], 0)
      case Ok(row) => Prepend([row], rest)
      case Panic => Panic
  }

  /** The document parsed line by line, lines split on linefeed. */
  function Document(content: seq<int>): (r: Outcome<Table>)
    ensures !r.Err?
    ensures r.Ok? ==> |r.value| == multiset(content)[LF] + 1
  {
    ParseLines(SplitLines(content))
  }

  /** WsvParser.parseDocumentNonPreserving: parses every line in order. */
  method ParseDocumentNonPreserving(content: seq<int>) returns (r: Outcome<Table>)
    ensures r == Document(content)
  {
    var lines := SplitLines(content);
    var result: Table := [];
    var i := 0;
    assert lines[0..] == lines;
    PrependNothing(ParseLines(lines));
    while i < |lines|
      invariant 0 <= i <= |lines|
      invariant ParseLines(lines) == Prepend(result, ParseLines(lines[i..]))
    {
      var lineValues := ParseLine(lines[i], i);
      assert lines[i..][0] == lines[i] && lines[i..][1..] == lines[i + 1..];
      if lineValues.Panic? {
        r := Panic;
        return;
      }
      PrependPrepend(result, [lineValues.value], ParseLines(lines[i + 1..]));
      result := result + [lineValues.value];
      i := i + 1;
    }
    assert result + [] == result;
    r := Ok(result);
  }

  /** WsvParser.parseLineAsArray: element 0 of the document, taken without
      an emptiness check; the split always yields a first line. */
  method ParseLineAsArray(content: seq<int>) returns (r: Outcome<Row>)
    ensures Document(content).Ok? ==> r == LineFrom(SplitLines(content)[0], 0)
    ensures Document(content).Panic? ==> r == Panic
  {
    var document := ParseDocumentNonPreserving(content);
    if document.Panic? {
      r := Panic;
      return;
    }
    r := Ok(document.value[0]);
  }

  /** WsvLine.parseAsArray: forwards to WsvParser.parseLineAsArray. */
  method LineParseAsArray(content: seq<int>) returns (r: Outcome<Row>)
    ensures Document(content).Ok? ==> r == LineFrom(SplitLines(content)[0], 0)
    ensures Document(content).Panic? ==> r == Panic
  {
    r := ParseLineAsArray(content);
  }

  /** WsvDocument.parseAsJaggedArray: forwards to
      WsvParser.parseDocumentNonPreserving. */
  method DocumentParseAsJaggedArray(content: seq<int>) returns (r: Outcome<Table>)
    ensures r == Document(content)
  {
    r := ParseDocumentNonPreserving(content);
  }
}
