/** The parser of package wsv (wsv.go): a cursor over a line's codepoints, a
    line tokenizer that reports the first error it meets, and the document
    parser that aborts on the first line that fails.

    Each loop of the source is a method proved against a specification
    function: SkipWs and BareValue (shared with the other edition), QuotedRest
    for a quoted value, LineFrom for a line and Document for a document. */
module Wsv {
  import opened WsvSyntax
  import opened LineSplit

  /** isWhitespace: the range tests of the source accept exactly the WSV
      whitespace set. */
  function IsWhitespace(c: int): (r: bool)
    ensures r <==> IsWsvWhitespace(c)
  {
    WhitespaceIsListed(c);
    c == 0x09 ||
    (0x0B <= c <= 0x0D) ||
    c == 0x20 ||
    c == 0x85 ||
    c == 0xA0 ||
    c == 0x1680 ||
    (0x2000 <= c <= 0x200A) ||
    (0x2028 <= c <= 0x2029) ||
    c == 0x202F ||
    c == 0x205F ||
    c == 0x3000
  }

  /** BasicWsvCharIterator: the codepoints of one line and a mutable index
      into them. The reads of the current codepoint require index < |chars|,
      as Go's bounds check does; a read at index |chars| is a run-time panic,
      which the callers below turn into the Panic outcome where the source
      can reach it. */
  class CharIterator {
    const chars: seq<int>
    var index: nat
    const lineIndex: int  // stored, never read

    /** The index never moves past the end of the line. */
    ghost predicate Valid()
      reads this
    {
      index <= |chars|
    }

    constructor (chars: seq<int>, lineIndex: int)
      ensures this.chars == chars && index == 0 && this.lineIndex == lineIndex
      ensures Valid()
    {
      this.chars := chars;
      this.index := 0;
      this.lineIndex := lineIndex;
    }

    /** isEnd: at a valid index, exactly at the end of the line. */
    predicate IsEnd()
      reads this
      ensures Valid() ==> (IsEnd() <==> index == |chars|)
    {
      index >= |chars|
    }

    /** is: the codepoint that get reads is c. */
    predicate Is(c: int)
      reads this
      requires index < |chars|
      ensures Is(c) <==> Get() == c
    {
      chars[index] == c
    }

    /** isWhitespace: the codepoint that get reads is WSV whitespace. */
    predicate AtWhitespace()
      reads this
      requires index < |chars|
      ensures AtWhitespace() <==> IsWsvWhitespace(Get())
    {
      IsWhitespace(chars[index])
    }

    /** next: advances by one and tells whether a codepoint is now
        available. Every caller calls it only before the end, so the index
        never exceeds |chars|. */
    method Next() returns (more: bool)
      requires index < |chars|
      modifies this
      ensures index == old(index) + 1 && Valid()
      ensures more <==> index < |chars|
    {
      index := index + 1;
      more := !IsEnd();
    }

    /** get: the codepoint right after the ones before the index. */
    function Get(): (r: int)
      reads this
      requires index < |chars|
      ensures chars[..index] + [r] == chars[..index + 1]
    {
      chars[index]
    }

    /** getSlice: the codepoints from startIndex up to the index, so that
        the ones before startIndex and these are the ones before the index. */
    function Slice(startIndex: nat): (r: seq<int>)
      reads this
      requires startIndex <= index <= |chars|
      ensures |r| == index - startIndex && chars[..startIndex] + r == chars[..index]
    {
      chars[startIndex..index]
    }
  }

  /** skipWhitespace: moves the iterator to the end of the whitespace run it
      stands on. */
  method SkipWhitespace(it: CharIterator)
    requires it.Valid()
    modifies it
    ensures it.Valid()
    ensures it.index == SkipWs(it.chars, old(it.index))
  {
    if it.IsEnd() {
      return;
    }
    var ok := true;
    while ok
      invariant it.Valid() && old(it.index) <= it.index
      invariant ok <==> it.index < |it.chars|
      invariant SkipWs(it.chars, old(it.index)) == SkipWs(it.chars, it.index)
      decreases |it.chars| - it.index
    {
      if !it.AtWhitespace() {
        break;
      }
      ok := it.Next();
    }
  }

  /** parseValue: scans a bare value from the current codepoint. */
  method ParseValue(it: CharIterator) returns (r: Outcome<Value>)
    requires it.Valid() && !it.IsEnd()
    modifies it
    ensures it.Valid()
    ensures r == ValueOf(BareValue(it.chars, old(it.index)))
    ensures it.index == BareEnd(it.chars, old(it.index))
  {
    var startIndex := it.index;
    while true
      invariant it.Valid() && startIndex <= it.index < |it.chars|
      invariant BareEnd(it.chars, startIndex) == BareEnd(it.chars, it.index)
      decreases |it.chars| - it.index
    {
      var more := it.Next();
      if !more {
        break;
      }
      if it.AtWhitespace() || it.Is(HASH) {
        break;
      } else if it.Is(DQ) {
        r := Err(InvalidDoubleQuoteInValue);
        return;
      }
    }
    r := Ok(it.Slice(startIndex));
  }

  /** The quoted-value state machine of parseDoubleQuotedValue, from position
      p (the codepoint after the last one consumed). '""' decodes to '"';
      '"/' decodes to a linefeed and consumes the next codepoint whatever it
      is; a '"' followed by whitespace, '#' or the end of the line closes the
      value. When '"/' ends the line the source reads chars[len(chars)]: a
      Panic, so its "invalid string line break" error is never returned. */
  function QuotedRest(chars: seq<int>, p: nat): (r: Outcome<Token>)
    requires p <= |chars|
    ensures r.Ok? ==> p < r.value.end <= |chars|
    decreases |chars| - p
  {
    if p == |chars| then Err(StringNotClosed)
    else if chars[p] != DQ then PrependValue([chars[p]], QuotedRest(chars, p + 1))
    else if p + 1 == |chars| then Ok(Token([], p + 1))
    else if chars[p + 1] == DQ then PrependValue([DQ], QuotedRest(chars, p + 2))
    else if chars[p + 1] == SLASH then
      if p + 2 == |chars| then Panic else PrependValue([LF], QuotedRest(chars, p + 3))
    else if IsWsvWhitespace(chars[p + 1]) || chars[p + 1] == HASH then Ok(Token([], p + 1))
    else Err(InvalidCharacterAfterString)
  }

  /** A quoted value fails only as "string not closed" or "invalid character
      after string". */
  lemma {:induction false} QuotedErrors(chars: seq<int>, p: nat)
    requires p <= |chars|
    ensures QuotedRest(chars, p).Err? ==>
      QuotedRest(chars, p).error == StringNotClosed || QuotedRest(chars, p).error == InvalidCharacterAfterString
    decreases |chars| - p
  {
    if p < |chars| {
      if chars[p] != DQ {
        QuotedErrors(chars, p + 1);
      } else if p + 1 < |chars| && chars[p + 1] == DQ {
        QuotedErrors(chars, p + 2);
      } else if p + 2 < |chars| && chars[p + 1] == SLASH {
        QuotedErrors(chars, p + 3);
      }
    }
  }

  /** parseDoubleQuotedValue: scans a quoted value whose opening '"' is the
      current codepoint. */
  method ParseDoubleQuotedValue(it: CharIterator) returns (r: Outcome<Value>)
    requires it.Valid() && !it.IsEnd()
    modifies it
    ensures it.Valid()
    ensures r == ValueOf(QuotedRest(it.chars, old(it.index) + 1))
    ensures r.Ok? ==> it.index == QuotedRest(it.chars, old(it.index) + 1).value.end
  {
    ghost var start := it.index;
    var value: Value := [];
    PrependValueNothing(QuotedRest(it.chars, start + 1));
    while true
      invariant it.Valid() && start <= it.index < |it.chars|
      invariant QuotedRest(it.chars, start + 1) == PrependValue(value, QuotedRest(it.chars, it.index + 1))
      decreases |it.chars| - it.index
    {
      var more := it.Next();
      if !more {
        r := Err(StringNotClosed);
        return;
      }
      if it.Is(DQ) {
        more := it.Next();
        if !more {
          break;
        }
        if it.Is(DQ) {
          PrependValuePrependValue(value, [DQ], QuotedRest(it.chars, it.index + 1));
          value := value + [DQ];
        } else if it.Is(SLASH) {
          more := it.Next();
          if !more {
            // `!next() && is('"')` reads chars[len(chars)]
            r := Panic;
            return;
          }
          PrependValuePrependValue(value, [LF], QuotedRest(it.chars, it.index + 1));
          value := value + [LF];
        } else if it.AtWhitespace() || it.Is(HASH) {
          break;
        } else {
          r := Err(InvalidCharacterAfterString);
          return;
        }
      } else {
        PrependValuePrependValue(value, [it.Get()], QuotedRest(it.chars, it.index + 1));
        value := value + [it.Get()];
      }
    }
    assert value + [] == value;
    r := Ok(value);
  }

  /** The fields of a line from index i on, in source order: skip whitespace;
      stop at the end or at '#'; otherwise read a quoted or a bare value (a
      bare "-" becomes "") and go on after it. The first error ends the line. */
  function LineFrom(chars: seq<int>, i: nat): (r: Outcome<Row>)
    requires i <= |chars|
    ensures r.Ok? ==> |r.value| <= |chars| - i
    decreases |chars| - i
  {
    var j := SkipWs(chars, i);
    if j == |chars| || chars[j] == HASH then Ok([])
    else if chars[j] == DQ then
      match QuotedRest(chars, j + 1)
      case Ok(t) => Prepend([t.value], LineFrom(chars, t.end))
      case Err(e) => Err(e)
      case Panic => Panic
    else
      match BareValue(chars, j)
      case Ok(t) => Prepend([Collapse(t.value)], LineFrom(chars, t.end))
      case Err(e) => Err(e)
      case Panic => Panic
  }

  /** A line fails with one of the three value errors; "invalid string line
      break" and "empty document" never come out of a line. */
  lemma {:induction false} LineErrors(chars: seq<int>, i: nat)
    requires i <= |chars|
    ensures LineFrom(chars, i).Err? ==>
      LineFrom(chars, i).error in {InvalidDoubleQuoteInValue, StringNotClosed, InvalidCharacterAfterString}
    decreases |chars| - i
  {
    var j := SkipWs(chars, i);
    if j < |chars| && chars[j] != HASH {
      if chars[j] == DQ {
        QuotedErrors(chars, j + 1);
        if QuotedRest(chars, j + 1).Ok? {
          LineErrors(chars, QuotedRest(chars, j + 1).value.end);
        }
      } else if BareValue(chars, j).Ok? {
        LineErrors(chars, BareValue(chars, j).value.end);
      }
    }
  }

  /** parseLine: tokenizes one line (without its linefeed). */
  method ParseLine(line: seq<int>, lineIndex: int) returns (r: Outcome<Row>)
    ensures r == LineFrom(line, 0)
  {
    var it := new CharIterator(line, lineIndex);
    var values: Row := [];
    PrependNothing(LineFrom(line, 0));
    while true
      invariant it.chars == line && it.Valid()
      invariant LineFrom(line, 0) == Prepend(values, LineFrom(line, it.index))
      decreases |line| - it.index
    {
      SkipWhitespace(it);
      if it.IsEnd() {
        break;
      }
      if it.Is(HASH) {
        break;
      }
      var curValue: Value;
      if it.Is(DQ) {
        var v := ParseDoubleQuotedValue(it);
        if !v.Ok? {
          r := Propagate(v);
          return;
        }
        curValue := v.value;
      } else {
        var v := ParseValue(it);
        if !v.Ok? {
          r := Propagate(v);
          return;
        }
        curValue := v.value;
        if curValue == [MINUS] {
          curValue := [];
        }
      }
      PrependPrepend(values, [curValue], LineFrom(line, it.index));
      values := values + [curValue];
    }
    assert values + [] == values;
    r := Ok(values);
  }

  /** The rows of a document given as its lines: one row per line, or the
      failure of the first line that fails. */
  function ParseLines(lines: seq<seq<int>>): (r: Outcome<Table>)
    ensures r.Ok? ==> |r.value| == |lines|
  {
    if lines == [] then Ok([])
    else
      match LineFrom(lines[0], 0)
      case Ok(row) => Prepend([row], ParseLines(lines[1..]))
      case Err(e) => Err(e)
      case Panic => Panic
  }

  /** A successful parse has one row per line, each the fields of its line. */
  lemma {:induction false} ParseLinesRows(lines: seq<seq<int>>)
    ensures ParseLines(lines).Ok? ==> |ParseLines(lines).value| == |lines|
    ensures ParseLines(lines).Ok? ==>
      forall k :: 0 <= k < |lines| ==> LineFrom(lines[k], 0) == Ok(ParseLines(lines).value[k])
  {
    if lines != [] && ParseLines(lines).Ok? {
      ParseLinesRows(lines[1..]);
      var rows := ParseLines(lines).value;
      assert rows == [LineFrom(lines[0], 0).value] + ParseLines(lines[1..]).value;
      forall k | 0 < k < |lines| ensures LineFrom(lines[k], 0) == Ok(rows[k]) {
        assert lines[k] == lines[1..][k - 1];
      }
    }
  }

  /** A failed parse is the failure of the first line that fails; every line
      before it parses. */
  lemma {:induction false} ParseLinesFirstFailure(lines: seq<seq<int>>)
    ensures !ParseLines(lines).Ok? ==>
      exists k :: 0 <= k < |lines| && !LineFrom(lines[k], 0).Ok? &&
        ParseLines(lines) == Propagate(LineFrom(lines[k], 0)) &&
        forall j :: 0 <= j < k ==> LineFrom(lines[j], 0).Ok?
  {
    if lines != [] && !ParseLines(lines).Ok? {
      if LineFrom(lines[0], 0).Ok? {
        ParseLinesFirstFailure(lines[1..]);
        var k :| 0 <= k < |lines[1..]| && !LineFrom(lines[1..][k], 0).Ok? &&
          ParseLines(lines[1..]) == Propagate(LineFrom(lines[1..][k], 0)) &&
          forall j :: 0 <= j < k ==> LineFrom(lines[1..][j], 0).Ok?;
        assert lines[1..][k] == lines[k + 1];
        forall j | 0 <= j < k + 1 ensures LineFrom(lines[j], 0).Ok? {
          if j > 0 {
            assert lines[j] == lines[1..][j - 1];
          }
        }
      }
    }
  }

  /** A document fails only with a value error: never with "empty document". */
  lemma {:induction false} ParseLinesErrors(lines: seq<seq<int>>)
    ensures ParseLines(lines).Err? ==>
      ParseLines(lines).error in {InvalidDoubleQuoteInValue, StringNotClosed, InvalidCharacterAfterString}
  {
    if lines != [] {
      LineErrors(lines[0], 0);
      ParseLinesErrors(lines[1..]);
    }
  }

  /** The document parsed line by line, lines split on linefeed. */
  function Document(content: seq<int>): (r: Outcome<Table>)
    ensures r.Ok? ==> |r.value| == multiset(content)[LF] + 1
    ensures r.Err? ==> r.error != EmptyDocument
  {
    ParseLinesErrors(SplitLines(content));
    ParseLines(SplitLines(content))
  }

  /** ParseDocument: parses every line in order and returns at the first
      error. */
  method ParseDocument(content: seq<int>) returns (r: Outcome<Table>)
    ensures r == Document(content)
  {
    var lines := SplitLines(content);
    var result: Table := [];
    var i := 0;
    assert lines[0..] == lines;
    PrependNothing(ParseLines(lines));
    while i < |lines|
      invariant 0 <= i <= |lines|
      invariant ParseLines(lines) == Prepend(result, ParseLines(lines[i..]))
    {
      var lineValues := ParseLine(lines[i], i);
      assert lines[i..][0] == lines[i] && lines[i..][1..] == lines[i + 1..];
      if !lineValues.Ok? {
        r := Propagate(lineValues);
        return;
      }
      PrependPrepend(result, [lineValues.value], ParseLines(lines[i + 1..]));
      result := result + [lineValues.value];
      i := i + 1;
    }
    assert result + [] == result;
    r := Ok(result);
  }

  /** ParseLineAsArray: parses the whole document and returns its first row;
      an error on any line fails it. */
  method ParseLineAsArray(content: seq<int>) returns (r: Outcome<Row>)
    ensures Document(content).Ok? ==> r == LineFrom(SplitLines(content)[0], 0)
    ensures !Document(content).Ok? ==> r == Propagate(Document(content))
    ensures r != Err(EmptyDocument)
  {
    var result := ParseDocument(content);
    ParseLinesRows(SplitLines(content));
    ParseLinesErrors(SplitLines(content));
    if !result.Ok? {
      r := Propagate(result);
      return;
    }
    if |result.value| == 0 {
      r := Err(EmptyDocument);
      return;
    }
    r := Ok(result.value[0]);
  }

  /** ParseAsArray: another name for ParseLineAsArray. */
  method ParseAsArray(content: seq<int>) returns (r: Outcome<Row>)
    ensures Document(content).Ok? ==> r == LineFrom(SplitLines(content)[0], 0)
    ensures !Document(content).Ok? ==> r == Propagate(Document(content))
  {
    r := ParseLineAsArray(content);
  }

  /** ParseAsJaggedArray: another name for ParseDocument. */
  method ParseAsJaggedArray(content: seq<int>) returns (r: Outcome<Table>)
    ensures r == Document(content)
  {
    r := ParseDocument(content);
  }
}
