/** The two editions side by side. On lines and documents without a '"'
    they return the same result; with a '"' they part ways: package wsv
    fails where package wsvgolang drops the error and goes on, and package
    wsvgolang panics on a closing '"' that ends the line, where package wsv
    closes the value. */
module Editions {
  import opened WsvSyntax
  import opened LineSplit
  import opened WsvGrammar
  import Wsv
  import WsvGolang
  import WsvProperties
  import WsvGolangProperties

  /** Without a '"' the two line parsers agree, from every index on. */
  lemma {:induction false} QuoteFreeLinesAgree(chars: seq<int>, i: nat)
    requires i <= |chars| && DQ !in chars
    ensures Wsv.LineFrom(chars, i) == WsvGolang.LineFrom(chars, i)
    decreases |chars| - i
  {
    var j := SkipWs(chars, i);
    if j < |chars| && chars[j] != HASH {
      assert chars[j] in chars;
      var k := BareEnd(chars, j);
      if k < |chars| {
        assert chars[k] in chars;
      }
      QuoteFreeLinesAgree(chars, k);
    }
  }

  /** Without a '"' in any line the two parsers give the same rows. */
  lemma {:induction false} QuoteFreeLinesListAgree(lines: seq<seq<int>>)
    requires forall k :: 0 <= k < |lines| ==> DQ !in lines[k]
    ensures Wsv.ParseLines(lines) == WsvGolang.ParseLines(lines)
  {
    if lines != [] {
      QuoteFreeLinesAgree(lines[0], 0);
      forall k | 0 <= k < |lines[1..]| ensures DQ !in lines[1..][k] {
        assert lines[1..][k] == lines[k + 1];
      }
      QuoteFreeLinesListAgree(lines[1..]);
      var golang := WsvGolang.LineFrom(lines[0], 0);
      assert !golang.Err?;
    }
  }

  /** A document without a '"' parses the same in both editions; in
      particular neither returns an error there that the other does not. */
  lemma {:induction false} QuoteFreeDocumentsAgree(content: seq<int>)
    requires DQ !in content
    ensures Wsv.Document(content) == WsvGolang.Document(content)
  {
    var lines := SplitLines(content);
    forall k | 0 <= k < |lines| ensures DQ !in lines[k] {
      if DQ in lines[k] {
        SplitKeepsCodepoints(content, k, DQ);
      }
    }
    QuoteFreeLinesListAgree(lines);
  }

  /** On the lines both grammar theorems cover, the editions agree. */
  lemma {:induction false} PlainLinesAgree(l: Line)
    requires WsvGolangProperties.PlainLine(l)
    ensures Wsv.LineFrom(LineText(l), 0) == WsvGolang.LineFrom(LineText(l), 0) == Ok(Values(l.items))
  {
    WsvProperties.LineGrammar(l);
    WsvGolangProperties.LineGrammar(l);
  }

  /** A line whose last field is a quoted value right at its end: package
      wsv returns the value, package wsvgolang panics. */
  lemma {:induction false} QuotedAtEndDiverges(items: seq<Item>, lead: seq<int>, text: seq<int>)
    requires WellFormedItems(items) && WsvGolangProperties.PlainItems(items)
    requires AllWhitespace(lead) && (items != [] ==> |lead| > 0) && DQ !in text
    ensures var chars := ItemsText(items) + (lead + ([DQ] + text + [DQ]));
      Wsv.LineFrom(chars, 0) == Ok(Values(items) + [text]) && WsvGolang.LineFrom(chars, 0) == Panic
  {
    var item := Item(lead, Quoted(Literals(text)));
    var l := Line(items + [item], [], []);
    LiteralsText(text);
    ItemsSnoc(items, item);
    forall k | 0 <= k < |l.items|
      ensures AllWhitespace(l.items[k].lead) && WellFormedField(l.items[k].field) && (k > 0 ==> |l.items[k].lead| > 0)
    {
      if k < |items| {
        assert l.items[k] == items[k];
      }
    }
    assert LineText(l) == ItemsText(items) + (lead + ([DQ] + text + [DQ]));
    WsvProperties.LineGrammar(l);
    WsvGolangProperties.QuotedAtEndPanics(items, lead, text);
  }

  /** A bare value that ends in a '"' at the end of the line: package wsv
      fails with "invalid double quote in value", package wsvgolang returns
      two empty values in its place. */
  lemma {:induction false} BareQuoteDiverges(items: seq<Item>, lead: seq<int>, t: seq<int>)
    requires WellFormedItems(items) && WsvGolangProperties.PlainItems(items)
    requires AllWhitespace(lead) && (items != [] ==> |lead| > 0) && WellFormedField(Bare(t))
    ensures var chars := ItemsText(items) + (lead + (t + [DQ] + []));
      Wsv.LineFrom(chars, 0) == Err(InvalidDoubleQuoteInValue) &&
      WsvGolang.LineFrom(chars, 0) == Ok(Values(items) + [[], []])
  {
    WsvProperties.BareQuoteFails(items, lead, t, []);
    WsvGolangProperties.BareQuoteAtEnd(items, lead, t);
  }

  /** A quoted value that is never closed: package wsv fails with "string
      not closed", package wsvgolang returns an empty value in its place. */
  lemma {:induction false} UnclosedDiverges(items: seq<Item>, lead: seq<int>, text: seq<int>)
    requires WellFormedItems(items) && WsvGolangProperties.PlainItems(items)
    requires AllWhitespace(lead) && (items != [] ==> |lead| > 0) && DQ !in text
    ensures var chars := ItemsText(items) + (lead + ([DQ] + text));
      Wsv.LineFrom(chars, 0) == Err(StringNotClosed) &&
      WsvGolang.LineFrom(chars, 0) == Ok(Values(items) + [[]])
  {
    LiteralsText(text);
    WsvProperties.UnclosedStringFails(items, lead, Literals(text));
    WsvGolangProperties.UnclosedSwallowed(items, lead, text);
  }
}
