/** Splitting a document into lines on linefeed, as Go's strings.Split(content,
    "\n") does in both editions (wsv.go:78, wsvgolang.go:85), and its inverse,
    joining lines with linefeeds. */
module LineSplit {
  import opened WsvSyntax

  /** The linefeed-separated segments of s: one more segment than s has
      linefeeds, none of them holding a linefeed. */
  function SplitLines(s: seq<int>): (r: seq<seq<int>>)
    ensures |r| == multiset(s)[LF] + 1
    ensures forall k :: 0 <= k < |r| ==> LF !in r[k]
  {
    if s == [] then [[]]
    else
      var rest := SplitLines(s[1..]);
      assert s == [s[0]] + s[1..];
      if s[0] == LF then [[]] + rest
      else [[s[0]] + rest[0]] + rest[1..]
  }

  /** The segments joined back together, a linefeed between each two. */
  function JoinLines(lines: seq<seq<int>>): seq<int>
    requires |lines| > 0
  {
    if |lines| == 1 then lines[0] else lines[0] + [LF] + JoinLines(lines[1..])
  }

  /** Joining with an extra segment in front. */
  lemma {:induction false} JoinCons(x: seq<int>, lines: seq<seq<int>>)
    requires |lines| > 0
    ensures JoinLines([x] + lines) == x + [LF] + JoinLines(lines)
  {
    assert ([x] + lines)[0] == x && ([x] + lines)[1..] == lines;
  }

  /** Joining with a codepoint put in front of the first segment. */
  lemma {:induction false} JoinFirst(c: int, lines: seq<seq<int>>)
    requires |lines| > 0
    ensures JoinLines([[c] + lines[0]] + lines[1..]) == [c] + JoinLines(lines)
  {
    var l := [[c] + lines[0]] + lines[1..];
    assert l[0] == [c] + lines[0] && l[1..] == lines[1..];
    if |lines| > 1 {
      assert ([c] + lines[0]) + [LF] + JoinLines(lines[1..]) == [c] + (lines[0] + [LF] + JoinLines(lines[1..]));
    }
  }

  /** Joining the segments gives back the text they were split from. */
  lemma {:induction false} JoinSplit(s: seq<int>)
    ensures JoinLines(SplitLines(s)) == s
  {
    if s != [] {
      var rest := SplitLines(s[1..]);
      JoinSplit(s[1..]);
      if s[0] == LF {
        assert SplitLines(s) == [[]] + rest;
        JoinCons([], rest);
      } else {
        assert SplitLines(s) == [[s[0]] + rest[0]] + rest[1..];
        JoinFirst(s[0], rest);
      }
    }
  }

  /** Splitting a text that starts with a linefeed-free run a. */
  lemma {:induction false} SplitPrefix(a: seq<int>, b: seq<int>)
    requires LF !in a
    ensures SplitLines(a + b) == [a + SplitLines(b)[0]] + SplitLines(b)[1..]
  {
    if a != [] {
      var r := SplitLines(b);
      assert (a + b)[0] == a[0] != LF;
      assert (a + b)[1..] == a[1..] + b;
      SplitPrefix(a[1..], b);
      assert SplitLines(a[1..] + b)[0] == a[1..] + r[0];
      assert [a[0]] + (a[1..] + r[0]) == a + r[0];
    } else {
      var r := SplitLines(b);
      assert a + b == b && a + r[0] == r[0];
      assert r == [r[0]] + r[1..];
    }
  }

  /** Splitting linefeed-free segments joined by linefeeds gives them back. */
  lemma {:induction false} SplitJoin(lines: seq<seq<int>>)
    requires |lines| > 0
    requires forall k :: 0 <= k < |lines| ==> LF !in lines[k]
    ensures SplitLines(JoinLines(lines)) == lines
  {
    if |lines| == 1 {
      SplitPrefix(lines[0], []);
      assert lines[0] + [] == lines[0];
    } else {
      var rest := JoinLines(lines[1..]);
      SplitJoin(lines[1..]);
      assert JoinLines(lines) == lines[0] + ([LF] + rest);
      SplitPrefix(lines[0], [LF] + rest);
      assert ([LF] + rest)[1..] == rest;
      assert SplitLines([LF] + rest) == [[]] + lines[1..];
      assert lines[0] + [] == lines[0];
    }
  }

  /** A trailing linefeed adds one trailing empty segment. */
  lemma {:induction false} SplitTrailingLinefeed(s: seq<int>)
    ensures SplitLines(s + [LF]) == SplitLines(s) + [[]]
  {
    if s == [] {
      assert SplitLines([LF]) == [[]] + SplitLines([]);
    } else {
      assert (s + [LF])[1..] == s[1..] + [LF];
      SplitTrailingLinefeed(s[1..]);
    }
  }

  /** A codepoint of a segment is a codepoint of the text. */
  lemma {:induction false} SplitKeepsCodepoints(s: seq<int>, k: nat, c: int)
    requires k < |SplitLines(s)| && c in SplitLines(s)[k]
    ensures c in s
  {
    if s != [] {
      var rest := SplitLines(s[1..]);
      if s[0] == LF {
        if k > 0 {
          SplitKeepsCodepoints(s[1..], k - 1, c);
        }
      } else if k == 0 {
        if c != s[0] {
          SplitKeepsCodepoints(s[1..], 0, c);
        }
      } else {
        SplitKeepsCodepoints(s[1..], k, c);
      }
    }
  }
}
