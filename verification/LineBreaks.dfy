/** Text and its lines, as `str.splitlines` sees them. */
module LineBreaks {
  import opened Basics

  /** Line feed, vertical tab, form feed, carriage return, the three separators, next line, and the two Unicode separators. */
  predicate IsBreak(c: char) {
    || '\U{000A}' <= c <= '\U{000D}' || '\U{001C}' <= c <= '\U{001E}'
    || c == '\U{0085}' || c == '\U{2028}' || c == '\U{2029}'
  }

  predicate OneLine(s: string) {
    forall k :: 0 <= k < |s| ==> !IsBreak(s[k])
  }

  /** The length of the first line. */
  function LineEnd(s: string): (n: nat)
    ensures n <= |s| && (n < |s| ==> IsBreak(s[n]))
    ensures forall k :: 0 <= k < n ==> !IsBreak(s[k])
  {
    if s == "" || IsBreak(s[0]) then 0 else 1 + LineEnd(s[1..])
  }

  /** A carriage return and a line feed break the line once. */
  function BreakLength(s: string, n: nat): (k: nat)
    requires n < |s|
    ensures 1 <= k && n + k <= |s|
  {
    if s[n] == '\r' && n + 1 < |s| && s[n + 1] == '\n' then 2 else 1
  }

  /** What follows the first line and its break. */
  function AfterLine(s: string): (rest: string)
    requires LineEnd(s) < |s|
    ensures |rest| < |s|
  {
    s[LineEnd(s) + BreakLength(s, LineEnd(s))..]
  }

  /** `text.splitlines()` */
  function SplitLines(s: string): seq<string>
    decreases |s|
  {
    if s == "" then []
    else if LineEnd(s) == |s| then [s]
    else [s[..LineEnd(s)]] + SplitLines(AfterLine(s))
  }

  /** Lines printed one after another, each closed by a line feed. */
  function JoinLines(lines: seq<string>): string {
    if lines == [] then "" else JoinLines(lines[..|lines| - 1]) + (lines[|lines| - 1] + "\n")
  }

  /** What one printed line is split into. */
  function Pieces(line: string): seq<string> {
    SplitLines(line + "\n")
  }

  function AllPieces(lines: seq<string>): seq<string> {
    if lines == [] then [] else AllPieces(lines[..|lines| - 1]) + Pieces(lines[|lines| - 1])
  }

  predicate Closed(s: string) {
    s == "" || s[|s| - 1] == '\n'
  }

  lemma {:induction false} LineEndAppend(x: string, y: string)
    requires LineEnd(x) < |x|
    ensures LineEnd(x + y) == LineEnd(x)
  {
    assert (x + y)[0] == x[0];
    if !IsBreak(x[0]) {
      assert (x + y)[1..] == x[1..] + y;
      LineEndAppend(x[1..], y);
    }
  }

  lemma {:induction false} ClosedEnds(x: string)
    requires Closed(x) && x != ""
    ensures LineEnd(x) < |x| && Closed(AfterLine(x))
  {
    if !IsBreak(x[0]) {
      ClosedEnds(x[1..]);
    }
  }

  lemma NothingSplits()
    ensures SplitLines("") == []
  {
  }

  /** Closed text can be split on its own. */
  lemma {:induction false} SplitConcat(x: string, y: string)
    requires Closed(x)
    ensures SplitLines(x + y) == SplitLines(x) + SplitLines(y)
    decreases |x|
  {
    hide SplitLines;
    if x == "" {
      NothingSplits();
      assert x + y == y;
    } else {
      ClosedEnds(x);
      FirstLineStays(x, y);
      SplitConcat(AfterLine(x), y);
      FirstLineSplits(x);
      FirstLineSplits(x + y);
      hide LineEnd, AfterLine;
      Associate([x[..LineEnd(x)]], SplitLines(AfterLine(x)), SplitLines(y));
    }
  }

  lemma FirstLineSplits(s: string)
    requires LineEnd(s) < |s|
    ensures SplitLines(s) == [s[..LineEnd(s)]] + SplitLines(AfterLine(s))
  {
  }

  lemma FirstLineStays(x: string, y: string)
    requires Closed(x) && x != ""
    ensures LineEnd(x) < |x| && LineEnd(x + y) == LineEnd(x)
    ensures (x + y)[..LineEnd(x)] == x[..LineEnd(x)] && AfterLine(x + y) == AfterLine(x) + y
  {
    ClosedEnds(x);
    LineEndAppend(x, y);
    hide LineEnd;
    var n := LineEnd(x);
    assert BreakLength(x + y, n) == BreakLength(x, n);
    assert (x + y)[n + BreakLength(x, n)..] == x[n + BreakLength(x, n)..] + y;
  }

  /** Printed lines are split into the pieces of each. */
  lemma {:induction false} SplitOfJoin(lines: seq<string>)
    ensures SplitLines(JoinLines(lines)) == AllPieces(lines) && Closed(JoinLines(lines))
  {
    if lines != [] {
      var front, last := lines[..|lines| - 1], lines[|lines| - 1] + "\n";
      SplitOfJoin(front);
      hide SplitLines;
      SplitConcat(JoinLines(front), last);
      assert last[|last| - 1] == '\n';
    }
  }

  lemma {:induction false} PiecesAreOneLine(s: string)
    ensures forall p :: p in SplitLines(s) ==> OneLine(p)
    decreases |s|
  {
    if s != "" && LineEnd(s) < |s| {
      PiecesAreOneLine(AfterLine(s));
    }
  }

  lemma {:induction false} EndOfOneLine(s: string, t: string)
    requires OneLine(s) && t != "" && IsBreak(t[0])
    ensures LineEnd(s + t) == |s|
  {
    if s == "" {
      assert s + t == t;
    } else {
      assert (s + t)[0] == s[0] && (s + t)[1..] == s[1..] + t;
      EndOfOneLine(s[1..], t);
    }
  }

  lemma IsBreakIff(c: char)
    ensures IsBreak(c) <==> c in "\n\U{000B}\U{000C}\r\U{001C}\U{001D}\U{001E}\U{0085}\U{2028}\U{2029}"
  {
    var breaks := "\n\U{000B}\U{000C}\r\U{001C}\U{001D}\U{001E}\U{0085}\U{2028}\U{2029}";
    assert breaks[0] == '\n' && breaks[1] == '\U{000B}' && breaks[2] == '\U{000C}' && breaks[3] == '\r' && breaks[4] == '\U{001C}';
    assert breaks[5] == '\U{001D}' && breaks[6] == '\U{001E}' && breaks[7] == '\U{0085}' && breaks[8] == '\U{2028}' && breaks[9] == '\U{2029}';
  }

  /** All of `str.splitlines`: text without one of the ten break characters is one line, or none if it is empty; the first break
      ends the first line, a carriage return taking a line feed that follows it along. */
  lemma SplitsAt(head: string, c: char, rest: string, breaks: string)
    requires breaks == "\n\U{000B}\U{000C}\r\U{001C}\U{001D}\U{001E}\U{0085}\U{2028}\U{2029}"
    requires forall k :: 0 <= k < |head| ==> head[k] !in breaks
    ensures SplitLines(head) == if head == "" then [] else [head]
    ensures c in breaks && !(c == '\r' && rest != "" && rest[0] == '\n') ==> SplitLines(head + ([c] + rest)) == [head] + SplitLines(rest)
    ensures SplitLines(head + ("\r\n" + rest)) == [head] + SplitLines(rest)
  {
    forall k | 0 <= k < |head| ensures !IsBreak(head[k]) {
      IsBreakIff(head[k]);
    }
    OneLineSplits(head);
    IsBreakIff(c);
    if c in breaks && !(c == '\r' && rest != "" && rest[0] == '\n') {
      SplitAtBreak(head, [c] + rest, 1);
      assert ([c] + rest)[1..] == rest;
    }
    SplitAtBreak(head, "\r\n" + rest, 2);
    assert ("\r\n" + rest)[2..] == rest;
  }

  lemma OneLineSplits(s: string)
    requires OneLine(s)
    ensures SplitLines(s) == if s == "" then [] else [s]
  {
  }

  lemma SplitAtBreak(head: string, tail: string, n: nat)
    requires OneLine(head) && tail != "" && IsBreak(tail[0])
    requires n == if tail[0] == '\r' && |tail| > 1 && tail[1] == '\n' then 2 else 1
    ensures SplitLines(head + tail) == [head] + SplitLines(tail[n..])
  {
    var s := head + tail;
    EndOfOneLine(head, tail);
    FirstLineSplits(s);
    hide SplitLines, LineEnd;
    assert s[|head|] == tail[0] && s[..|head|] == head && s[|head| + n..] == tail[n..];
    assert |tail| > 1 ==> s[|head| + 1] == tail[1];
  }

  /** A line without a break is one piece. */
  lemma PiecesOfOneLine(s: string)
    requires OneLine(s)
    ensures Pieces(s) == [s]
  {
    EndOfOneLine(s, "\n");
    var t := s + "\n";
    assert t[|s|] == '\n' && t[..|s|] == s && AfterLine(t) == "";
    assert SplitLines(t) == [s] + SplitLines("");
  }

  lemma {:induction false} AllPiecesOfOneLines(lines: seq<string>)
    requires forall l :: l in lines ==> OneLine(l)
    ensures AllPieces(lines) == lines
  {
    hide Pieces, OneLine;
    if lines != [] {
      AllPiecesOfOneLines(lines[..|lines| - 1]);
      assert lines[|lines| - 1] in lines;
      PiecesOfOneLine(lines[|lines| - 1]);
    }
  }

  lemma {:induction false} AllPiecesConcat(a: seq<string>, b: seq<string>)
    ensures AllPieces(a + b) == AllPieces(a) + AllPieces(b)
  {
    if b == [] {
      assert a + b == a;
    } else {
      assert (a + b)[..|a + b| - 1] == a + b[..|b| - 1];
      AllPiecesConcat(a, b[..|b| - 1]);
    }
  }

  lemma AllPiecesOfOne(line: string)
    ensures AllPieces([line]) == Pieces(line)
  {
    assert [line][..0] == [];
  }

  /** The first piece is the line up to its first break. */
  lemma FirstPiece(line: string)
    ensures Pieces(line) != [] && Pieces(line)[0] == line[..LineEnd(line)]
  {
    var s := line + "\n";
    if LineEnd(line) < |line| {
      LineEndAppend(line, "\n");
    } else {
      EndOfOneLine(line, "\n");
    }
    assert s[..LineEnd(line)] == line[..LineEnd(line)];
  }

  // ---- A carriage return before the line feed ----------------------------------------------------------------------------

  /** A line without the carriage return that closes it, if it is closed by just one. */
  function Chop(s: string): string {
    if s != "" && s[|s| - 1] == '\r' && (|s| == 1 || s[|s| - 2] != '\r') then s[..|s| - 1] else s
  }

  lemma LaterBreakStays(x: string, y: string)
    requires LineEnd(x) < |x| && x[|x| - 1] != '\r'
    ensures LineEnd(x + y) == LineEnd(x) && (x + y)[..LineEnd(x)] == x[..LineEnd(x)] && AfterLine(x + y) == AfterLine(x) + y
    ensures AfterLine(x) == "" || AfterLine(x)[|AfterLine(x)| - 1] != '\r'
  {
    LineEndAppend(x, y);
    hide LineEnd;
    var n := LineEnd(x);
    assert BreakLength(x + y, n) == BreakLength(x, n);
    assert (x + y)[n + BreakLength(x, n)..] == x[n + BreakLength(x, n)..] + y;
  }

  lemma {:induction false} ReturnBeforeFeed(x: string)
    requires x == "" || x[|x| - 1] != '\r'
    ensures SplitLines(x + "\r\n") == SplitLines(x + "\n")
    decreases |x|
  {
    if LineEnd(x) < |x| {
      LaterBreakStays(x, "\r\n");
      LaterBreakStays(x, "\n");
      FirstLineSplits(x + "\r\n");
      FirstLineSplits(x + "\n");
      ReturnBeforeFeed(AfterLine(x));
    } else {
      EndOfOneLine(x, "\r\n");
      EndOfOneLine(x, "\n");
      FirstLineSplits(x + "\r\n");
      FirstLineSplits(x + "\n");
      hide LineEnd, SplitLines;
      assert (x + "\r\n")[|x|] == '\r' && (x + "\r\n")[|x| + 1] == '\n' && (x + "\n")[|x|] == '\n';
      assert AfterLine(x + "\r\n") == "" && AfterLine(x + "\n") == "";
      assert (x + "\r\n")[..|x|] == x == (x + "\n")[..|x|];
    }
  }

  /** The pieces of a printed line do not depend on a carriage return that closes it. */
  lemma PiecesOfChopped(s: string)
    ensures Pieces(Chop(s)) == Pieces(s)
  {
    if Chop(s) != s {
      hide SplitLines;
      var x := s[..|s| - 1];
      assert s == x + "\r" && s + "\n" == x + "\r\n";
      ReturnBeforeFeed(x);
    }
  }

  lemma {:induction false} AllPiecesAlike(a: seq<string>, b: seq<string>)
    requires |a| == |b| && forall k :: 0 <= k < |a| ==> Pieces(a[k]) == Pieces(b[k])
    ensures AllPieces(a) == AllPieces(b)
  {
    hide Pieces;
    if a != [] {
      AllPiecesAlike(a[..|a| - 1], b[..|b| - 1]);
    }
  }
}
