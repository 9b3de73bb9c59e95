/** The static diff scan of the security reviewer (security_reviewer.py). */
module SecurityReviewer {
  import opened Basics
  import opened Text
  import opened UnifiedDiff
  import opened LineBreaks

  // ---- Hunk headers ----------------------------------------------------------------------------------------------------

  /** The number of leading digits. */
  function Run(s: string): (n: nat)
    ensures n <= |s| && AllDigits(s[..n]) && (n < |s| ==> !IsDigit(s[n]))
  {
    if s == "" || !IsDigit(s[0]) then 0 else
      assert s[..1 + Run(s[1..])] == [s[0]] + s[1..][..Run(s[1..])];
      1 + Run(s[1..])
  }

  /** `\+(\d+)(?:,\d+)? @@` matches at the start of `s`. */
  predicate MatchesHere(s: string) {
    && s != "" && s[0] == '+' && Run(s[1..]) > 0
    && var rest := s[1 + Run(s[1..])..];
       || " @@" <= rest
       || (rest != "" && rest[0] == ',' && Run(rest[1..]) > 0 && " @@" <= rest[1 + Run(rest[1..])..])
  }

  function NumberHere(s: string): nat
    requires MatchesHere(s)
  {
    ParseDecimal(s[1..][..Run(s[1..])])
  }

  /** The greedy `.*` settles on the last place where the rest of the pattern matches. */
  function LastMatch(s: string): Option<nat> {
    if s == "" then None
    else if LastMatch(s[1..]).Some? then LastMatch(s[1..])
    else if MatchesHere(s) then Some(NumberHere(s))
    else None
  }

  /** `_HUNK_RE.match(raw)`, and the number it captures. */
  function HunkStart(raw: string): Option<nat> {
    if "@@ " <= raw then LastMatch(raw[3..]) else None
  }

  /** A plus sign, digits, perhaps a comma and digits, a space and two at signs. */
  predicate RangeThen(s: string, a: string, b: string, rest: string) {
    && a != "" && AllDigits(a) && AllDigits(b)
    && s == if b == "" then "+" + (a + (" @@" + rest)) else "+" + (a + ("," + (b + (" @@" + rest))))
  }

  lemma PlainIsMatch(s: string, a: string, rest: string)
    requires a != "" && AllDigits(a) && s == "+" + (a + (" @@" + rest))
    ensures MatchesHere(s) && NumberHere(s) == ParseDecimal(a)
  {
    var tail := " @@" + rest;
    assert s[1..] == a + tail;
    RunOf(a, tail);
    hide Run, ParseDecimal, AllDigits;
    assert s[1..][..|a|] == a && s[1 + |a|..] == tail;
  }

  lemma CountedIsMatch(s: string, a: string, b: string, rest: string)
    requires a != "" && AllDigits(a) && b != "" && AllDigits(b) && s == "+" + (a + ("," + (b + (" @@" + rest))))
    ensures MatchesHere(s) && NumberHere(s) == ParseDecimal(a)
  {
    var end := " @@" + rest;
    var tail := "," + (b + end);
    AfterSign(s, a, tail);
    CutsAt(a, tail);
    CutsAt(b, end);
    RunOf(a, tail);
    RunOf(b, end);
    hide Run, ParseDecimal, AllDigits;
    AfterSign(tail, b, end);
  }

  lemma CutsAt(a: string, tail: string)
    ensures (a + tail)[..|a|] == a && (a + tail)[|a|..] == tail
  {
  }

  /** What follows the first character, and what follows the first part after it. */
  lemma AfterSign(s: string, a: string, tail: string)
    requires s != "" && s[1..] == a + tail
    ensures s[1 + |a|..] == tail
  {
    CutsAt(a, tail);
    assert s[1 + |a|..] == s[1..][|a|..];
  }

  lemma RangeIsMatch(s: string, a: string, b: string, rest: string)
    requires RangeThen(s, a, b, rest)
    ensures MatchesHere(s) && NumberHere(s) == ParseDecimal(a)
  {
    if b == "" {
      PlainIsMatch(s, a, rest);
    } else {
      CountedIsMatch(s, a, b, rest);
    }
    hide MatchesHere, NumberHere, AllDigits, ParseDecimal;
  }

  lemma MatchIsPlain(s: string) returns (a: string, rest: string)
    requires MatchesHere(s) && " @@" <= s[1 + Run(s[1..])..]
    ensures RangeThen(s, a, "", rest) && NumberHere(s) == ParseDecimal(a)
  {
    var n := Run(s[1..]);
    a, rest := s[1..][..n], s[1 + n..][3..];
    hide Run, ParseDecimal;
    assert s[1 + n..] == " @@" + rest;
    assert s == "+" + (a + s[1 + n..]);
  }

  lemma CountedParts(s: string)
    requires MatchesHere(s) && !(" @@" <= s[1 + Run(s[1..])..])
    ensures var n := Run(s[1..]); var tail := s[1 + n..];
      && s[0] == '+' && n > 0 && NumberHere(s) == ParseDecimal(s[1..][..n])
      && tail != "" && tail[0] == ',' && Run(tail[1..]) > 0 && " @@" <= tail[1 + Run(tail[1..])..]
  {
    hide Run, ParseDecimal;
  }

  lemma MatchIsCounted(s: string) returns (a: string, b: string, rest: string)
    requires MatchesHere(s) && !(" @@" <= s[1 + Run(s[1..])..])
    ensures RangeThen(s, a, b, rest) && NumberHere(s) == ParseDecimal(a)
  {
    CountedParts(s);
    hide *;
    var n := Run(s[1..]);
    var tail := s[1 + n..];
    var m := Run(tail[1..]);
    a, b := s[1..][..n], tail[1..][..m];
    rest := EndOf(tail[1 + m..]);
    Parts(s, '+', n);
    Parts(tail, ',', m);
    CountedIs(s, a, b, rest);
  }

  lemma EndOf(end: string) returns (rest: string)
    requires " @@" <= end
    ensures end == " @@" + rest
  {
    rest := end[3..];
  }

  lemma Parts(s: string, sign: char, n: nat)
    requires 1 + n <= |s| && s[0] == sign
    ensures s == [sign] + (s[1..][..n] + s[1 + n..])
  {
  }

  lemma CountedIs(s: string, a: string, b: string, rest: string)
    requires a != "" && b != "" && AllDigits(a) && AllDigits(b) && s == "+" + (a + ("," + (b + (" @@" + rest))))
    ensures RangeThen(s, a, b, rest)
  {
    hide AllDigits;
  }

  lemma MatchIsRange(s: string) returns (a: string, b: string, rest: string)
    requires MatchesHere(s)
    ensures RangeThen(s, a, b, rest) && NumberHere(s) == ParseDecimal(a)
  {
    if " @@" <= s[1 + Run(s[1..])..] {
      a, rest := MatchIsPlain(s);
      b := "";
    } else {
      a, b, rest := MatchIsCounted(s);
    }
    hide RangeThen, NumberHere, ParseDecimal;
  }

  lemma {:induction false} LastMatchIs(s: string)
    ensures LastMatch(s).None? <==> forall i :: 0 <= i < |s| ==> !MatchesHere(s[i..])
    ensures LastMatch(s).Some? ==> exists i ::
      && 0 <= i < |s| && MatchesHere(s[i..]) && NumberHere(s[i..]) == LastMatch(s).value
      && forall j :: i < j < |s| ==> !MatchesHere(s[j..])
  {
    hide MatchesHere, NumberHere;
    if s != "" {
      LastMatchIs(s[1..]);
      assert s[0..] == s;
      forall i | 1 <= i < |s| ensures s[i..] == s[1..][i - 1..] {
      }
      if LastMatch(s[1..]).Some? {
        var i :| 0 <= i < |s| - 1 && MatchesHere(s[1..][i..]) && NumberHere(s[1..][i..]) == LastMatch(s[1..]).value
          && forall j :: i < j < |s| - 1 ==> !MatchesHere(s[1..][j..]);
        assert s[i + 1..] == s[1..][i..];
        forall j | i + 1 < j < |s| ensures !MatchesHere(s[j..]) {
          assert s[j..] == s[1..][j - 1..];
        }
      } else {
        forall j | 1 <= j < |s| ensures !MatchesHere(s[j..]) {
          assert s[j..] == s[1..][j - 1..];
        }
      }
    }
  }

  /** A range stands at the beginning. */
  ghost predicate BeginsWithRange(s: string, n: nat) {
    exists a, b, rest :: RangeThen(s, a, b, rest) && ParseDecimal(a) == n
  }

  lemma MatchesHereIff(s: string, n: nat)
    ensures MatchesHere(s) && NumberHere(s) == n <==> BeginsWithRange(s, n)
  {
    if MatchesHere(s) && NumberHere(s) == n {
      var a, b, rest := MatchIsRange(s);
    }
    if a, b, rest :| RangeThen(s, a, b, rest) && ParseDecimal(a) == n {
      RangeIsMatch(s, a, b, rest);
    }
  }

  lemma LastRangeIs(s: string, n: nat)
    ensures LastMatch(s) == Some(n) <==> exists i ::
      && 0 <= i < |s| && BeginsWithRange(s[i..], n)
      && forall j, m :: i < j < |s| ==> !BeginsWithRange(s[j..], m)
  {
    LastMatchIs(s);
    hide LastMatch, MatchesHere, NumberHere, BeginsWithRange;
    forall i, m | 0 <= i < |s| ensures MatchesHere(s[i..]) && NumberHere(s[i..]) == m <==> BeginsWithRange(s[i..], m) {
      MatchesHereIff(s[i..], m);
    }
    if LastMatch(s).Some? {
      var i :| 0 <= i < |s| && MatchesHere(s[i..]) && NumberHere(s[i..]) == LastMatch(s).value && forall j :: i < j < |s| ==> !MatchesHere(s[j..]);
      assert BeginsWithRange(s[i..], LastMatch(s).value);
    }
  }

  /** The pattern matches a line that begins with "@@ " and holds a range after that; it captures the number of the last one. */
  lemma HunkStartIs(raw: string, n: nat)
    ensures HunkStart(raw) == Some(n) <==>
      && "@@ " <= raw
      && var s := raw[3..];
         exists i :: 0 <= i < |s| && BeginsWithRange(s[i..], n) && forall j, m :: i < j < |s| ==> !BeginsWithRange(s[j..], m)
  {
    if "@@ " <= raw {
      LastRangeIs(raw[3..], n);
    }
    hide LastMatch, BeginsWithRange;
  }

  // ---- The line loop ---------------------------------------------------------------------------------------------------

  datatype Cursor = Cursor(file: Option<string>, line: nat)

  const START := Cursor(None, 0)

  /** What one raw line does to the cursor. */
  function Advance(c: Cursor, raw: string): Cursor {
    if "+++ " <= raw then c.(file := Some(PathOf(Strip(raw[4..]))))
    else if "--- " <= raw then c
    else if HunkStart(raw).Some? then c.(line := HunkStart(raw).value)
    else if "+" <= raw then c.(line := c.line + 1)
    else if "-" <= raw then c
    else c.(line := c.line + 1)
  }

  predicate Yields(raw: string) {
    !("+++ " <= raw) && !("--- " <= raw) && HunkStart(raw).None? && "+" <= raw
  }

  function After(lines: seq<string>, c: Cursor): Cursor {
    if lines == [] then c else Advance(After(lines[..|lines| - 1], c), lines[|lines| - 1])
  }

  /** The items yielded for `lines` from cursor `c`. */
  function Scan(lines: seq<string>, c: Cursor): seq<Item> {
    if lines == [] then []
    else
      var before, raw := lines[..|lines| - 1], lines[|lines| - 1];
      Scan(before, c) + if Yields(raw) then [Item(After(before, c).file, After(before, c).line, raw[1..])] else []
  }

  /** `_iter_added_lines`: the generator, collected. */
  method IterAddedLines(diffText: string) returns (items: seq<Item>)
    ensures items == Scan(SplitLines(diffText), START)
  {
    var lines := SplitLines(diffText);
    hide SplitLines;
    items := [];
    var currentFile: Option<string>, newLineno := None, 0;
    for i := 0 to |lines|
      invariant items == Scan(lines[..i], START)
      invariant Cursor(currentFile, newLineno) == After(lines[..i], START)
    {
      var raw := lines[i];
      assert lines[..i + 1][..i] == lines[..i];
      if "+++ " <= raw {
        var path := Strip(raw[4..]);
        currentFile := Some(if "b/" <= path then path[2..] else path);
        continue;
      }
      if "--- " <= raw {
        continue;
      }
      var m := HunkStart(raw);
      if m.Some? {
        newLineno := m.value;
        continue;
      }
      if "+" <= raw {
        items := items + [Item(currentFile, newLineno, raw[1..])];
        newLineno := newLineno + 1;
      } else if "-" <= raw {
        continue;
      } else {
        newLineno := newLineno + 1;
      }
    }
    assert lines[..|lines|] == lines;
  }

  /** Scanning is compositional: the second part is scanned from where the first one leaves the cursor. */
  lemma {:induction false} ScanConcat(a: seq<string>, b: seq<string>, c: Cursor)
    ensures After(a + b, c) == After(b, After(a, c))
    ensures Scan(a + b, c) == Scan(a, c) + Scan(b, After(a, c))
  {
    if b == [] {
      assert a + b == a;
    } else {
      assert (a + b)[..|a + b| - 1] == a + b[..|b| - 1];
      ScanConcat(a, b[..|b| - 1], c);
    }
  }

  lemma ScanOne(raw: string, c: Cursor)
    ensures After([raw], c) == Advance(c, raw)
    ensures Scan([raw], c) == if Yields(raw) then [Item(c.file, c.line, raw[1..])] else []
  {
    assert [raw][..0] == [];
  }

  // ---- Rendered headers are read back --------------------------------------------------------------------------------------

  lemma {:induction false} NoPlusNoMatch(t: string, s: string)
    requires '+' !in t
    ensures LastMatch(t + s) == LastMatch(s)
  {
    if t == "" {
      assert t + s == s;
    } else {
      assert (t + s)[1..] == t[1..] + s;
      NoPlusNoMatch(t[1..], s);
    }
  }

  lemma {:induction false} EarlierTextIsIrrelevant(t: string, s: string)
    requires LastMatch(s).Some?
    ensures LastMatch(t + s) == LastMatch(s)
  {
    if t == "" {
      assert t + s == s;
    } else {
      assert (t + s)[1..] == t[1..] + s;
      EarlierTextIsIrrelevant(t[1..], s);
    }
  }

  lemma {:induction false} RunOf(d: string, rest: string)
    requires AllDigits(d) && (rest == "" || !IsDigit(rest[0]))
    ensures Run(d + rest) == |d|
  {
    if d == "" {
      assert d + rest == rest;
    } else {
      assert (d + rest)[1..] == d[1..] + rest;
      RunOf(d[1..], rest);
    }
  }

  lemma RunParts(d: string, tail: string)
    requires AllDigits(d) && d != "" && tail != "" && !IsDigit(tail[0])
    ensures var s := ['+'] + (d + tail);
      s != "" && s[0] == '+' && s[1..] == d + tail && Run(s[1..]) == |d| && s[1..][..|d|] == d && s[1 + |d|..] == tail
  {
    RunOf(d, tail);
  }

  lemma MatchesPlain(d: string, section: string)
    requires AllDigits(d) && d != ""
    ensures var s := ['+'] + (d + (" @@" + section)); MatchesHere(s) && NumberHere(s) == ParseDecimal(d)
  {
    RunParts(d, " @@" + section);
  }

  lemma MatchesCounted(d: string, e: string, section: string)
    requires AllDigits(d) && d != "" && AllDigits(e) && e != ""
    ensures var s := ['+'] + (d + ([','] + (e + (" @@" + section)))); MatchesHere(s) && NumberHere(s) == ParseDecimal(d)
  {
    var close := " @@" + section;
    var tail := [','] + (e + close);
    RunParts(d, tail);
    RunOf(e, close);
    assert tail[1..] == e + close && (e + close)[|e|..] == close;
    assert tail[1 + |e|..] == close;
  }

  /** The new-file range of a header, from its '+' to the end of the line. */
  function RangeTail(r: Range, section: string): string {
    match r.count
    case None => ['+'] + (Decimal(r.start) + (" @@" + section))
    case Some(n) => ['+'] + (Decimal(r.start) + ([','] + (Decimal(n) + (" @@" + section))))
  }

  lemma RangeMatches(r: Range, section: string)
    ensures MatchesHere(RangeTail(r, section)) && NumberHere(RangeTail(r, section)) == r.start
  {
    ParseOfDecimal(r.start);
    match r.count
    case None => MatchesPlain(Decimal(r.start), section);
    case Some(n) => MatchesCounted(Decimal(r.start), Decimal(n), section);
  }

  /** A section heading in which the pattern of a new-file range does not occur. */
  predicate PlainSection(section: string) {
    LastMatch(section).None?
  }

  lemma HeaderShape(h: Hunk)
    ensures RenderHeader(h) == "@@ " + (("-" + RenderRange(h.before) + " ") + RangeTail(h.after, h.section))
    ensures RangeTail(h.after, h.section)[1..] == (RenderRange(h.after) + " @@") + h.section
  {
  }

  lemma HeaderReadsBack(h: Hunk)
    requires PlainSection(h.section)
    ensures HunkStart(RenderHeader(h)) == Some(h.after.start)
  {
    hide MatchesHere, NumberHere, RenderRange, RenderHeader;
    var tail, lead := RangeTail(h.after, h.section), "-" + RenderRange(h.before) + " ";
    HeaderShape(h);
    NoPlusNoMatch(RenderRange(h.after) + " @@", h.section);
    RangeMatches(h.after, h.section);
    assert LastMatch(tail) == Some(h.after.start);
    EarlierTextIsIrrelevant(lead, tail);
    assert RenderHeader(h)[3..] == lead + tail;
  }

  /** The start line the scanner takes from a header: a range-like pattern in the section heading wins over the
      header's own range. */
  function EffectiveStart(h: Hunk): nat {
    if LastMatch(h.section).Some? then LastMatch(h.section).value else h.after.start
  }

  lemma EffectiveStartIsRead(h: Hunk)
    ensures HunkStart(RenderHeader(h)) == Some(EffectiveStart(h)) && RenderHeader(h)[0] == '@'
  {
    HeaderShape(h);
    if PlainSection(h.section) {
      HeaderReadsBack(h);
    } else {
      var lead := ("-" + RenderRange(h.before) + " ") + (['+'] + (RenderRange(h.after) + " @@"));
      assert RenderHeader(h)[3..] == lead + h.section by {
        assert RangeTail(h.after, h.section)[0] == '+';
        assert RangeTail(h.after, h.section) == ['+'] + ((RenderRange(h.after) + " @@") + h.section);
      }
      EarlierTextIsIrrelevant(lead, h.section);
    }
  }

  lemma HeaderIsRead(h: Hunk, c: Cursor)
    ensures After([RenderHeader(h)], c) == c.(line := EffectiveStart(h)) && Scan([RenderHeader(h)], c) == []
  {
    EffectiveStartIsRead(h);
    hide RenderHeader, EffectiveStart, HunkStart;
    ScanOne(RenderHeader(h), c);
  }

  // ---- The lines of one hunk ---------------------------------------------------------------------------------------------

  /** An added line that renders as a "+++ " header. */
  predicate LooksLikeHeader(l: HunkLine) {
    l.Added? && "++ " <= l.text
  }

  function HeaderLike(lines: seq<HunkLine>): nat {
    if lines == [] then 0 else (if LooksLikeHeader(lines[0]) then 1 else 0) + HeaderLike(lines[1..])
  }

  function Markers(lines: seq<HunkLine>): nat {
    if lines == [] then 0 else (if lines[0].NoNewline? then 1 else 0) + Markers(lines[1..])
  }

  /** What the scanner yields: a "\ No newline" marker advances the counter like a context line. */
  function YieldedIn(lines: seq<HunkLine>, file: Option<string>, next: nat): seq<Item> {
    if lines == [] then []
    else match lines[0]
      case Context(_) => YieldedIn(lines[1..], file, next + 1)
      case Added(t) => [Item(file, next, t)] + YieldedIn(lines[1..], file, next + 1)
      case Removed(_) => YieldedIn(lines[1..], file, next)
      case NoNewline => YieldedIn(lines[1..], file, next + 1)
  }

  /** How a rendered line looks to the scanner. */
  lemma RenderedLineLooks(l: HunkLine)
    ensures var raw := RenderLine(l);
      && ("+++ " <= raw <==> LooksLikeHeader(l))
      && ("+" <= raw <==> l.Added?) && ("-" <= raw <==> l.Removed?) && ("--- " <= raw ==> l.Removed?)
      && HunkStart(raw).None? && (l.Added? ==> raw[1..] == l.text)
  {
    var raw := RenderLine(l);
    assert raw[0] != '@' && (l.Added? <==> raw[0] == '+') && (l.Removed? <==> raw[0] == '-');
    assert "@@ "[0] == '@' && "--- "[0] == '-' && "+++ "[0] == '+';
    if l.Added? {
      assert raw[1..] == l.text;
      assert "+++ " <= raw <==> "++ " <= l.text;
    }
  }

  lemma LineRead(l: HunkLine, c: Cursor)
    ensures LooksLikeHeader(l) ==> Scan([RenderLine(l)], c) == []
    ensures !LooksLikeHeader(l) ==>
      && After([RenderLine(l)], c) == (if l.Removed? then c else c.(line := c.line + 1))
      && Scan([RenderLine(l)], c) == if l.Added? then [Item(c.file, c.line, l.text)] else []
  {
    RenderedLineLooks(l);
    ScanOne(RenderLine(l), c);
    hide Scan, After, RenderLine, HunkStart, LooksLikeHeader;
  }

  lemma LinesSplit(lines: seq<HunkLine>, c: Cursor)
    requires lines != []
    ensures var first, rest := [RenderLine(lines[0])], RenderLines(lines[1..]);
      && Scan(RenderLines(lines), c) == Scan(first, c) + Scan(rest, After(first, c))
      && After(RenderLines(lines), c) == After(rest, After(first, c))
  {
    assert RenderLines(lines) == [RenderLine(lines[0])] + RenderLines(lines[1..]);
    ScanConcat([RenderLine(lines[0])], RenderLines(lines[1..]), c);
  }

  function YieldedFrom(l: HunkLine, file: Option<string>, next: nat): seq<Item> {
    if l.Added? then [Item(file, next, l.text)] else []
  }

  lemma YieldedStep(lines: seq<HunkLine>, file: Option<string>, next: nat)
    requires lines != []
    ensures YieldedIn(lines, file, next)
         == YieldedFrom(lines[0], file, next) + YieldedIn(lines[1..], file, if lines[0].Removed? then next else next + 1)
  {
  }

  lemma {:induction false} LinesYield(lines: seq<HunkLine>, c: Cursor)
    requires HeaderLike(lines) == 0
    ensures Scan(RenderLines(lines), c) == YieldedIn(lines, c.file, c.line) && After(RenderLines(lines), c).file == c.file
  {
    hide Scan, After, RenderLine, RenderLines, YieldedIn, YieldedFrom, LooksLikeHeader, HeaderLike;
    if lines == [] {
      NoLinesYield(c);
    } else {
      NoHeaderFirst(lines);
      LinesSplit(lines, c);
      LineYields(lines[0], c);
      YieldedStep(lines, c.file, c.line);
      LinesYield(lines[1..], Cursor(c.file, if lines[0].Removed? then c.line else c.line + 1));
    }
  }

  lemma NoLinesYield(c: Cursor)
    ensures Scan(RenderLines([]), c) == YieldedIn([], c.file, c.line) && After(RenderLines([]), c).file == c.file
  {
    NothingScanned(c);
  }

  lemma NoHeaderFirst(lines: seq<HunkLine>)
    requires lines != [] && HeaderLike(lines) == 0
    ensures !LooksLikeHeader(lines[0]) && HeaderLike(lines[1..]) == 0
  {
  }

  lemma LineYields(l: HunkLine, c: Cursor)
    requires !LooksLikeHeader(l)
    ensures After([RenderLine(l)], c) == Cursor(c.file, if l.Removed? then c.line else c.line + 1)
    ensures Scan([RenderLine(l)], c) == YieldedFrom(l, c.file, c.line)
  {
    hide Scan, After, RenderLine, LooksLikeHeader;
    LineRead(l, c);
  }

  lemma {:induction false} LinesRead(lines: seq<HunkLine>, c: Cursor)
    ensures |Scan(RenderLines(lines), c)| + HeaderLike(lines) == |AddedIn(lines, "", 0)|
    ensures HeaderLike(lines) == 0 ==>
      Scan(RenderLines(lines), c) == YieldedIn(lines, c.file, c.line) && After(RenderLines(lines), c).file == c.file
  {
    if HeaderLike(lines) == 0 {
      LinesYield(lines, c);
    }
    hide Scan, After, RenderLine, RenderLines, YieldedIn;
    if lines == [] {
      NothingScanned(c);
      assert RenderLines(lines) == [] by { NothingRendered(); }
    } else {
      LinesSplit(lines, c);
      LineRead(lines[0], c);
      LinesRead(lines[1..], After([RenderLine(lines[0])], c));
      AddedCount(lines[1..], "", 0, "", 1);
    }
  }

  lemma NothingRendered()
    ensures RenderLines([]) == []
  {
  }

  lemma {:induction false} AddedCount(lines: seq<HunkLine>, f: string, n: nat, g: string, m: nat)
    ensures |AddedIn(lines, f, n)| == |AddedIn(lines, g, m)|
  {
    if lines != [] {
      AddedCount(lines[1..], f, n + 1, g, m + 1);
      AddedCount(lines[1..], f, n, g, m);
    }
  }

  /** At every added line, the scanner's counter stands at the true line number. */
  predicate CountsRight(lines: seq<HunkLine>, counter: nat, next: nat) {
    forall j :: 0 <= j < |lines| && lines[j].Added? ==> counter + Markers(lines[..j]) == next
  }

  lemma CountsRightStep(lines: seq<HunkLine>, counter: nat, next: nat)
    requires lines != []
    ensures CountsRight(lines, counter, next) <==>
      (lines[0].Added? ==> counter == next) && CountsRight(lines[1..], counter + (if lines[0].NoNewline? then 1 else 0), next)
  {
    var m := if lines[0].NoNewline? then 1 else 0;
    assert lines[..0] == [];
    forall j | 0 <= j < |lines| - 1 ensures Markers(lines[..j + 1]) == m + Markers(lines[1..][..j]) {
      assert lines[..j + 1][1..] == lines[1..][..j];
    }
    if (lines[0].Added? ==> counter == next) && CountsRight(lines[1..], counter + m, next) {
      forall j | 0 <= j < |lines| && lines[j].Added? ensures counter + Markers(lines[..j]) == next {
        if j > 0 {
          assert lines[1..][j - 1] == lines[j];
        }
      }
    }
    if CountsRight(lines, counter, next) {
      forall j | 0 <= j < |lines| - 1 && lines[1..][j].Added? ensures counter + m + Markers(lines[1..][..j]) == next {
        assert lines[j + 1] == lines[1..][j];
      }
    }
  }

  /** Counting both from the same distance apart: the yielded items are the true ones exactly when that distance and
      the markers cancel at every added line. */
  lemma {:induction false} YieldedIffCountsRight(lines: seq<HunkLine>, file: string, counter: nat, next: nat)
    ensures YieldedIn(lines, Some(file), counter) == AddedIn(lines, file, next) <==> CountsRight(lines, counter, next)
  {
    if lines != [] {
      CountsRightStep(lines, counter, next);
      var rest := lines[1..];
      match lines[0]
      case Context(_) =>
        YieldedIffCountsRight(rest, file, counter + 1, next + 1);
        ShiftBoth(rest, counter, next);
      case Added(t) =>
        YieldedIffCountsRight(rest, file, counter + 1, next + 1);
        ShiftBoth(rest, counter, next);
        HeadAndTail(Item(Some(file), counter, t), YieldedIn(rest, Some(file), counter + 1),
                    Item(Some(file), next, t), AddedIn(rest, file, next + 1));
      case Removed(_) => YieldedIffCountsRight(rest, file, counter, next);
      case NoNewline => YieldedIffCountsRight(rest, file, counter + 1, next);
    }
  }

  lemma HeadAndTail<T>(x: T, xs: seq<T>, y: T, ys: seq<T>)
    ensures [x] + xs == [y] + ys <==> x == y && xs == ys
  {
    if [x] + xs == [y] + ys {
      assert ([x] + xs)[0] == ([y] + ys)[0];
      assert xs == ([x] + xs)[1..] == ([y] + ys)[1..] == ys;
    }
  }

  lemma ShiftBoth(lines: seq<HunkLine>, counter: nat, next: nat)
    ensures CountsRight(lines, counter + 1, next + 1) <==> CountsRight(lines, counter, next)
  {
  }

  // ---- Whole diffs -------------------------------------------------------------------------------------------------------

  /** A hunk the scanner reads correctly. */
  predicate Legible(h: Hunk) {
    HeaderLike(h.lines) == 0 && CountsRight(h.lines, EffectiveStart(h), h.after.start)
  }

  predicate AddsLines(h: Hunk) {
    exists j :: 0 <= j < |h.lines| && h.lines[j].Added?
  }

  /** A hunk whose added lines, if it has any, are read correctly: the file must have been named right. */
  predicate ReadIn(h: Hunk, named: bool) {
    Legible(h) && (AddsLines(h) ==> named)
  }

  /** Under the name of another file, only a hunk that adds nothing is read correctly. */
  lemma {:induction false} MisnamedIff(lines: seq<HunkLine>, name: Option<string>, counter: nat, file: string, next: nat)
    requires name != Some(file)
    ensures YieldedIn(lines, name, counter) == AddedIn(lines, file, next) <==> forall j :: 0 <= j < |lines| ==> !lines[j].Added?
  {
    if lines != [] {
      var rest := lines[1..];
      assert forall j :: 1 <= j < |lines| ==> lines[j] == rest[j - 1];
      assert forall j :: 0 <= j < |rest| ==> rest[j] == lines[j + 1];
      match lines[0]
      case Context(_) => MisnamedIff(rest, name, counter + 1, file, next + 1);
      case Added(t) =>
        HeadAndTail(Item(name, counter, t), YieldedIn(rest, name, counter + 1),
                    Item(Some(file), next, t), AddedIn(rest, file, next + 1));
      case Removed(_) => MisnamedIff(rest, name, counter, file, next);
      case NoNewline => MisnamedIff(rest, name, counter + 1, file, next);
    }
  }

  lemma YieldedIffReadIn(h: Hunk, c: Cursor, file: string)
    requires HeaderLike(h.lines) == 0 && c.line == EffectiveStart(h)
    ensures YieldedIn(h.lines, c.file, c.line) == AddedIn(h.lines, file, h.after.start) <==> ReadIn(h, c.file == Some(file))
  {
    hide YieldedIn, AddedIn;
    if c.file == Some(file) {
      YieldedIffCountsRight(h.lines, file, EffectiveStart(h), h.after.start);
    } else {
      MisnamedIff(h.lines, c.file, c.line, file, h.after.start);
    }
  }

  lemma HunkRead(h: Hunk, file: string, c: Cursor)
    ensures var raw := [RenderHeader(h)] + RenderLines(h.lines);
      && |Scan(raw, c)| <= |AddedIn(h.lines, file, h.after.start)|
      && (Scan(raw, c) == AddedIn(h.lines, file, h.after.start) <==> ReadIn(h, c.file == Some(file)))
      && (Legible(h) ==> After(raw, c).file == c.file)
  {
    hide RenderHeader, Scan, After;
    HeaderIsRead(h, c);
    var d := c.(line := EffectiveStart(h));
    ScanConcat([RenderHeader(h)], RenderLines(h.lines), c);
    assert [] + Scan(RenderLines(h.lines), d) == Scan(RenderLines(h.lines), d);
    LinesRead(h.lines, d);
    AddedCount(h.lines, "", 0, file, h.after.start);
    hide YieldedIn, AddedIn, RenderLines, EffectiveStart, HeaderLike, CountsRight;
    if HeaderLike(h.lines) == 0 {
      YieldedIffReadIn(h, d, file);
    }
  }

  lemma {:induction false} HunksRead(hunks: seq<Hunk>, file: string, c: Cursor)
    ensures |Scan(RenderHunks(hunks), c)| <= |AddedInHunks(hunks, file)|
    ensures Scan(RenderHunks(hunks), c) == AddedInHunks(hunks, file) <==> forall h :: h in hunks ==> ReadIn(h, c.file == Some(file))
    ensures (forall h :: h in hunks ==> Legible(h)) ==> After(RenderHunks(hunks), c).file == c.file
  {
    hide Legible, AddsLines, RenderHeader, RenderLines, Scan, After, AddedIn;
    if hunks == [] {
      NothingScanned(c);
    } else {
      var front, last := hunks[..|hunks| - 1], hunks[|hunks| - 1];
      assert hunks == front + [last];
      var raw := [RenderHeader(last)] + RenderLines(last.lines);
      assert RenderHunks(hunks) == RenderHunks(front) + raw;
      HunksRead(front, file, c);
      ScanConcat(RenderHunks(front), raw, c);
      var d := After(RenderHunks(front), c);
      HunkRead(last, file, d);
      SameParts(Scan(RenderHunks(front), c), Scan(raw, d), AddedInHunks(front, file), AddedIn(last.lines, file, last.after.start));
      assert forall h :: h in hunks <==> h in front || h == last;
      var named := c.file == Some(file);
      assert (forall h :: h in hunks ==> ReadIn(h, named)) <==> (forall h :: h in front ==> ReadIn(h, named)) && ReadIn(last, named);
      if forall h :: h in front ==> ReadIn(h, named) {
        assert forall h :: h in front ==> Legible(h);
      }
    }
  }

  /** The header lines of a file diff are what the format allows: no preamble line starts with '+'. */
  predicate WellFormed(f: FileDiff) {
    forall l :: l in f.preamble ==> !("+" <= l)
  }

  /** The name has no white space around it; the scanner strips it off. */
  predicate Named(f: FileDiff) {
    Stripped(f.target)
  }

  lemma {:induction false} RStripKeeps(t: string, k: nat)
    requires k < |t| && !IsSpace(t[k])
    ensures |RStrip(t)| > k
  {
    if IsSpace(t[|t| - 1]) {
      RStripKeeps(t[..|t| - 1], k);
    }
  }

  lemma StrippedIff(t: string)
    ensures Stripped(t) <==> Strip(t) == t
    ensures Strip(t) != t ==> |Strip(t)| < |t|
  {
    StripIsShorter(t);
    if t != "" && IsSpace(t[0]) {
      assert |LStrip(t)| <= |t[1..]|;
    }
  }

  lemma TabIsStripped(t: string)
    ensures Strip(t + "\t") == Strip(t)
  {
    TabStaysLast(t);
    var l := LStrip(t);
    if l != "" {
      assert (l + "\t")[..|l|] == l;
    }
  }

  lemma {:induction false} TabStaysLast(t: string)
    ensures LStrip(t + "\t") == if LStrip(t) == "" then "" else LStrip(t) + "\t"
  {
    if t == "" {
      assert t + "\t" == "\t" && "\t"[1..] == "";
      assert LStrip("\t") == LStrip("");
    } else {
      assert (t + "\t")[0] == t[0] && (t + "\t")[1..] == t[1..] + "\t";
      if IsSpace(t[0]) {
        TabStaysLast(t[1..]);
      }
    }
  }

  /** The scanner takes the file's own name if and only if there is no white space around it. */
  lemma NameReadIff(f: FileDiff)
    ensures Strip(ClosedTarget(f)) == Strip(f.target)
    ensures PathOf(Strip(f.target)) == PathOf(f.target) <==> Named(f)
  {
    TabIsStripped(f.target);
    StrippedIff(f.target);
    assert f.target + "" == f.target;
    var t := f.target;
    if "b/" <= t {
      assert t[0] == 'b' && t[1] == '/';
      RStripKeeps(t, 1);
      assert Strip(t)[..2] == t[..2] == "b/";
    }
  }

  lemma {:induction false} PreambleYieldsNothing(preamble: seq<string>, c: Cursor)
    requires forall l :: l in preamble ==> !("+" <= l)
    ensures Scan(preamble, c) == []
  {
    if preamble != [] {
      var front := preamble[..|preamble| - 1];
      assert preamble == front + [preamble[|preamble| - 1]];
      assert (forall l :: l in front ==> l in preamble) && preamble[|preamble| - 1] in preamble;
      PreambleYieldsNothing(front, c);
    }
  }

  lemma FileHeaderRead(f: FileDiff, c: Cursor)
    requires WellFormed(f)
    ensures var head := HeadLines(f);
      Scan(head, c) == [] && After(head, c).file == Some(PathOf(Strip(f.target)))
  {
    var source, target := "--- " + f.source, "+++ " + ClosedTarget(f);
    PreambleYieldsNothing(f.preamble, c);
    ScanConcat(f.preamble, [source, target], c);
    var d := After(f.preamble, c);
    ScanConcat([source], [target], d);
    assert [source] + [target] == [source, target];
    assert source[0] == '-' && target[0] == '+' && target[4..] == ClosedTarget(f);
    ScanOne(source, d);
    ScanOne(target, After([source], d));
    NameReadIff(f);
    hide Strip, ClosedTarget;
  }

  lemma FileRead(f: FileDiff, c: Cursor)
    requires WellFormed(f)
    ensures |Scan(RenderFile(f), c)| <= |AddedInHunks(f.hunks, PathOf(f.target))|
    ensures Scan(RenderFile(f), c) == AddedInHunks(f.hunks, PathOf(f.target)) <==> forall h :: h in f.hunks ==> ReadIn(h, Named(f))
  {
    NameReadIff(f);
    hide ReadIn, Scan, After, RenderHunks, AddedInHunks, PathOf, Strip;
    var head := HeadLines(f);
    FileHeaderRead(f, c);
    ScanConcat(head, RenderHunks(f.hunks), c);
    HunksRead(f.hunks, PathOf(f.target), After(head, c));
    assert [] + Scan(RenderHunks(f.hunks), After(head, c)) == Scan(RenderHunks(f.hunks), After(head, c));
  }

  ghost predicate AllLegible(files: seq<FileDiff>) {
    forall f, h :: f in files && h in f.hunks ==> ReadIn(h, Named(f))
  }

  lemma {:induction false} DiffRead(files: seq<FileDiff>, c: Cursor)
    requires forall f :: f in files ==> WellFormed(f)
    ensures |Scan(RenderDiff(files), c)| <= |AddedInDiff(files)|
    ensures Scan(RenderDiff(files), c) == AddedInDiff(files) <==> AllLegible(files)
  {
    hide ReadIn, Scan, After, RenderFile;
    if files != [] {
      var front, last := files[..|files| - 1], files[|files| - 1];
      assert files == front + [last];
      DiffRead(front, c);
      ScanConcat(RenderDiff(front), RenderFile(last), c);
      var d := After(RenderDiff(front), c);
      FileRead(last, d);
      SameParts(Scan(RenderDiff(front), c), Scan(RenderFile(last), d), AddedInDiff(front), AddedInHunks(last.hunks, PathOf(last.target)));
      assert forall f :: f in files <==> f in front || f == last;
    } else {
      assert Scan(RenderDiff(files), c) == [] by { NothingScanned(c); }
    }
  }

  lemma NothingScanned(c: Cursor)
    ensures Scan([], c) == [] && After([], c) == c
  {
  }

  /** No added text starts with "++ ", no line is added after a "\ No newline" marker of the hunk, and the file is named right
      if the hunk adds anything. */
  predicate PlainlyRead(h: Hunk, named: bool) {
    forall j :: 0 <= j < |h.lines| && h.lines[j].Added? ==> named && !LooksLikeHeader(h.lines[j]) && NoNewline !in h.lines[..j]
  }

  /** With plain section headings, a diff is read correctly exactly when every hunk is so. */
  lemma PlainDiffReadIff(files: seq<FileDiff>)
    requires forall f :: f in files ==> WellFormed(f) && forall h :: h in f.hunks ==> PlainSection(h.section)
    ensures Scan(RenderDiff(files), START) == AddedInDiff(files) <==>
      forall f, h :: f in files && h in f.hunks ==> PlainlyRead(h, Named(f))
  {
    DiffRead(files, START);
    forall f, h | f in files && h in f.hunks ensures ReadIn(h, Named(f)) <==> PlainlyRead(h, Named(f)) {
      PlainlyReadIff(h, Named(f));
    }
    hide Scan, ReadIn, PlainlyRead;
  }

  lemma PlainlyReadIff(h: Hunk, named: bool)
    requires PlainSection(h.section)
    ensures ReadIn(h, named) <==> PlainlyRead(h, named)
  {
    HeaderLikeZero(h.lines);
    forall j | 0 <= j <= |h.lines| ensures Markers(h.lines[..j]) == 0 <==> NoNewline !in h.lines[..j] {
      MarkersZero(h.lines[..j]);
    }
    hide HeaderLike, Markers;
  }

  lemma {:induction false} HeaderLikeZero(lines: seq<HunkLine>)
    ensures HeaderLike(lines) == 0 <==> forall j :: 0 <= j < |lines| ==> !LooksLikeHeader(lines[j])
  {
    if lines != [] {
      HeaderLikeZero(lines[1..]);
      assert forall j :: 1 <= j < |lines| ==> lines[j] == lines[1..][j - 1];
    }
  }

  lemma {:induction false} MarkersZero(lines: seq<HunkLine>)
    ensures Markers(lines) == 0 <==> NoNewline !in lines
  {
    if lines != [] {
      MarkersZero(lines[1..]);
      assert lines == [lines[0]] + lines[1..];
    }
  }

  /** Where a scan of hunks starts does not matter beyond the current file. */
  lemma {:induction false} HunksIndependent(hunks: seq<Hunk>, c: Cursor, d: Cursor)
    requires c.file == d.file
    ensures Scan(RenderHunks(hunks), c) == Scan(RenderHunks(hunks), d)
    ensures After(RenderHunks(hunks), c).file == After(RenderHunks(hunks), d).file
  {
    if hunks == [] {
      NothingScanned(c);
      NothingScanned(d);
    } else {
      var front, last := RenderHunks(hunks[..|hunks| - 1]), hunks[|hunks| - 1];
      HunksIndependent(hunks[..|hunks| - 1], c, d);
      hide Scan, After, RenderLines, RenderHeader;
      var c', d' := After(front, c), After(front, d);
      HeaderIsRead(last, c');
      HeaderIsRead(last, d');
      ScanConcat(front, [RenderHeader(last)], c);
      ScanConcat(front, [RenderHeader(last)], d);
      ScanConcat(front + [RenderHeader(last)], RenderLines(last.lines), c);
      ScanConcat(front + [RenderHeader(last)], RenderLines(last.lines), d);
    }
  }

  lemma FileIndependent(f: FileDiff, c: Cursor)
    requires WellFormed(f)
    ensures Scan(RenderFile(f), c) == Scan(RenderFile(f), START)
  {
    hide Scan, After;
    var head := HeadLines(f);
    FileHeaderRead(f, c);
    FileHeaderRead(f, START);
    ScanConcat(head, RenderHunks(f.hunks), c);
    ScanConcat(head, RenderHunks(f.hunks), START);
    HunksIndependent(f.hunks, After(head, c), After(head, START));
  }

  /** Scanning file diffs one after another is scanning each on its own, whatever they contain. */
  lemma {:induction false} ScanOfConcatenatedDiffs(a: seq<FileDiff>, b: seq<FileDiff>)
    requires forall f :: f in a + b ==> WellFormed(f)
    ensures Scan(RenderDiff(a + b), START) == Scan(RenderDiff(a), START) + Scan(RenderDiff(b), START)
  {
    hide Scan, After, RenderFile, WellFormed;
    if b == [] {
      assert a + b == a;
      NothingScanned(START);
      assert Scan(RenderDiff(a), START) + [] == Scan(RenderDiff(a), START);
    } else {
      var front, last := b[..|b| - 1], b[|b| - 1];
      assert a + b == (a + front) + [last] && (a + b)[..|a + b| - 1] == a + front;
      assert forall f :: f in a + front ==> f in a + b;
      assert last in a + b;
      ScanOfConcatenatedDiffs(a, front);
      ScanConcat(RenderDiff(a + front), RenderFile(last), START);
      ScanConcat(RenderDiff(front), RenderFile(last), START);
      FileIndependent(last, After(RenderDiff(a + front), START));
      FileIndependent(last, After(RenderDiff(front), START));
    }
  }

  // ---- Findings and the gate -------------------------------------------------------------------------------------------

  /** A static rule; `matches` stands for the search with its compiled pattern. */
  datatype Rule = Rule(severity: string, category: string, matches: string -> bool)

  datatype Finding = Finding(severity: string, category: string, detail: string, file: Option<string>, line: nat)

  function Clip(s: string): string {
    if |s| <= 200 then s else s[..200]
  }

  function FindingOf(r: Rule, i: Item): Finding {
    Finding(r.severity, r.category, Clip(Strip(i.text)), i.file, i.line)
  }

  function ItemFindings(i: Item, rules: seq<Rule>): seq<Finding> {
    if rules == [] then []
    else
      var r := rules[|rules| - 1];
      ItemFindings(i, rules[..|rules| - 1]) + if r.matches(i.text) then [FindingOf(r, i)] else []
  }

  /** The findings over the added lines, line by line and rule by rule. */
  function FindingsFor(items: seq<Item>, rules: seq<Rule>): seq<Finding> {
    if items == [] then [] else FindingsFor(items[..|items| - 1], rules) + ItemFindings(items[|items| - 1], rules)
  }

  method ScanDiffStatic(diffText: string, rules: seq<Rule>) returns (findings: seq<Finding>)
    ensures findings == FindingsFor(Scan(SplitLines(diffText), START), rules)
  {
    findings := [];
    var items := IterAddedLines(diffText);
    hide Scan, SplitLines, FindingOf;
    for n := 0 to |items|
      invariant findings == FindingsFor(items[..n], rules)
    {
      var item := items[n];
      ghost var before := findings;
      assert items[..n + 1][..n] == items[..n];
      for m := 0 to |rules|
        invariant findings == before + ItemFindings(item, rules[..m])
      {
        assert rules[..m + 1][..m] == rules[..m];
        if rules[m].matches(item.text) {
          findings := findings + [FindingOf(rules[m], item)];
        }
      }
      assert rules[..|rules|] == rules;
    }
    assert items[..|items|] == items;
  }

  lemma {:induction false} ItemFindingsMembers(i: Item, rules: seq<Rule>, f: Finding)
    ensures f in ItemFindings(i, rules) <==> exists r :: r in rules && r.matches(i.text) && f == FindingOf(r, i)
  {
    if rules != [] {
      ItemFindingsMembers(i, rules[..|rules| - 1], f);
      assert rules == rules[..|rules| - 1] + [rules[|rules| - 1]];
    }
  }

  lemma {:induction false} FindingsMembers(items: seq<Item>, rules: seq<Rule>, f: Finding)
    ensures f in FindingsFor(items, rules) <==>
      exists i, r :: i in items && r in rules && r.matches(i.text) && f == FindingOf(r, i)
  {
    if items != [] {
      FindingsMembers(items[..|items| - 1], rules, f);
      ItemFindingsMembers(items[|items| - 1], rules, f);
      assert items == items[..|items| - 1] + [items[|items| - 1]];
    }
  }

  /** The findings are, for every added line and every rule that matches it: the rule's severity and category, the line's file
      and number, and the first 200 characters of its stripped text. */
  lemma FindingsAre(items: seq<Item>, rules: seq<Rule>, f: Finding)
    ensures f in FindingsFor(items, rules) <==> exists i, r ::
      && i in items && r in rules && r.matches(i.text)
      && f.severity == r.severity && f.category == r.category && f.file == i.file && f.line == i.line
      && f.detail <= Strip(i.text) && |f.detail| == if |Strip(i.text)| < 200 then |Strip(i.text)| else 200
  {
    FindingsMembers(items, rules, f);
    hide FindingsFor;
    if i, r :| i in items && r in rules && r.matches(i.text)
               && f.severity == r.severity && f.category == r.category && f.file == i.file && f.line == i.line
               && f.detail <= Strip(i.text) && |f.detail| == if |Strip(i.text)| < 200 then |Strip(i.text)| else 200 {
      assert f.detail == Clip(Strip(i.text));
      assert f == FindingOf(r, i);
    }
    if i, r :| i in items && r in rules && r.matches(i.text) && f == FindingOf(r, i) {
      assert f.detail == Clip(Strip(i.text));
    }
  }

  lemma {:induction false} FindingsConcat(a: seq<Item>, b: seq<Item>, rules: seq<Rule>)
    ensures FindingsFor(a + b, rules) == FindingsFor(a, rules) + FindingsFor(b, rules)
  {
    if b == [] {
      assert a + b == a;
    } else {
      assert (a + b)[..|a + b| - 1] == a + b[..|b| - 1];
      FindingsConcat(a, b[..|b| - 1], rules);
      hide ItemFindings;
    }
  }

  /** `SEVERITY_ORDER.get(s, default)` */
  function Rank(severity: string, default: nat): nat {
    if severity == "info" then 0
    else if severity == "low" then 1
    else if severity == "medium" then 2
    else if severity == "high" then 3
    else if severity == "critical" then 4
    else default
  }

  /** An unknown severity counts as the least, an unknown threshold as unreachable. */
  predicate SeverityAtLeast(severity: string, threshold: string) {
    Rank(severity, 0) >= Rank(threshold, 99)
  }

  /** The severities in order: each reaches the thresholds up to itself; no severity reaches an unknown threshold; an unknown
      severity reaches a known one only if that is "info". */
  lemma SeverityOrder(names: seq<string>, severity: string, threshold: string)
    requires names == ["info", "low", "medium", "high", "critical"]
    ensures forall i, j :: 0 <= i < 5 && 0 <= j < 5 ==> (SeverityAtLeast(names[i], names[j]) <==> i >= j)
    ensures threshold !in names ==> !SeverityAtLeast(severity, threshold)
    ensures severity !in names && threshold in names ==> (SeverityAtLeast(severity, threshold) <==> threshold == "info")
  {
    assert names[0] == "info" && names[1] == "low" && names[2] == "medium" && names[3] == "high" && names[4] == "critical";
    forall i, j | 0 <= i < 5 && 0 <= j < 5 ensures SeverityAtLeast(names[i], names[j]) <==> i >= j {
      RankOfName(names, i);
      RankOfName(names, j);
    }
  }

  lemma RankOfName(names: seq<string>, i: nat)
    requires names == ["info", "low", "medium", "high", "critical"] && i < 5
    ensures forall default :: Rank(names[i], default) == i
  {
    assert names[i][0] == "ilmhc"[i];
  }

  function Blocking(findings: seq<Finding>, threshold: string): seq<Finding> {
    if findings == [] then []
    else (if SeverityAtLeast(findings[0].severity, threshold) then [findings[0]] else []) + Blocking(findings[1..], threshold)
  }

  predicate Blocked(findings: seq<Finding>, threshold: string) {
    Blocking(findings, threshold) != []
  }

  lemma {:induction false} BlockedIffSome(findings: seq<Finding>, threshold: string)
    ensures Blocked(findings, threshold) <==> exists f :: f in findings && SeverityAtLeast(f.severity, threshold)
  {
    if findings != [] {
      BlockedIffSome(findings[1..], threshold);
      assert findings == [findings[0]] + findings[1..];
    }
  }
}
