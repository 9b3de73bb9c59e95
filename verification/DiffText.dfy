/** Scanning a diff as text (security_reviewer.py): the text is split at every line break Python knows, so a line of the diff
    may be read as several. */
module DiffText {
  import opened Basics
  import opened Text
  import opened LineBreaks
  import opened UnifiedDiff
  import opened SecurityReviewer

  function RenderText(files: seq<FileDiff>): string {
    JoinLines(RenderDiff(files))
  }

  /** What the scanner yields for a text. */
  function ScanText(text: string): seq<Item> {
    Scan(SplitLines(text), START)
  }

  // ---- Lines and what they add --------------------------------------------------------------------------------------------

  /** A printed line, and the item it adds, if it is an added line. */
  datatype Unit = Unit(raw: string, adds: Option<Item>)

  predicate Fitting(u: Unit) {
    u.adds.Some? ==> u.raw == "+" + u.adds.value.text
  }

  function Raws(units: seq<Unit>): (lines: seq<string>)
    ensures |lines| == |units| && forall k :: 0 <= k < |units| ==> lines[k] == units[k].raw
  {
    seq(|units|, k requires 0 <= k < |units| => units[k].raw)
  }

  function Adds(units: seq<Unit>): seq<Item> {
    if units == [] then []
    else
      var u := units[|units| - 1];
      Adds(units[..|units| - 1]) + if u.adds.Some? then [u.adds.value] else []
  }

  function PiecesOf(units: seq<Unit>): seq<string> {
    AllPieces(Raws(units))
  }

  predicate Quiet(pieces: seq<string>) {
    forall k :: 0 <= k < |pieces| ==> !Yields(pieces[k])
  }

  /** A line read as it is meant, at the cursor where it is met: an added line is one piece, is no header, and is met at its
      own file and number; of any other line no piece looks like an added line. */
  predicate ReadsRight(u: Unit, c: Cursor) {
    match u.adds
    case None => Quiet(Pieces(u.raw))
    case Some(item) => OneLine(u.raw) && Yields(u.raw) && c == Cursor(item.file, item.line)
  }

  /** Walking the lines in order, each is read as it is meant. */
  predicate AllRight(units: seq<Unit>, c: Cursor) {
    units != [] ==>
      && AllRight(units[..|units| - 1], c)
      && ReadsRight(units[|units| - 1], After(PiecesOf(units[..|units| - 1]), c))
  }

  // ---- The scan is right if and only if the walk is --------------------------------------------------------------------------

  lemma PiecesGrow(units: seq<Unit>)
    requires units != []
    ensures var front, u := units[..|units| - 1], units[|units| - 1];
      PiecesOf(units) == PiecesOf(front) + Pieces(u.raw)
  {
    assert Raws(units)[..|units| - 1] == Raws(units[..|units| - 1]);
  }

  lemma {:induction false} QuietYieldsNothing(pieces: seq<string>, c: Cursor)
    ensures Quiet(pieces) <==> Scan(pieces, c) == []
  {
    if pieces != [] {
      QuietYieldsNothing(pieces[..|pieces| - 1], c);
    }
  }

  lemma {:induction false} ScannedComesFrom(pieces: seq<string>, c: Cursor, i: Item)
    requires i in Scan(pieces, c)
    ensures exists p :: p in pieces && Yields(p) && p == "+" + i.text
  {
    var front, last := pieces[..|pieces| - 1], pieces[|pieces| - 1];
    if i in Scan(front, c) {
      ScannedComesFrom(front, c, i);
      var p :| p in front && Yields(p) && p == "+" + i.text;
      assert p in pieces;
    } else {
      assert Yields(last) && i.text == last[1..];
      assert last[0] == '+';
      assert last == "+" + i.text;
      assert last in pieces;
    }
  }

  lemma {:induction false} PieceIsOneLine(lines: seq<string>, p: string)
    requires p in AllPieces(lines)
    ensures OneLine(p)
  {
    PiecesAreOneLine(lines[|lines| - 1] + "\n");
    if p in AllPieces(lines[..|lines| - 1]) {
      PieceIsOneLine(lines[..|lines| - 1], p);
    }
  }

  /** An added line that comes out of the scan was one piece and no header. */
  lemma AddedCameThrough(units: seq<Unit>, c: Cursor, u: Unit)
    requires Fitting(u) && u.adds.Some? && u.adds.value in Scan(PiecesOf(units), c)
    ensures OneLine(u.raw) && Yields(u.raw)
  {
    ScannedComesFrom(PiecesOf(units), c, u.adds.value);
    var p :| p in PiecesOf(units) && Yields(p) && p == "+" + u.adds.value.text;
    PieceIsOneLine(Raws(units), p);
  }

  predicate Intact(u: Unit) {
    u.adds.Some? ==> OneLine(u.raw) && Yields(u.raw)
  }

  lemma IntactScan(u: Unit, c: Cursor)
    requires Fitting(u) && Intact(u)
    ensures u.adds.Some? ==> Scan(Pieces(u.raw), c) == [Item(c.file, c.line, u.adds.value.text)]
    ensures u.adds.None? ==> (Scan(Pieces(u.raw), c) == [] <==> Quiet(Pieces(u.raw)))
  {
    if u.adds.Some? {
      PiecesOfOneLine(u.raw);
      ScanOne(u.raw, c);
      assert u.raw[1..] == u.adds.value.text;
    } else {
      QuietYieldsNothing(Pieces(u.raw), c);
    }
  }

  lemma {:induction false} AddsMember(units: seq<Unit>, u: Unit)
    requires u in units && u.adds.Some?
    ensures u.adds.value in Adds(units)
  {
    if u != units[|units| - 1] {
      assert u in units[..|units| - 1];
      AddsMember(units[..|units| - 1], u);
    }
  }

  /** Intact added lines yield at least themselves. */
  lemma {:induction false} AtLeastAdds(units: seq<Unit>, c: Cursor)
    requires forall u :: u in units ==> Fitting(u) && Intact(u)
    ensures |Scan(PiecesOf(units), c)| >= |Adds(units)|
  {
    hide Scan, After, Pieces, PiecesOf, Fitting, Intact;
    if units == [] {
    } else {
      var front, u := units[..|units| - 1], units[|units| - 1];
      assert u in units;
      AtLeastAdds(front, c);
      PiecesGrow(units);
      ScanConcat(PiecesOf(front), Pieces(u.raw), c);
      IntactScan(u, After(PiecesOf(front), c));
    }
  }

  /** For intact lines: the scan gives back what is added if and only if each line is read right. */
  lemma {:induction false} IntactRead(units: seq<Unit>, c: Cursor)
    requires forall u :: u in units ==> Fitting(u) && Intact(u)
    ensures Scan(PiecesOf(units), c) == Adds(units) <==> AllRight(units, c)
  {
    if units == [] {
      assert PiecesOf(units) == [];
    } else {
      var front, u := units[..|units| - 1], units[|units| - 1];
      assert u in units;
      IntactRead(front, c);
      AtLeastAdds(front, c);
      PiecesGrow(units);
      ScanConcat(PiecesOf(front), Pieces(u.raw), c);
      UnitRead(u, After(PiecesOf(front), c));
      hide Scan, After, Pieces, PiecesOf, Fitting, Intact, ReadsRight;
      SameParts(Adds(front), if u.adds.Some? then [u.adds.value] else [],
                Scan(PiecesOf(front), c), Scan(Pieces(u.raw), After(PiecesOf(front), c)));
    }
  }

  lemma UnitRead(u: Unit, c: Cursor)
    requires Fitting(u) && Intact(u)
    ensures |Scan(Pieces(u.raw), c)| >= (if u.adds.Some? then 1 else 0)
    ensures Scan(Pieces(u.raw), c) == (if u.adds.Some? then [u.adds.value] else []) <==> ReadsRight(u, c)
  {
    IntactScan(u, c);
    hide Scan, Pieces;
  }

  lemma {:induction false} AllRightIsIntact(units: seq<Unit>, c: Cursor, u: Unit)
    requires AllRight(units, c) && u in units
    ensures Intact(u)
  {
    if u != units[|units| - 1] {
      assert u in units[..|units| - 1];
      AllRightIsIntact(units[..|units| - 1], c, u);
    }
  }

  /** For any printed lines: the scan gives back exactly what they add, in order and with the right numbers, if and only if
      each line is read as it is meant. */
  lemma UnitsReadIff(units: seq<Unit>, c: Cursor)
    requires forall u :: u in units ==> Fitting(u)
    ensures Scan(PiecesOf(units), c) == Adds(units) <==> AllRight(units, c)
  {
    if Scan(PiecesOf(units), c) == Adds(units) {
      forall u | u in units ensures Intact(u) {
        if u.adds.Some? {
          AddsMember(units, u);
          AddedCameThrough(units, c, u);
        }
      }
      IntactRead(units, c);
    }
    if AllRight(units, c) {
      forall u | u in units ensures Intact(u) {
        AllRightIsIntact(units, c, u);
      }
      IntactRead(units, c);
    }
  }

  // ---- Rendered diffs --------------------------------------------------------------------------------------------------------

  function Others(lines: seq<string>): (units: seq<Unit>)
    ensures |units| == |lines| && forall k :: 0 <= k < |lines| ==> units[k] == Unit(lines[k], None)
  {
    seq(|lines|, k requires 0 <= k < |lines| => Unit(lines[k], None))
  }

  function LineUnits(lines: seq<HunkLine>, file: string, next: nat): seq<Unit> {
    if lines == [] then []
    else
      [LineUnit(lines[0], file, next)] + LineUnits(lines[1..], file, next + Width(lines[0]))
  }

  /** How many lines of the new file a line of the hunk stands for. */
  function Width(l: HunkLine): nat {
    if l.Context? || l.Added? then 1 else 0
  }

  function HunkUnits(hunks: seq<Hunk>, file: string): seq<Unit> {
    if hunks == [] then []
    else
      var h := hunks[|hunks| - 1];
      HunkUnits(hunks[..|hunks| - 1], file) + ([Unit(RenderHeader(h), None)] + LineUnits(h.lines, file, h.after.start))
  }

  function FileUnits(f: FileDiff): seq<Unit> {
    Others(HeadLines(f)) + HunkUnits(f.hunks, PathOf(f.target))
  }

  /** The lines of a rendered diff, each with the item it adds. */
  function DiffUnits(files: seq<FileDiff>): seq<Unit> {
    if files == [] then [] else DiffUnits(files[..|files| - 1]) + FileUnits(files[|files| - 1])
  }

  lemma RawsConcat(a: seq<Unit>, b: seq<Unit>)
    ensures Raws(a + b) == Raws(a) + Raws(b)
  {
  }

  lemma {:induction false} AddsConcat(a: seq<Unit>, b: seq<Unit>)
    ensures Adds(a + b) == Adds(a) + Adds(b)
  {
    if b == [] {
      assert a + b == a;
    } else {
      assert (a + b)[..|a + b| - 1] == a + b[..|b| - 1];
      AddsConcat(a, b[..|b| - 1]);
    }
  }

  lemma {:induction false} OthersAdd(lines: seq<string>)
    ensures Raws(Others(lines)) == lines && Adds(Others(lines)) == []
  {
    if lines != [] {
      OthersAdd(lines[..|lines| - 1]);
      assert Others(lines)[..|lines| - 1] == Others(lines[..|lines| - 1]);
    }
  }

  lemma AddsOfOne(u: Unit)
    ensures Adds([u]) == if u.adds.Some? then [u.adds.value] else []
  {
    assert [u][..0] == [];
  }

  function LineUnit(l: HunkLine, file: string, next: nat): Unit {
    Unit(RenderLine(l), if l.Added? then Some(Item(Some(file), next, l.text)) else None)
  }

  lemma AddedInStep(lines: seq<HunkLine>, file: string, next: nat)
    requires lines != []
    ensures AddedIn(lines, file, next)
         == (if lines[0].Added? then [Item(Some(file), next, lines[0].text)] else []) + AddedIn(lines[1..], file, next + Width(lines[0]))
  {
  }

  lemma LineUnitsStep(lines: seq<HunkLine>, file: string, next: nat)
    requires lines != []
    ensures LineUnits(lines, file, next) == [LineUnit(lines[0], file, next)] + LineUnits(lines[1..], file, next + Width(lines[0]))
    ensures AddedIn(lines, file, next) == Adds([LineUnit(lines[0], file, next)]) + AddedIn(lines[1..], file, next + Width(lines[0]))
    ensures RenderLines(lines) == Raws([LineUnit(lines[0], file, next)]) + RenderLines(lines[1..])
    ensures Fitting(LineUnit(lines[0], file, next))
  {
    AddedInStep(lines, file, next);
    AddsOfOne(LineUnit(lines[0], file, next));
    hide Adds, AddedIn;
  }

  lemma {:induction false} LineUnitsAre(lines: seq<HunkLine>, file: string, next: nat)
    ensures Raws(LineUnits(lines, file, next)) == RenderLines(lines)
    ensures Adds(LineUnits(lines, file, next)) == AddedIn(lines, file, next)
    ensures forall u :: u in LineUnits(lines, file, next) ==> Fitting(u)
  {
    if lines != [] {
      var u, rest := LineUnit(lines[0], file, next), LineUnits(lines[1..], file, next + Width(lines[0]));
      LineUnitsAre(lines[1..], file, next + Width(lines[0]));
      LineUnitsStep(lines, file, next);
      AddsConcat([u], rest);
      RawsConcat([u], rest);
      hide RenderLines, RenderLine, Adds, AddedIn, LineUnits, LineUnit, Fitting, Raws;
    }
  }

  lemma HunkUnitsStep(h: Hunk, file: string)
    ensures var units := [Unit(RenderHeader(h), None)] + LineUnits(h.lines, file, h.after.start);
      && Raws(units) == [RenderHeader(h)] + RenderLines(h.lines) && Adds(units) == AddedIn(h.lines, file, h.after.start)
      && forall u :: u in units ==> Fitting(u)
  {
    var units := LineUnits(h.lines, file, h.after.start);
    LineUnitsAre(h.lines, file, h.after.start);
    AddsConcat([Unit(RenderHeader(h), None)], units);
    AddsOfOne(Unit(RenderHeader(h), None));
    hide RenderHeader, RenderLines, LineUnits, Adds, AddedIn;
    assert [] + Adds(units) == Adds(units);
  }

  lemma {:induction false} HunkUnitsAre(hunks: seq<Hunk>, file: string)
    ensures Raws(HunkUnits(hunks, file)) == RenderHunks(hunks)
    ensures Adds(HunkUnits(hunks, file)) == AddedInHunks(hunks, file)
    ensures forall u :: u in HunkUnits(hunks, file) ==> Fitting(u)
  {
    hide RenderHeader, RenderLines, LineUnits, Adds, AddedIn, Raws;
    if hunks == [] {
      NoUnits();
    } else {
      var front, h := hunks[..|hunks| - 1], hunks[|hunks| - 1];
      var units := [Unit(RenderHeader(h), None)] + LineUnits(h.lines, file, h.after.start);
      HunkUnitsAre(front, file);
      HunkUnitsStep(h, file);
      RawsConcat(HunkUnits(front, file), units);
      AddsConcat(HunkUnits(front, file), units);
      assert RenderHunks(hunks) == RenderHunks(front) + ([RenderHeader(h)] + RenderLines(h.lines));
    }
  }

  lemma NoUnits()
    ensures Raws([]) == [] && Adds([]) == [] && PiecesOf([]) == []
  {
  }

  lemma FileUnitsAre(f: FileDiff)
    ensures Raws(FileUnits(f)) == RenderFile(f) && Adds(FileUnits(f)) == AddedInHunks(f.hunks, PathOf(f.target))
    ensures forall u :: u in FileUnits(f) ==> Fitting(u)
  {
    hide Adds, Raws, HunkUnits, PathOf, RenderHunks, AddedInHunks;
    var head, hunks := Others(HeadLines(f)), HunkUnits(f.hunks, PathOf(f.target));
    OthersAdd(HeadLines(f));
    HunkUnitsAre(f.hunks, PathOf(f.target));
    RawsConcat(head, hunks);
    AddsConcat(head, hunks);
  }

  lemma {:induction false} DiffUnitsAre(files: seq<FileDiff>)
    ensures Raws(DiffUnits(files)) == RenderDiff(files) && Adds(DiffUnits(files)) == AddedInDiff(files)
    ensures forall u :: u in DiffUnits(files) ==> Fitting(u)
  {
    hide Adds, Raws, FileUnits, RenderFile, AddedInHunks, PathOf, Fitting;
    if files == [] {
      NoUnits();
    } else {
      var front, f := files[..|files| - 1], files[|files| - 1];
      DiffUnitsAre(front);
      FileUnitsAre(f);
      RawsConcat(DiffUnits(front), FileUnits(f));
      AddsConcat(DiffUnits(front), FileUnits(f));
    }
  }

  /** For any diff, printed as text: the scanner yields exactly its added lines, in order, each with its own file and number, if
      and only if, walking the printed lines, each added line is one piece, is no header and is met at its own number, and no
      piece of another line looks like an added one. */
  lemma TextRead(files: seq<FileDiff>)
    ensures ScanText(RenderText(files)) == AddedInDiff(files) <==> AllRight(DiffUnits(files), START)
  {
    DiffUnitsAre(files);
    SplitOfJoin(RenderDiff(files));
    UnitsReadIff(DiffUnits(files), START);
    hide Scan, AllRight, Adds, DiffUnits, RenderDiff, SplitLines, JoinLines, AllPieces, Raws, AddedInDiff, Fitting;
  }

  /** When no line holds a line break, reading the text is reading the lines. */
  lemma TextReadIffLegible(files: seq<FileDiff>)
    requires forall f :: f in files ==> WellFormed(f)
    requires forall l :: l in RenderDiff(files) ==> OneLine(l)
    ensures ScanText(RenderText(files)) == AddedInDiff(files) <==> AllLegible(files)
  {
    SplitOfJoin(RenderDiff(files));
    AllPiecesOfOneLines(RenderDiff(files));
    DiffRead(files, START);
    hide Scan, AllLegible, WellFormed, RenderDiff, SplitLines, JoinLines, AllPieces, OneLine;
  }

  // ---- Plain diffs: the condition line by line ---------------------------------------------------------------------------------

  /** What is left of a hunk line after its first break, piece by piece. */
  function Remnants(l: HunkLine): seq<string> {
    FirstPiece(RenderLine(l));
    Pieces(RenderLine(l))[1..]
  }

  /** No remnant looks like a file or hunk header. */
  predicate Tame(l: HunkLine) {
    forall k :: 0 <= k < |Remnants(l)| ==> !("+++ " <= Remnants(l)[k]) && HunkStart(Remnants(l)[k]).None?
  }

  /** Git quotes line breaks in names, section headings are plain, and no remnant of a hunk line looks like a header. */
  predicate Plain(f: FileDiff) {
    && WellFormed(f) && (forall l :: l in HeadLines(f) ==> OneLine(l))
    && forall h :: h in f.hunks ==> PlainSection(h.section) && OneLine(h.section) && forall l :: l in h.lines ==> Tame(l)
  }

  /** The scanner counts as many lines as the line stands for: it is no "\ No newline" marker, and every remnant of it looks
      like a removed line. */
  predicate Still(l: HunkLine) {
    !l.NoNewline? && forall k :: 0 <= k < |Remnants(l)| ==> "-" <= Remnants(l)[k]
  }

  /** No remnant of the line looks like an added one. */
  predicate AddsNothing(l: HunkLine) {
    forall k :: 0 <= k < |Remnants(l)| ==> !("+" <= Remnants(l)[k])
  }

  /** A hunk the scanner reads correctly: no added text begins with "++ " or holds a line break, nothing before an added line
      is counted too much, no remnant looks like an added line, and the file is named right if the hunk adds anything. */
  predicate Readable(h: Hunk, named: bool) {
    forall j :: 0 <= j < |h.lines| ==>
      && AddsNothing(h.lines[j])
      && (h.lines[j].Added? ==> named && Clean(h.lines[j]) && forall i :: 0 <= i < j ==> Still(h.lines[i]))
  }

  predicate Clean(l: HunkLine) {
    l.Added? ==> !LooksLikeHeader(l) && OneLine(l.text)
  }

  /** The same, walking the lines; `aligned` says that the counter stands right. */
  predicate Fits(lines: seq<HunkLine>, aligned: bool) {
    lines != [] ==>
      && AddsNothing(lines[0]) && (lines[0].Added? ==> aligned && Clean(lines[0]))
      && Fits(lines[1..], aligned && Still(lines[0]))
  }

  lemma {:induction false} FitsIff(lines: seq<HunkLine>, aligned: bool)
    ensures Fits(lines, aligned) <==>
      forall j :: 0 <= j < |lines| ==>
        && AddsNothing(lines[j])
        && (lines[j].Added? ==> Clean(lines[j]) && aligned && forall i :: 0 <= i < j ==> Still(lines[i]))
  {
    hide AddsNothing, Clean, Still;
    if lines != [] {
      FitsIff(lines[1..], aligned && Still(lines[0]));
      assert forall j :: 1 <= j < |lines| ==> lines[j] == lines[1..][j - 1];
      assert forall j :: 0 <= j < |lines| - 1 ==> lines[1..][j] == lines[j + 1];
    }
  }

  // ---- One line of a hunk ----------------------------------------------------------------------------------------------------------

  /** The line up to its first break. */
  function Cut(l: HunkLine): HunkLine {
    match l
    case Context(t) => Context(t[..LineEnd(t)])
    case Added(t) => Added(t[..LineEnd(t)])
    case Removed(t) => Removed(t[..LineEnd(t)])
    case NoNewline => NoNewline
  }

  lemma CutShape(c: char, t: string)
    requires !IsBreak(c)
    ensures LineEnd([c] + t) == 1 + LineEnd(t) && ([c] + t)[..1 + LineEnd(t)] == [c] + t[..LineEnd(t)]
  {
    assert ([c] + t)[1..] == t;
  }

  lemma CutLooksAlike(l: HunkLine)
    requires !l.Added? || !LooksLikeHeader(l)
    ensures !LooksLikeHeader(Cut(l)) && Cut(l).Added? == l.Added? && Cut(l).Removed? == l.Removed?
  {
    if l.Added? {
      var t, u := l.text, l.text[..LineEnd(l.text)];
      assert "++ " <= u ==> "++ " <= t;
    }
  }

  lemma CutIsPrefix(l: HunkLine)
    ensures RenderLine(Cut(l)) == RenderLine(l)[..LineEnd(RenderLine(l))]
  {
    match l
    case Context(t) => CutShape(' ', t);
    case Added(t) => CutShape('+', t);
    case Removed(t) => CutShape('-', t);
    case NoNewline =>
      MarkerIsOneLine();
      hide RenderLine;
      WholeLine(RenderLine(l));
  }

  lemma {:induction false} WholeLine(s: string)
    requires OneLine(s)
    ensures LineEnd(s) == |s| && s[..|s|] == s
  {
    if s != "" {
      WholeLine(s[1..]);
    }
  }

  /** The first piece of a printed line is the printed cut. */
  lemma FirstPieceIsCut(l: HunkLine)
    ensures Pieces(RenderLine(l)) == [RenderLine(Cut(l))] + Remnants(l)
  {
    CutIsPrefix(l);
    FirstPiece(RenderLine(l));
    hide RenderLine, Pieces, Cut;
  }

  lemma MarkerIsOneLine()
    ensures OneLine(RenderLine(NoNewline))
  {
    var marker := RenderLine(NoNewline);
    assert forall k :: 0 <= k < |marker| ==> !IsBreak(marker[k]);
  }

  lemma FirstChar(p: string)
    ensures ("+" <= p <==> p != "" && p[0] == '+') && ("-" <= p <==> p != "" && p[0] == '-')
    ensures "--- " <= p ==> "-" <= p
  {
    assert "--- " <= p ==> p[0] == "--- "[0];
  }

  lemma RemnantAdvances(p: string, c: Cursor)
    requires !("+++ " <= p) && HunkStart(p).None?
    ensures Advance(c, p) == c.(line := if "-" <= p then c.line else c.line + 1)
  {
    FirstChar(p);
    hide HunkStart;
  }

  /** Pieces that are no headers leave the file alone, and the counter too if and only if they look like removed lines. */
  lemma {:induction false} RemnantsAdvance(pieces: seq<string>, c: Cursor)
    requires forall k :: 0 <= k < |pieces| ==> !("+++ " <= pieces[k]) && HunkStart(pieces[k]).None?
    ensures After(pieces, c).file == c.file && After(pieces, c).line >= c.line
    ensures After(pieces, c).line == c.line <==> forall k :: 0 <= k < |pieces| ==> "-" <= pieces[k]
  {
    if pieces != [] {
      var front, p := pieces[..|pieces| - 1], pieces[|pieces| - 1];
      assert forall k :: 0 <= k < |front| ==> front[k] == pieces[k];
      RemnantsAdvance(front, c);
      FirstChar(p);
      RemnantAdvances(p, After(front, c));
      assert After(pieces, c) == Advance(After(front, c), p);
      hide HunkStart, Advance;
    }
  }

  /** What a tame line does to the cursor. */
  lemma LineAdvances(l: HunkLine, c: Cursor)
    requires Tame(l) && (!l.Added? || !LooksLikeHeader(l))
    ensures var d := After(Pieces(RenderLine(l)), c);
      d.file == c.file && d.line >= c.line + Width(l) && (d.line == c.line + Width(l) <==> Still(l))
  {
    hide After, Scan, Remnants, HunkStart, RenderLine, LooksLikeHeader, Pieces, Cut;
    FirstPieceIsCut(l);
    CutLooksAlike(l);
    LineRead(Cut(l), c);
    var head := [RenderLine(Cut(l))];
    ScanConcat(head, Remnants(l), c);
    RemnantsAdvance(Remnants(l), After(head, c));
  }

  /** A tame line other than an added one yields nothing if and only if no remnant looks like an added line. */
  lemma QuietIff(l: HunkLine)
    requires Tame(l) && !l.Added?
    ensures Quiet(Pieces(RenderLine(l))) <==> AddsNothing(l)
  {
    FirstPieceIsCut(l);
    RenderedLineLooks(Cut(l));
    assert !Yields(RenderLine(Cut(l)));
    forall k | 0 <= k < |Remnants(l)| ensures Yields(Remnants(l)[k]) <==> "+" <= Remnants(l)[k] {
      var r := Remnants(l)[k];
      FirstChar(r);
    }
    hide Yields, RenderLine, Remnants, Pieces;
    var pieces := [RenderLine(Cut(l))] + Remnants(l);
    assert forall k :: 0 <= k < |Remnants(l)| ==> pieces[k + 1] == Remnants(l)[k];
    assert forall k :: 1 <= k < |pieces| ==> pieces[k] == Remnants(l)[k - 1];
  }

  lemma AddedIsOneLine(l: HunkLine)
    requires l.Added?
    ensures OneLine(RenderLine(l)) <==> OneLine(l.text)
    ensures Yields(RenderLine(l)) <==> !LooksLikeHeader(l)
    ensures OneLine(l.text) ==> Remnants(l) == [] && Still(l) && AddsNothing(l)
  {
    RenderedLineLooks(l);
    var raw := RenderLine(l);
    assert raw[0] == '+' && raw[1..] == l.text;
    assert forall k :: 0 <= k < |l.text| ==> raw[k + 1] == l.text[k];
    FirstChar(raw);
    if OneLine(l.text) {
      assert forall k :: 1 <= k < |raw| ==> raw[k] == l.text[k - 1];
      PiecesOfOneLine(raw);
    }
  }

  // ---- The lines of one hunk -----------------------------------------------------------------------------------------------------------

  lemma {:induction false} AllRightConcat(a: seq<Unit>, b: seq<Unit>, c: Cursor)
    ensures AllRight(a + b, c) <==> AllRight(a, c) && AllRight(b, After(PiecesOf(a), c))
    ensures After(PiecesOf(a + b), c) == After(PiecesOf(b), After(PiecesOf(a), c))
  {
    PiecesConcat(a, b);
    ScanConcat(PiecesOf(a), PiecesOf(b), c);
    hide After, Scan, ReadsRight, PiecesOf;
    if b == [] {
      assert a + b == a;
    } else {
      assert (a + b)[..|a + b| - 1] == a + b[..|b| - 1];
      AllRightConcat(a, b[..|b| - 1], c);
    }
  }

  lemma PiecesConcat(a: seq<Unit>, b: seq<Unit>)
    ensures PiecesOf(a + b) == PiecesOf(a) + PiecesOf(b)
  {
    RawsConcat(a, b);
    AllPiecesConcat(Raws(a), Raws(b));
  }

  lemma OneUnit(u: Unit, c: Cursor)
    ensures AllRight([u], c) <==> ReadsRight(u, c)
    ensures PiecesOf([u]) == Pieces(u.raw)
  {
    assert [u][..0] == [] && Raws([u]) == [u.raw];
    NoUnits();
    NothingScanned(c);
    AllPiecesOfOne(u.raw);
  }

  /** The walk over a hunk, one line taken off. */
  lemma WalkStep(lines: seq<HunkLine>, file: string, next: nat, c: Cursor)
    requires lines != []
    ensures var l, d := lines[0], After(Pieces(RenderLine(lines[0])), c);
      && (AllRight(LineUnits(lines, file, next), c) <==>
            ReadsRight(LineUnit(l, file, next), c) && AllRight(LineUnits(lines[1..], file, next + Width(l)), d))
      && After(PiecesOf(LineUnits(lines, file, next)), c) == After(PiecesOf(LineUnits(lines[1..], file, next + Width(l))), d)
  {
    var u, rest := LineUnit(lines[0], file, next), LineUnits(lines[1..], file, next + Width(lines[0]));
    assert LineUnits(lines, file, next) == [u] + rest && u.raw == RenderLine(lines[0]);
    hide AllRight, ReadsRight, After, Pieces, PiecesOf, RenderLine, LineUnit, LineUnits;
    OneUnit(u, c);
    AllRightConcat([u], rest, c);
  }

  lemma NoLines(file: string, next: nat, c: Cursor)
    ensures AllRight(LineUnits([], file, next), c) && After(PiecesOf(LineUnits([], file, next)), c) == c
  {
    NoUnits();
    NothingScanned(c);
  }

  /** Walking the lines of a hunk from a counter that is not behind, or in another file. */
  lemma {:induction false} LinesFit(lines: seq<HunkLine>, file: string, c: Cursor, next: nat)
    requires c.line >= next && forall l :: l in lines ==> Tame(l)
    ensures AllRight(LineUnits(lines, file, next), c) <==> Fits(lines, c == Cursor(Some(file), next))
  {
    hide AllRight, ReadsRight, After, Pieces, PiecesOf, RenderLine, LineUnit, LineUnits, Tame, Still, AddsNothing, Clean;
    if lines == [] {
      NoLines(file, next, c);
    } else {
      var l := lines[0];
      assert l in lines;
      WalkStep(lines, file, next, c);
      LineReadsRight(l, file, c, next);
      if Clean(l) {
        CleanAdvances(l, c);
        LinesFit(lines[1..], file, After(Pieces(RenderLine(l)), c), next + Width(l));
      } else {
        OnlyAddedIsUnclean(l);
      }
    }
  }

  lemma OnlyAddedIsUnclean(l: HunkLine)
    requires !Clean(l)
    ensures l.Added?
  {
  }

  lemma CleanAdvances(l: HunkLine, c: Cursor)
    requires Tame(l) && Clean(l)
    ensures var d := After(Pieces(RenderLine(l)), c);
      && d == Cursor(c.file, d.line) && d.line >= c.line + Width(l) && (d.line == c.line + Width(l) <==> Still(l))
  {
    LineAdvances(l, c);
  }

  lemma LineReadsRight(l: HunkLine, file: string, c: Cursor, next: nat)
    requires Tame(l)
    ensures ReadsRight(LineUnit(l, file, next), c) <==>
      AddsNothing(l) && (l.Added? ==> c == Cursor(Some(file), next) && Clean(l))
    ensures l.Added? && Clean(l) ==> Still(l)
  {
    if l.Added? {
      AddedIsOneLine(l);
    } else {
      QuietIff(l);
    }
    hide Quiet, OneLine, Yields, Pieces, RenderLine, AddsNothing, LooksLikeHeader, Still;
  }

  lemma {:induction false} LinesKeepFile(lines: seq<HunkLine>, file: string, next: nat, c: Cursor)
    requires forall l :: l in lines ==> Tame(l) && Clean(l)
    ensures After(PiecesOf(LineUnits(lines, file, next)), c).file == c.file
  {
    hide AllRight, ReadsRight, After, Pieces, PiecesOf, RenderLine, LineUnit, LineUnits, Tame, Still, Clean;
    if lines == [] {
      NoLines(file, next, c);
    } else {
      var l := lines[0];
      assert l in lines;
      WalkStep(lines, file, next, c);
      CleanAdvances(l, c);
      LinesKeepFile(lines[1..], file, next + Width(l), After(Pieces(RenderLine(l)), c));
    }
  }

  // ---- Hunks, files, diffs -----------------------------------------------------------------------------------------------------------------

  lemma {:induction false} DigitsAreOneLine(s: string)
    requires AllDigits(s)
    ensures OneLine(s)
  {
  }

  lemma RangeIsOneLine(r: Range)
    ensures OneLine(RenderRange(r))
  {
    DigitsAreOneLine(Decimal(r.start));
    if r.count.Some? {
      DigitsAreOneLine(Decimal(r.count.value));
    }
  }

  lemma HeaderIsOneLine(h: Hunk)
    requires OneLine(h.section)
    ensures OneLine(RenderHeader(h))
  {
    RangeIsOneLine(h.before);
    RangeIsOneLine(h.after);
    hide RenderRange;
    OneLineConcat("@@ -", RenderRange(h.before));
    OneLineConcat("@@ -" + RenderRange(h.before), " +");
    OneLineConcat("@@ -" + RenderRange(h.before) + " +", RenderRange(h.after));
    OneLineConcat("@@ -" + RenderRange(h.before) + " +" + RenderRange(h.after), " @@");
    OneLineConcat("@@ -" + RenderRange(h.before) + " +" + RenderRange(h.after) + " @@", h.section);
  }

  lemma OneLineConcat(a: string, b: string)
    requires OneLine(a) && OneLine(b)
    ensures OneLine(a + b)
  {
  }

  /** The header of a hunk with a plain heading sets the counter and yields nothing. */
  lemma HeaderRight(h: Hunk, c: Cursor)
    requires PlainSection(h.section) && OneLine(h.section)
    ensures AllRight([Unit(RenderHeader(h), None)], c)
    ensures After(PiecesOf([Unit(RenderHeader(h), None)]), c) == c.(line := h.after.start)
  {
    var u := Unit(RenderHeader(h), None);
    OneUnit(u, c);
    HeaderIsOneLine(h);
    PiecesOfOneLine(RenderHeader(h));
    HeaderIsRead(h, c);
    QuietYieldsNothing(Pieces(u.raw), c);
    hide RenderHeader, Scan, After, AllRight, Quiet, Pieces, PiecesOf, OneLine;
    assert EffectiveStart(h) == h.after.start;
  }

  lemma HunkFits(h: Hunk, file: string, c: Cursor)
    requires PlainSection(h.section) && OneLine(h.section) && forall l :: l in h.lines ==> Tame(l)
    ensures var units := [Unit(RenderHeader(h), None)] + LineUnits(h.lines, file, h.after.start);
      && (AllRight(units, c) <==> Readable(h, c.file == Some(file)))
      && (Readable(h, c.file == Some(file)) ==> After(PiecesOf(units), c).file == c.file)
  {
    var header, lines := [Unit(RenderHeader(h), None)], LineUnits(h.lines, file, h.after.start);
    HeaderRight(h, c);
    AllRightConcat(header, lines, c);
    LinesFit(h.lines, file, c.(line := h.after.start), h.after.start);
    FitsIff(h.lines, c.file == Some(file));
    hide RenderHeader, After, AllRight, PiecesOf, LineUnits, Tame, Fits, PlainSection, OneLine;
    if Readable(h, c.file == Some(file)) {
      assert forall l :: l in h.lines ==> Clean(l);
      LinesKeepFile(h.lines, file, h.after.start, c.(line := h.after.start));
    }
  }

  lemma {:induction false} HunksFit(hunks: seq<Hunk>, file: string, c: Cursor)
    requires forall h :: h in hunks ==> PlainSection(h.section) && OneLine(h.section) && forall l :: l in h.lines ==> Tame(l)
    ensures AllRight(HunkUnits(hunks, file), c) <==> forall h :: h in hunks ==> Readable(h, c.file == Some(file))
    ensures AllRight(HunkUnits(hunks, file), c) ==> After(PiecesOf(HunkUnits(hunks, file)), c).file == c.file
  {
    hide PlainSection, OneLine, Tame, Readable, After, PiecesOf, LineUnits;
    if hunks == [] {
      NoUnits();
      NothingScanned(c);
    } else {
      var front, h := hunks[..|hunks| - 1], hunks[|hunks| - 1];
      var units := [Unit(RenderHeader(h), None)] + LineUnits(h.lines, file, h.after.start);
      assert hunks == front + [h];
      HunksFit(front, file, c);
      AllRightConcat(HunkUnits(front, file), units, c);
      hide AllRight;
      if AllRight(HunkUnits(front, file), c) {
        HunkFits(h, file, After(PiecesOf(HunkUnits(front, file)), c));
      }
      assert forall g :: g in hunks <==> g in front || g == h;
    }
  }

  lemma {:induction false} OthersRight(lines: seq<string>, c: Cursor)
    requires (forall l :: l in lines ==> OneLine(l)) && Scan(lines, c) == []
    ensures AllRight(Others(lines), c) && PiecesOf(Others(lines)) == lines
  {
    OthersAdd(lines);
    AllPiecesOfOneLines(lines);
    DiffOthers(lines);
    UnitsReadIff(Others(lines), c);
  }

  lemma DiffOthers(lines: seq<string>)
    ensures forall u :: u in Others(lines) ==> Fitting(u)
  {
  }

  lemma FileFits(f: FileDiff, c: Cursor)
    requires Plain(f)
    ensures AllRight(FileUnits(f), c) <==> forall h :: h in f.hunks ==> Readable(h, Named(f))
  {
    NameReadIff(f);
    FileHeaderRead(f, c);
    OthersRight(HeadLines(f), c);
    AllRightConcat(Others(HeadLines(f)), HunkUnits(f.hunks, PathOf(f.target)), c);
    HunksFit(f.hunks, PathOf(f.target), After(HeadLines(f), c));
    hide AllRight, After, Scan, PiecesOf, Readable, Tame, OneLine, PlainSection, PathOf, HunkUnits, Others, Strip;
  }

  lemma {:induction false} DiffFits(files: seq<FileDiff>, c: Cursor)
    requires forall f :: f in files ==> Plain(f)
    ensures AllRight(DiffUnits(files), c) <==> forall f, h :: f in files && h in f.hunks ==> Readable(h, Named(f))
  {
    hide Plain, Readable, After, PiecesOf, FileUnits;
    if files != [] {
      var front, f := files[..|files| - 1], files[|files| - 1];
      assert files == front + [f];
      DiffFits(front, c);
      AllRightConcat(DiffUnits(front), FileUnits(f), c);
      FileFits(f, After(PiecesOf(DiffUnits(front)), c));
      hide AllRight;
      assert forall g :: g in files <==> g in front || g == f;
    }
  }

  /** With plain headings and no remnant that looks like a header, a diff is read correctly from its text exactly when no added
      text begins with "++ " or holds a line break, no line is added after a "\ No newline" marker or after a counted remnant
      of the same hunk or in a file whose name has white space around it, and no remnant looks like an added line. */
  lemma PlainTextReadIff(files: seq<FileDiff>)
    requires forall f :: f in files ==> Plain(f)
    ensures ScanText(RenderText(files)) == AddedInDiff(files) <==> forall f, h :: f in files && h in f.hunks ==> Readable(h, Named(f))
  {
    hide Plain, Readable, ScanText, RenderText, AllRight;
    TextRead(files);
    DiffFits(files, START);
  }

  // ---- Diffs one after another ---------------------------------------------------------------------------------------------------------------

  /** The head of a file diff is as the format allows, and holds no line break. */
  predicate PlainHead(f: FileDiff) {
    WellFormed(f) && forall l :: l in HeadLines(f) ==> OneLine(l)
  }

  /** Any header line sets the counter, also when its section heading holds a line break. */
  lemma HeaderSetsCounter(h: Hunk) returns (start: nat, rest: seq<string>)
    ensures Pieces(RenderHeader(h)) == [RenderHeader(h)[..LineEnd(RenderHeader(h))]] + rest
    ensures forall c :: After([RenderHeader(h)[..LineEnd(RenderHeader(h))]], c) == c.(line := start)
                     && Scan([RenderHeader(h)[..LineEnd(RenderHeader(h))]], c) == []
  {
    var g := h.(section := h.section[..LineEnd(h.section)]);
    CutHeader(h);
    FirstPiece(RenderHeader(h));
    start, rest := EffectiveStart(g), Pieces(RenderHeader(h))[1..];
    forall c ensures After([RenderHeader(g)], c) == c.(line := start) && Scan([RenderHeader(g)], c) == [] {
      HeaderIsRead(g, c);
    }
    hide RenderHeader, After, Scan, Pieces;
  }

  lemma {:induction false} EndAfterOneLine(a: string, b: string)
    requires OneLine(a)
    ensures LineEnd(a + b) == |a| + LineEnd(b)
  {
    if a == "" {
      assert a + b == b;
    } else {
      assert (a + b)[0] == a[0] && (a + b)[1..] == a[1..] + b;
      EndAfterOneLine(a[1..], b);
    }
  }

  lemma CutHeader(h: Hunk)
    ensures RenderHeader(h)[..LineEnd(RenderHeader(h))] == RenderHeader(h.(section := h.section[..LineEnd(h.section)]))
  {
    var bare := h.(section := "");
    assert OneLine("");
    HeaderIsOneLine(bare);
    assert RenderHeader(h) == RenderHeader(bare) + h.section;
    EndAfterOneLine(RenderHeader(bare), h.section);
    assert (RenderHeader(bare) + h.section)[..|RenderHeader(bare)| + LineEnd(h.section)]
        == RenderHeader(bare) + h.section[..LineEnd(h.section)];
  }

  /** From its header on, a hunk is scanned alike from any cursor on the same file. */
  lemma HunkIndependent(h: Hunk, c: Cursor, d: Cursor)
    requires c.file == d.file
    ensures var pieces := AllPieces([RenderHeader(h)] + RenderLines(h.lines));
      Scan(pieces, c) == Scan(pieces, d) && After(pieces, c).file == After(pieces, d).file
  {
    var start, rest := HeaderSetsCounter(h);
    AllPiecesConcat([RenderHeader(h)], RenderLines(h.lines));
    AllPiecesOfOne(RenderHeader(h));
    hide RenderHeader, RenderLines, AllPieces, Pieces, After, Scan, LineEnd;
    var head := [RenderHeader(h)[..LineEnd(RenderHeader(h))]];
    var tail := rest + AllPieces(RenderLines(h.lines));
    assert AllPieces([RenderHeader(h)] + RenderLines(h.lines)) == head + tail;
    ScanConcat(head, tail, c);
    ScanConcat(head, tail, d);
    assert After(head, c) == After(head, d);
  }

  lemma {:induction false} HunkPiecesIndependent(hunks: seq<Hunk>, c: Cursor, d: Cursor)
    requires c.file == d.file
    ensures var pieces := AllPieces(RenderHunks(hunks));
      Scan(pieces, c) == Scan(pieces, d) && After(pieces, c).file == After(pieces, d).file
  {
    hide RenderHeader, RenderLines;
    if hunks == [] {
      NothingScanned(c);
      NothingScanned(d);
    } else {
      hide After, Scan, AllPieces;
      var front, h := RenderHunks(hunks[..|hunks| - 1]), hunks[|hunks| - 1];
      var lines := [RenderHeader(h)] + RenderLines(h.lines);
      assert RenderHunks(hunks) == front + lines;
      HunkPiecesIndependent(hunks[..|hunks| - 1], c, d);
      AllPiecesConcat(front, lines);
      ScanConcat(AllPieces(front), AllPieces(lines), c);
      ScanConcat(AllPieces(front), AllPieces(lines), d);
      HunkIndependent(h, After(AllPieces(front), c), After(AllPieces(front), d));
    }
  }

  lemma FilePiecesIndependent(f: FileDiff, c: Cursor)
    requires PlainHead(f)
    ensures Scan(AllPieces(RenderFile(f)), c) == Scan(AllPieces(RenderFile(f)), START)
  {
    var head := HeadLines(f);
    FileHeaderRead(f, c);
    FileHeaderRead(f, START);
    AllPiecesOfOneLines(head);
    AllPiecesConcat(head, RenderHunks(f.hunks));
    hide Scan, After, AllPieces, RenderHunks, OneLine, WellFormed;
    ScanConcat(head, AllPieces(RenderHunks(f.hunks)), c);
    ScanConcat(head, AllPieces(RenderHunks(f.hunks)), START);
    HunkPiecesIndependent(f.hunks, After(head, c), After(head, START));
  }

  lemma DiffPiecesStep(files: seq<FileDiff>)
    requires files != []
    ensures AllPieces(RenderDiff(files)) == AllPieces(RenderDiff(files[..|files| - 1])) + AllPieces(RenderFile(files[|files| - 1]))
  {
    AllPiecesConcat(RenderDiff(files[..|files| - 1]), RenderFile(files[|files| - 1]));
  }

  lemma {:induction false} PiecesOfDiffs(a: seq<FileDiff>, b: seq<FileDiff>)
    requires forall f :: f in b ==> PlainHead(f)
    ensures Scan(AllPieces(RenderDiff(a + b)), START) == Scan(AllPieces(RenderDiff(a)), START) + Scan(AllPieces(RenderDiff(b)), START)
  {
    hide Scan, After, RenderFile, AllPieces, PlainHead;
    if b == [] {
      assert a + b == a;
      NothingRead();
      assert Scan(AllPieces(RenderDiff(a)), START) + [] == Scan(AllPieces(RenderDiff(a)), START);
    } else {
      var front, last := b[..|b| - 1], b[|b| - 1];
      assert (a + b)[..|a + b| - 1] == a + front && (a + b)[|a + b| - 1] == last;
      assert last in b && forall f :: f in front ==> f in b;
      PiecesOfDiffs(a, front);
      DiffPiecesStep(a + b);
      DiffPiecesStep(b);
      ScanConcat(AllPieces(RenderDiff(a + front)), AllPieces(RenderFile(last)), START);
      ScanConcat(AllPieces(RenderDiff(front)), AllPieces(RenderFile(last)), START);
      FilePiecesIndependent(last, After(AllPieces(RenderDiff(a + front)), START));
      FilePiecesIndependent(last, After(AllPieces(RenderDiff(front)), START));
    }
  }

  lemma NothingRead()
    ensures Scan(AllPieces(RenderDiff([])), START) == []
  {
    NothingScanned(START);
  }

  /** The scan of the text of file diffs one after another is the concatenation of their scans, whatever their hunks hold. */
  lemma TextScanConcat(a: seq<FileDiff>, b: seq<FileDiff>)
    requires forall f :: f in b ==> PlainHead(f)
    ensures ScanText(RenderText(a + b)) == ScanText(RenderText(a)) + ScanText(RenderText(b))
  {
    SplitOfJoin(RenderDiff(a));
    SplitOfJoin(RenderDiff(b));
    SplitOfJoin(RenderDiff(a + b));
    hide SplitLines, AllPieces, JoinLines, RenderDiff, PlainHead, Scan;
    PiecesOfDiffs(a, b);
  }

  /** The static scan of concatenated file diffs is the concatenation of their scans. */
  lemma StaticScanConcat(a: seq<FileDiff>, b: seq<FileDiff>, rules: seq<Rule>)
    requires forall f :: f in b ==> PlainHead(f)
    ensures FindingsFor(ScanText(RenderText(a + b)), rules)
         == FindingsFor(ScanText(RenderText(a)), rules) + FindingsFor(ScanText(RenderText(b)), rules)
  {
    hide ScanText, RenderText, PlainHead;
    TextScanConcat(a, b);
    FindingsConcat(ScanText(RenderText(a)), ScanText(RenderText(b)), rules);
  }

  // ---- The gate over the text of a diff ------------------------------------------------------------------------------------------------------

  predicate GateBlocks(files: seq<FileDiff>, rules: seq<Rule>, threshold: string) {
    Blocked(FindingsFor(ScanText(RenderText(files)), rules), threshold)
  }

  /** Some added line matches some rule of at least the threshold's severity. */
  ghost predicate AddsAFinding(files: seq<FileDiff>, rules: seq<Rule>, threshold: string) {
    exists i, r :: i in AddedInDiff(files) && r in rules && r.matches(i.text) && SeverityAtLeast(r.severity, threshold)
  }

  lemma BlockedIffMatch(items: seq<Item>, rules: seq<Rule>, threshold: string)
    ensures Blocked(FindingsFor(items, rules), threshold) <==>
      exists i, r :: i in items && r in rules && r.matches(i.text) && SeverityAtLeast(r.severity, threshold)
  {
    var findings := FindingsFor(items, rules);
    hide FindingsFor, Blocked, SeverityAtLeast;
    BlockedIffSome(findings, threshold);
    if f :| f in findings && SeverityAtLeast(f.severity, threshold) {
      FindingsMembers(items, rules, f);
    }
    if i, r :| i in items && r in rules && r.matches(i.text) && SeverityAtLeast(r.severity, threshold) {
      FindingsMembers(items, rules, FindingOf(r, i));
    }
  }

  // ---- Lines closed by a carriage return -------------------------------------------------------------------------------------

  function ChopLine(l: HunkLine): HunkLine {
    match l
    case Context(t) => Context(Chop(t))
    case Added(t) => Added(Chop(t))
    case Removed(t) => Removed(Chop(t))
    case NoNewline => NoNewline
  }

  function ChopLines(lines: seq<HunkLine>): (r: seq<HunkLine>)
    ensures |r| == |lines| && forall k :: 0 <= k < |lines| ==> r[k] == ChopLine(lines[k])
  {
    seq(|lines|, k requires 0 <= k < |lines| => ChopLine(lines[k]))
  }

  function ChopHunk(h: Hunk): Hunk {
    h.(section := Chop(h.section), lines := ChopLines(h.lines))
  }

  function ChopHunks(hunks: seq<Hunk>): (r: seq<Hunk>)
    ensures |r| == |hunks| && forall k :: 0 <= k < |hunks| ==> r[k] == ChopHunk(hunks[k])
  {
    seq(|hunks|, k requires 0 <= k < |hunks| => ChopHunk(hunks[k]))
  }

  /** The diff without the carriage returns that close its hunk lines and section headings. */
  function ChopDiff(files: seq<FileDiff>): (r: seq<FileDiff>)
    ensures |r| == |files| && forall k :: 0 <= k < |files| ==> r[k] == files[k].(hunks := ChopHunks(files[k].hunks))
  {
    seq(|files|, k requires 0 <= k < |files| => files[k].(hunks := ChopHunks(files[k].hunks)))
  }

  lemma ChopAfter(a: string, t: string)
    requires a != "" && a[|a| - 1] != '\r'
    ensures Chop(a + t) == a + Chop(t)
  {
    if t != "" {
      assert (a + t)[|a + t| - 1] == t[|t| - 1];
      assert (a + t)[..|a + t| - 1] == a + t[..|t| - 1];
    } else {
      assert a + t == a;
    }
  }

  lemma ChoppedLine(l: HunkLine)
    ensures Pieces(RenderLine(ChopLine(l))) == Pieces(RenderLine(l))
  {
    match l
    case Context(t) => ChopAfter(" ", t); PiecesOfChopped(" " + t);
    case Added(t) => ChopAfter("+", t); PiecesOfChopped("+" + t);
    case Removed(t) => ChopAfter("-", t); PiecesOfChopped("-" + t);
    case NoNewline =>
  }

  lemma ChoppedHeader(h: Hunk)
    ensures Pieces(RenderHeader(ChopHunk(h))) == Pieces(RenderHeader(h))
  {
    var head := "@@ -" + RenderRange(h.before) + " +" + RenderRange(h.after) + " @@";
    assert head[|head| - 1] == '@';
    ChopAfter(head, h.section);
    PiecesOfChopped(RenderHeader(h));
    hide RenderRange, Pieces, Chop;
  }

  lemma ChoppedLines(lines: seq<HunkLine>)
    ensures AllPieces(RenderLines(ChopLines(lines))) == AllPieces(RenderLines(lines))
  {
    var a, b := RenderLines(ChopLines(lines)), RenderLines(lines);
    forall k | 0 <= k < |a| ensures Pieces(a[k]) == Pieces(b[k]) {
      ChoppedLine(lines[k]);
    }
    AllPiecesAlike(a, b);
  }

  lemma {:induction false} ChoppedHunks(hunks: seq<Hunk>)
    ensures AllPieces(RenderHunks(ChopHunks(hunks))) == AllPieces(RenderHunks(hunks))
  {
    hide RenderHeader, RenderLines, AllPieces;
    var chopped := ChopHunks(hunks);
    if hunks == [] {
      assert chopped == [];
    } else {
      var front, h := hunks[..|hunks| - 1], hunks[|hunks| - 1];
      assert chopped[..|hunks| - 1] == ChopHunks(front) && chopped[|hunks| - 1] == ChopHunk(h);
      ChoppedHunks(front);
      HunkPieces(hunks);
      HunkPieces(chopped);
      ChoppedHeader(h);
      ChoppedLines(h.lines);
    }
  }

  lemma HunkPieces(hunks: seq<Hunk>)
    requires hunks != []
    ensures var front, h := hunks[..|hunks| - 1], hunks[|hunks| - 1];
      AllPieces(RenderHunks(hunks)) == AllPieces(RenderHunks(front)) + (Pieces(RenderHeader(h)) + AllPieces(RenderLines(h.lines)))
  {
    var front, h := hunks[..|hunks| - 1], hunks[|hunks| - 1];
    AllPiecesOfOne(RenderHeader(h));
    AllPiecesConcat([RenderHeader(h)], RenderLines(h.lines));
    AllPiecesConcat(RenderHunks(front), [RenderHeader(h)] + RenderLines(h.lines));
    hide AllPieces, Pieces, RenderHeader, RenderLines;
    assert RenderHunks(hunks) == RenderHunks(front) + ([RenderHeader(h)] + RenderLines(h.lines));
  }

  lemma {:induction false} ChoppedDiff(files: seq<FileDiff>)
    ensures AllPieces(RenderDiff(ChopDiff(files))) == AllPieces(RenderDiff(files))
  {
    var chopped := ChopDiff(files);
    if files == [] {
      assert chopped == [];
    } else {
      var front, f := files[..|files| - 1], files[|files| - 1];
      var g := f.(hunks := ChopHunks(f.hunks));
      assert chopped[..|files| - 1] == ChopDiff(front) && chopped[|files| - 1] == g;
      assert HeadLines(g) == HeadLines(f);
      ChoppedDiff(front);
      ChoppedHunks(f.hunks);
      AllPiecesConcat(HeadLines(f), RenderHunks(f.hunks));
      AllPiecesConcat(HeadLines(g), RenderHunks(g.hunks));
      hide AllPieces, HeadLines, RenderHunks;
      DiffPiecesStep(files);
      DiffPiecesStep(chopped);
    }
  }

  /** The scanner sees no difference: it drops a carriage return that closes a line. */
  lemma ScanIsOfChopped(files: seq<FileDiff>)
    ensures ScanText(RenderText(files)) == ScanText(RenderText(ChopDiff(files)))
  {
    SplitOfJoin(RenderDiff(files));
    SplitOfJoin(RenderDiff(ChopDiff(files)));
    ChoppedDiff(files);
    hide SplitLines, AllPieces, JoinLines, RenderDiff;
  }

  /** So, up to such carriage returns, the text of any diff is read correctly if and only if the walk over its lines without
      them is right. */
  lemma ChoppedTextRead(files: seq<FileDiff>)
    ensures ScanText(RenderText(files)) == AddedInDiff(ChopDiff(files)) <==> AllRight(DiffUnits(ChopDiff(files)), START)
  {
    ScanIsOfChopped(files);
    TextRead(ChopDiff(files));
  }

  /** For a diff that, up to carriage returns that close its lines, is read as it is meant, the gate blocks if and only if some
      added line, without that carriage return, matches some rule of at least the threshold's severity. */
  lemma GateBlocksIff(files: seq<FileDiff>, rules: seq<Rule>, threshold: string)
    requires AllRight(DiffUnits(ChopDiff(files)), START)
    ensures GateBlocks(files, rules, threshold) <==> AddsAFinding(ChopDiff(files), rules, threshold)
  {
    ChoppedTextRead(files);
    BlockedIffMatch(ScanText(RenderText(files)), rules, threshold);
    hide AllRight, DiffUnits, ScanText, RenderText, AddedInDiff, Blocked, FindingsFor, ChopDiff;
  }

  /** At the default threshold: if and only if some added line matches a rule of severity "high" or "critical". */
  lemma GateAtHighIff(files: seq<FileDiff>, rules: seq<Rule>)
    requires AllRight(DiffUnits(ChopDiff(files)), START)
    ensures GateBlocks(files, rules, "high") <==>
      exists i, r :: i in AddedInDiff(ChopDiff(files)) && r in rules && r.matches(i.text) && (r.severity == "high" || r.severity == "critical")
  {
    GateBlocksIff(files, rules, "high");
    forall r | r in rules ensures SeverityAtLeast(r.severity, "high") <==> r.severity == "high" || r.severity == "critical" {
      HighOrAbove(r.severity);
    }
    hide AllRight, DiffUnits, GateBlocks, AddedInDiff, ChopDiff, SeverityAtLeast;
  }

  lemma HighOrAbove(severity: string)
    ensures SeverityAtLeast(severity, "high") <==> severity == "high" || severity == "critical"
  {
    var names := ["info", "low", "medium", "high", "critical"];
    SeverityOrder(names, severity, "high");
    hide SeverityAtLeast;
    assert names[3] == "high" && names[4] == "critical";
    if severity in names {
      var i :| 0 <= i < 5 && names[i] == severity;
      assert SeverityAtLeast(names[i], names[3]) <==> i >= 3;
      assert i < 3 ==> names[i] == "info" || names[i] == "low" || names[i] == "medium";
    }
  }

  /** And what it reports then: each match of a rule with an added line, under the rule's severity and category, the file and
      number of the line, and the beginning of its text. */
  lemma ReportedAre(files: seq<FileDiff>, rules: seq<Rule>, f: Finding)
    requires AllRight(DiffUnits(ChopDiff(files)), START)
    ensures f in FindingsFor(ScanText(RenderText(files)), rules) <==> exists i, r ::
      && i in AddedInDiff(ChopDiff(files)) && r in rules && r.matches(i.text)
      && f.severity == r.severity && f.category == r.category && f.file == i.file && f.line == i.line
      && f.detail <= Strip(i.text) && |f.detail| == if |Strip(i.text)| < 200 then |Strip(i.text)| else 200
  {
    ChoppedTextRead(files);
    FindingsAre(ScanText(RenderText(files)), rules, f);
    hide AllRight, DiffUnits, ScanText, RenderText, AddedInDiff, FindingsFor, ChopDiff, Strip;
  }

  // ---- A form feed in an added line --------------------------------------------------------------------------------------------------------------

  /** One file with one added line. */
  function OneAdded(name: string, text: string): FileDiff {
    FileDiff([], name, name, false, [Hunk(Range(0, Some(0)), Range(1, None), "", [Added(text)])])
  }

  lemma FormFeedPieces(a: string, b: string)
    requires OneLine(a) && OneLine(b)
    ensures Pieces("+" + (a + ("\U{000C}" + b))) == ["+" + a, b]
  {
    var tail := "\U{000C}" + (b + "\n");
    OneLineConcat("+", a);
    assert ("+" + (a + ("\U{000C}" + b))) + "\n" == ("+" + a) + tail;
    assert tail[0] == '\U{000C}' && tail[1..] == b + "\n";
    SplitAtBreak("+" + a, tail, 1);
    PiecesOfOneLine(b);
    hide SplitLines;
  }

  lemma PrefixBeforeBreak(p: string, a: string, t: string)
    requires p <= a + t && t != "" && IsBreak(t[0])
    ensures p <= a || !OneLine(p)
  {
    if |p| > |a| {
      assert p[|a|] == (a + t)[|a|] == t[0];
    } else {
      assert p == (a + t)[..|p|] == a[..|p|];
    }
  }

  lemma OneHunk(h: Hunk, f: FileDiff)
    requires f.hunks == [h]
    ensures RenderDiff([f]) == HeadLines(f) + ([RenderHeader(h)] + RenderLines(h.lines))
    ensures AddedInDiff([f]) == AddedIn(h.lines, PathOf(f.target), h.after.start)
  {
    assert [h][..0] == [] && [f][..0] == [];
    hide RenderHeader, RenderLines, AddedIn, PathOf;
    assert RenderHunks([h]) == [] + [RenderHeader(h)] + RenderLines(h.lines);
    assert AddedInHunks([h], PathOf(f.target)) == [] + AddedIn(h.lines, PathOf(f.target), h.after.start);
    assert RenderFile(f) == HeadLines(f) + RenderHunks([h]);
  }

  lemma OneLineAdded(text: string, file: string)
    ensures AddedIn([Added(text)], file, 1) == [Item(Some(file), 1, text)] && RenderLines([Added(text)]) == ["+" + text]
  {
    assert AddedIn([Added(text)], file, 1) == [Item(Some(file), 1, text)] + AddedIn([], file, 2);
  }

  lemma OneAddedIsLegible(name: string, text: string)
    requires Stripped(name) && !("++ " <= text)
    ensures WellFormed(OneAdded(name, text)) && AllLegible([OneAdded(name, text)])
  {
    var h := OneAdded(name, text).hunks[0];
    assert h.lines[1..] == [] && forall j :: 0 <= j < 1 ==> Markers(h.lines[..j]) == 0;
    assert LastMatch("").None? && HeaderLike(h.lines) == 0;
    assert Legible(h);
    hide Legible;
  }

  lemma OneAddedHead(name: string, text: string)
    requires OneLine(name)
    ensures forall l :: l in HeadLines(OneAdded(name, text)) ==> OneLine(l)
  {
    OneLineConcat("--- ", name);
    OneLineConcat("+++ ", name);
    var f := OneAdded(name, text);
    assert name + "" == name;
    assert HeadLines(f) == ["--- " + name, "+++ " + name];
  }

  lemma LastTwo(a: string, b: string, c: Cursor)
    requires b != "" && IsAlnum(b[0]) && !("++ " <= a)
    ensures Scan(["+" + a, b], c) == [Item(c.file, c.line, a)]
  {
    RenderedLineLooks(Added(a));
    LineRead(Added(a), c);
    assert ["+" + a] + [b] == ["+" + a, b];
    ScanConcat(["+" + a], [b], c);
    ScanOne(b, After(["+" + a], c));
    FirstChar(b);
    hide Scan, After;
  }

  /** The pieces of a file diff with one hunk, whose header sets the counter. */
  lemma OneHunkScan(f: FileDiff, h: Hunk, pieces: seq<string>)
    requires f.hunks == [h] && WellFormed(f) && Named(f) && (forall l :: l in HeadLines(f) ==> OneLine(l))
    requires PlainSection(h.section) && OneLine(h.section) && pieces == AllPieces(RenderLines(h.lines))
    ensures ScanText(RenderText([f])) == Scan(pieces, Cursor(Some(PathOf(f.target)), h.after.start))
  {
    SplitOfJoin(RenderDiff([f]));
    OneHunk(h, f);
    AllPiecesConcat(HeadLines(f), [RenderHeader(h)] + RenderLines(h.lines));
    AllPiecesConcat([RenderHeader(h)], RenderLines(h.lines));
    AllPiecesOfOneLines(HeadLines(f));
    AllPiecesOfOne(RenderHeader(h));
    HeaderIsOneLine(h);
    PiecesOfOneLine(RenderHeader(h));
    FileHeaderRead(f, START);
    NameReadIff(f);
    var c := After(HeadLines(f), START);
    HeaderIsRead(h, c);
    assert EffectiveStart(h) == h.after.start;
    hide Scan, After, AllPieces, Pieces, RenderHeader, RenderLines, HeadLines, SplitLines, JoinLines, RenderDiff, OneLine, PlainSection, PathOf;
    ScanConcat(HeadLines(f), [RenderHeader(h)] + pieces, START);
    ScanConcat([RenderHeader(h)], pieces, c);
  }

  lemma FormFeedScan(name: string, a: string, b: string)
    requires Stripped(name) && OneLine(name)
    requires OneLine(a) && OneLine(b) && b != "" && IsAlnum(b[0]) && !("++ " <= a)
    ensures ScanText(RenderText([OneAdded(name, a + ("\U{000C}" + b))])) == [Item(Some(PathOf(name)), 1, a)]
  {
    var text := a + ("\U{000C}" + b);
    var f := OneAdded(name, text);
    OneLineAdded(text, PathOf(name));
    AllPiecesOfOne("+" + text);
    FormFeedPieces(a, b);
    OneAddedHead(name, text);
    LastTwo(a, b, Cursor(Some(PathOf(name)), 1));
    assert PlainSection("") && OneLine("");
    hide Scan, ScanText, RenderText, AllPieces, Pieces, RenderLines, HeadLines, OneLine, PlainSection, PathOf;
    OneHunkScan(f, f.hunks[0], ["+" + a, b]);
  }

  /** What stands before the form feed is read, what stands after it is not: the gate lets a finding through that the diff adds,
      although every hunk of the diff is legible. */
  lemma FormFeedHidesAFinding(name: string, a: string, b: string, r: Rule, threshold: string)
    requires Stripped(name) && OneLine(name)
    requires OneLine(a) && OneLine(b) && b != "" && IsAlnum(b[0]) && !("++ " <= a)
    requires r.matches(a + ("\U{000C}" + b)) && !r.matches(a) && SeverityAtLeast(r.severity, threshold)
    ensures var files := [OneAdded(name, a + ("\U{000C}" + b))];
      && WellFormed(files[0]) && AllLegible(files)
      && ScanText(RenderText(files)) == [Item(Some(PathOf(name)), 1, a)]
      && AddsAFinding(files, [r], threshold) && !GateBlocks(files, [r], threshold)
  {
    var text := a + ("\U{000C}" + b);
    var f := OneAdded(name, text);
    if "++ " <= text {
      PrefixBeforeBreak("++ ", a, "\U{000C}" + b);
    }
    OneAddedIsLegible(name, text);
    OneHunk(f.hunks[0], f);
    OneLineAdded(text, PathOf(name));
    FormFeedScan(name, a, b);
    BlockedIffMatch([Item(Some(PathOf(name)), 1, a)], [r], threshold);
    hide ScanText, RenderText, Blocked, FindingsFor, SeverityAtLeast, AllLegible, WellFormed, RenderDiff, AddedIn, PathOf;
    assert Item(Some(PathOf(name)), 1, text) in AddedInDiff([f]);
  }
}
