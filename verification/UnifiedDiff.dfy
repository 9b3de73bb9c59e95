/** Unified diffs as structured values, and their rendering as lines of text. */
module UnifiedDiff {
  import opened Basics
  import opened Text

  datatype HunkLine = Context(text: string) | Added(text: string) | Removed(text: string) | NoNewline

  /** A range of a hunk header; the count is printed unless it is left out. */
  datatype Range = Range(start: nat, count: Option<nat>)

  datatype Hunk = Hunk(before: Range, after: Range, section: string, lines: seq<HunkLine>)

  /** `preamble` holds the "diff --git", "index", mode and similar lines; `target` is the name that follows "+++ ", and `tab`
      says that it is closed by a tab, as git closes a name with a space in it. */
  datatype FileDiff = FileDiff(preamble: seq<string>, source: string, target: string, tab: bool, hunks: seq<Hunk>)

  function RenderLine(l: HunkLine): string {
    match l
    case Context(t) => " " + t
    case Added(t) => "+" + t
    case Removed(t) => "-" + t
    case NoNewline => "\\ No newline at end of file"
  }

  function RenderRange(r: Range): (s: string)
    ensures s != "" && '+' !in s
  {
    match r.count
    case None => Decimal(r.start)
    case Some(n) => Decimal(r.start) + "," + Decimal(n)
  }

  function RenderHeader(h: Hunk): string {
    "@@ -" + RenderRange(h.before) + " +" + RenderRange(h.after) + " @@" + h.section
  }

  function RenderLines(lines: seq<HunkLine>): (r: seq<string>)
    ensures |r| == |lines| && forall k :: 0 <= k < |lines| ==> r[k] == RenderLine(lines[k])
  {
    seq(|lines|, k requires 0 <= k < |lines| => RenderLine(lines[k]))
  }

  function RenderHunks(hunks: seq<Hunk>): seq<string> {
    if hunks == [] then []
    else RenderHunks(hunks[..|hunks| - 1]) + [RenderHeader(hunks[|hunks| - 1])] + RenderLines(hunks[|hunks| - 1].lines)
  }

  /** What stands before the hunks of a file. */
  function HeadLines(f: FileDiff): seq<string> {
    f.preamble + ["--- " + f.source, "+++ " + ClosedTarget(f)]
  }

  function ClosedTarget(f: FileDiff): string {
    f.target + if f.tab then "\t" else ""
  }

  function RenderFile(f: FileDiff): seq<string> {
    HeadLines(f) + RenderHunks(f.hunks)
  }

  function RenderDiff(files: seq<FileDiff>): seq<string> {
    if files == [] then [] else RenderDiff(files[..|files| - 1]) + RenderFile(files[|files| - 1])
  }

  // ---- What the diff says was added -------------------------------------------------------------------------------------

  datatype Item = Item(file: Option<string>, line: nat, text: string)

  /** The path after "+++ ", without the "b/" prefix. */
  function PathOf(target: string): string {
    if "b/" <= target then target[2..] else target
  }

  /** The added lines of a hunk with their line numbers in the new file, `next` being the number of the next line. */
  function AddedIn(lines: seq<HunkLine>, file: string, next: nat): (r: seq<Item>) {
    if lines == [] then []
    else match lines[0]
      case Context(_) => AddedIn(lines[1..], file, next + 1)
      case Added(t) => [Item(Some(file), next, t)] + AddedIn(lines[1..], file, next + 1)
      case Removed(_) => AddedIn(lines[1..], file, next)
      case NoNewline => AddedIn(lines[1..], file, next)
  }

  /** Printed as git prints it, a path is found again. */
  lemma PathIsRead(path: string)
    ensures PathOf("b/" + path) == path
    ensures !("b/" <= path) ==> PathOf(path) == path
  {
  }

  /** The lines of the new file that a hunk shows. */
  function NewSide(lines: seq<HunkLine>): seq<string> {
    if lines == [] then []
    else match lines[0]
      case Context(t) => [t] + NewSide(lines[1..])
      case Added(t) => [t] + NewSide(lines[1..])
      case Removed(_) => NewSide(lines[1..])
      case NoNewline => NewSide(lines[1..])
  }

  /** The lines a hunk adds, in order. */
  function AddedTexts(lines: seq<HunkLine>): seq<string> {
    if lines == [] then [] else (if lines[0].Added? then [lines[0].text] else []) + AddedTexts(lines[1..])
  }

  /** Items with these texts, in order, each at the place of a side numbered from `next` where its text stands. */
  ghost predicate InPlace(items: seq<Item>, texts: seq<string>, side: seq<string>, file: string, next: nat) {
    && |items| == |texts|
    && (forall k :: 0 <= k < |items| ==>
          && items[k].file == Some(file) && items[k].text == texts[k]
          && next <= items[k].line < next + |side| && side[items[k].line - next] == items[k].text)
    && (forall k :: 0 < k < |items| ==> items[k - 1].line < items[k].line)
  }

  lemma PassedInPlace(items: seq<Item>, texts: seq<string>, side: seq<string>, file: string, next: nat, t: string)
    requires InPlace(items, texts, side, file, next + 1)
    ensures InPlace(items, texts, [t] + side, file, next)
  {
  }

  lemma PlacedInPlace(items: seq<Item>, texts: seq<string>, side: seq<string>, file: string, next: nat, t: string)
    requires InPlace(items, texts, side, file, next + 1)
    ensures InPlace([Item(Some(file), next, t)] + items, [t] + texts, [t] + side, file, next)
  {
    var all := [Item(Some(file), next, t)] + items;
    PassedInPlace(items, texts, side, file, next, t);
    assert all[0] == Item(Some(file), next, t) && forall k :: 0 < k < |all| ==> all[k] == items[k - 1];
  }

  lemma {:induction false} AddedPlaced(lines: seq<HunkLine>, file: string, next: nat)
    ensures InPlace(AddedIn(lines, file, next), AddedTexts(lines), NewSide(lines), file, next)
  {
    if lines != [] {
      var rest := lines[1..];
      hide InPlace;
      match lines[0]
      case Context(t) =>
        AddedPlaced(rest, file, next + 1);
        PassedInPlace(AddedIn(rest, file, next + 1), AddedTexts(rest), NewSide(rest), file, next, t);
        assert [] + AddedTexts(rest) == AddedTexts(rest);
      case Added(t) =>
        AddedPlaced(rest, file, next + 1);
        PlacedInPlace(AddedIn(rest, file, next + 1), AddedTexts(rest), NewSide(rest), file, next, t);
      case Removed(_) =>
        AddedPlaced(rest, file, next);
        assert [] + AddedTexts(rest) == AddedTexts(rest);
      case NoNewline =>
        AddedPlaced(rest, file, next);
        assert [] + AddedTexts(rest) == AddedTexts(rest);
    }
  }

  /** The added lines are those the hunk marks so, in order, under the file's name, each at the place in the new file where
      its text stands. */
  lemma AddedAreInPlace(lines: seq<HunkLine>, file: string, next: nat)
    ensures var items := AddedIn(lines, file, next);
      && |items| == |AddedTexts(lines)|
      && (forall k :: 0 <= k < |items| ==>
            && items[k].file == Some(file) && items[k].text == AddedTexts(lines)[k]
            && next <= items[k].line < next + |NewSide(lines)| && NewSide(lines)[items[k].line - next] == items[k].text)
      && (forall k :: 0 < k < |items| ==> items[k - 1].line < items[k].line)
  {
    AddedPlaced(lines, file, next);
    hide AddedIn, AddedTexts, NewSide;
  }

  function AddedInHunks(hunks: seq<Hunk>, file: string): seq<Item> {
    if hunks == [] then []
    else AddedInHunks(hunks[..|hunks| - 1], file) + AddedIn(hunks[|hunks| - 1].lines, file, hunks[|hunks| - 1].after.start)
  }

  function AddedInDiff(files: seq<FileDiff>): seq<Item> {
    if files == [] then []
    else AddedInDiff(files[..|files| - 1]) + AddedInHunks(files[|files| - 1].hunks, PathOf(files[|files| - 1].target))
  }
}
