/** The per-code quality ratchet (cq_ratchet.py). */
module Ratchet {
  import opened Text
  import opened LineBreaks

  type Path = string
  type Code = string

  /** Violations per rule code; a code that is absent counts zero. */
  type Counter = map<Code, nat>

  function Count(c: Counter, code: Code): nat {
    if code in c then c[code] else 0
  }

  function RegressedCodes(before: Counter, after: Counter): set<Code> {
    set code | code in after && after[code] > Count(before, code)
  }

  lemma NothingRegressedIff(before: Counter, after: Counter)
    ensures RegressedCodes(before, after) == {} <==> forall code :: Count(after, code) <= Count(before, code)
  {
    if RegressedCodes(before, after) == {} {
      forall code ensures Count(after, code) <= Count(before, code) {
        assert code !in RegressedCodes(before, after);
      }
    }
    if code :| code in RegressedCodes(before, after) {
      assert Count(after, code) > Count(before, code);
    }
  }

  // ---- Trees and diffs -------------------------------------------------------------------------------------------------

  /** Repository path to file content. */
  type Tree = map<Path, string>

  /** What the linter finds in a content judged as though it stood at a path. */
  type Linter = (string, Path) -> Counter

  /** A diff between two trees: the renames git reports (new path to old), the changed paths it lists, and the files that
      are checked. */
  datatype Diff = Diff(base: Tree, head: Tree, renames: map<Path, Path>, changed: seq<Path>, files: seq<Path>)
  {
    /** Where the base side of a head path is read. */
    function Source(p: Path): Path {
      if p in renames then renames[p] else p
    }
  }

  // ---- The changed files ---------------------------------------------------------------------------------------------------

  /** The words that name a file of the tree in scope. */
  function Keep(words: seq<string>, head: Tree, scope: set<Path>): seq<Path> {
    if words == [] then []
    else
      var w := words[|words| - 1];
      Keep(words[..|words| - 1], head, scope) + if w in head && w in scope then [w] else []
  }

  /** `out.split()`, filtered; `scope` holds the Python files that are asked for and not excluded. */
  method ChangedPythonFiles(out: string, head: Tree, scope: set<Path>) returns (files: seq<Path>)
    ensures files == Keep(Words(out), head, scope)
  {
    var words := Words(out);
    files := [];
    hide Words;
    for i := 0 to |words|
      invariant files == Keep(words[..i], head, scope)
    {
      assert words[..i + 1][..i] == words[..i];
      if words[i] in head && words[i] in scope {
        files := files + [words[i]];
      }
    }
    assert words[..|words|] == words;
  }

  /** The files that are checked when git prints the changed paths one on a line. */
  function Listed(changed: seq<Path>, head: Tree, scope: set<Path>): seq<Path> {
    Keep(Words(JoinLines(changed)), head, scope)
  }

  lemma {:induction false} KeptIff(words: seq<string>, head: Tree, scope: set<Path>, p: Path)
    ensures p in Keep(words, head, scope) <==> p in words && p in head && p in scope
  {
    if words != [] {
      KeptIff(words[..|words| - 1], head, scope, p);
      assert words == words[..|words| - 1] + [words[|words| - 1]];
    }
  }

  lemma {:induction false} WordIffListed(changed: seq<Path>, p: Path)
    requires p in changed
    ensures p in Words(JoinLines(changed)) <==> IsWordText(p)
  {
    var front, last := changed[..|changed| - 1], changed[|changed| - 1];
    WordsAreWords(JoinLines(changed));
    if IsWordText(p) {
      SplitOfJoin(front);
      WordsConcat(JoinLines(front), last + "\n");
      if p in front {
        WordIffListed(front, p);
      } else {
        WordsOfWord(last, "\n");
      }
    }
  }

  /** A changed file in scope is checked if and only if there is no white space in its name. */
  lemma CheckedIff(changed: seq<Path>, head: Tree, scope: set<Path>, p: Path)
    requires p in changed && p in head && p in scope
    ensures p in Listed(changed, head, scope) <==> IsWordText(p)
  {
    KeptIff(Words(JoinLines(changed)), head, scope, p);
    WordIffListed(changed, p);
  }

  // ---- Renames ------------------------------------------------------------------------------------------------------------------

  /** One `--name-status` line. */
  datatype NameStatus = NameStatus(status: string, from: Path, to: Path)

  predicate IsRename(l: NameStatus) {
    "R" <= l.status && l.from != "" && l.to != ""
  }

  function Renames(lines: seq<NameStatus>): map<Path, Path> {
    if lines == [] then map[]
    else
      var before, l := Renames(lines[..|lines| - 1]), lines[|lines| - 1];
      if IsRename(l) then before[l.to := l.from] else before
  }

  method RenameSources(lines: seq<NameStatus>) returns (pairs: map<Path, Path>)
    ensures pairs == Renames(lines)
  {
    pairs := map[];
    for i := 0 to |lines|
      invariant pairs == Renames(lines[..i])
    {
      assert lines[..i + 1][..i] == lines[..i];
      var l := lines[i];
      if |l.status| > 0 && l.status[0] == 'R' && l.from != "" && l.to != "" {
        pairs := pairs[l.to := l.from];
      }
    }
    assert lines[..|lines|] == lines;
  }

  predicate Injective(m: map<Path, Path>) {
    forall p, q :: p in m && q in m && m[p] == m[q] ==> p == q
  }

  lemma {:induction false} RenamesComeFromLines(lines: seq<NameStatus>)
    ensures forall p :: p in Renames(lines) ==>
              exists k :: 0 <= k < |lines| && IsRename(lines[k]) && lines[k].to == p && lines[k].from == Renames(lines)[p]
  {
    if lines != [] {
      var front := lines[..|lines| - 1];
      RenamesComeFromLines(front);
      forall p | p in Renames(lines)
        ensures exists k :: 0 <= k < |lines| && IsRename(lines[k]) && lines[k].to == p && lines[k].from == Renames(lines)[p]
      {
        var l := lines[|lines| - 1];
        if !(IsRename(l) && l.to == p) {
          var k :| 0 <= k < |front| && IsRename(front[k]) && front[k].to == p && front[k].from == Renames(front)[p];
          assert lines[k] == front[k];
        }
      }
    }
  }

  /** A line whose status begins with 'R', and that names two paths, the second being `to`. */
  predicate RenamesTo(l: NameStatus, to: Path) {
    l.status != "" && l.status[0] == 'R' && l.from != "" && l.to != "" && l.to == to
  }

  ghost predicate LastTo(lines: seq<NameStatus>, from: Path, to: Path) {
    exists k :: 0 <= k < |lines| && RenamesTo(lines[k], to) && lines[k].from == from && forall j :: k < j < |lines| ==> !RenamesTo(lines[j], to)
  }

  lemma LastToStep(front: seq<NameStatus>, l: NameStatus, from: Path, to: Path)
    ensures LastTo(front + [l], from, to) <==> if RenamesTo(l, to) then l.from == from else LastTo(front, from, to)
  {
    var lines := front + [l];
    hide RenamesTo;
    assert lines[|front|] == l && forall k :: 0 <= k < |front| ==> lines[k] == front[k];
    if !RenamesTo(l, to) && LastTo(front, from, to) {
      var k :| 0 <= k < |front| && RenamesTo(front[k], to) && front[k].from == from && forall j :: k < j < |front| ==> !RenamesTo(front[j], to);
      assert RenamesTo(lines[k], to);
    }
    if !RenamesTo(l, to) && LastTo(lines, from, to) {
      var k :| 0 <= k < |lines| && RenamesTo(lines[k], to) && lines[k].from == from && forall j :: k < j < |lines| ==> !RenamesTo(lines[j], to);
      assert RenamesTo(front[k], to) && forall j :: k < j < |front| ==> !RenamesTo(lines[j], to);
    }
  }

  lemma {:induction false} SourceIsLast(lines: seq<NameStatus>, from: Path, to: Path)
    ensures to in Renames(lines) && Renames(lines)[to] == from <==> LastTo(lines, from, to)
  {
    hide LastTo;
    if lines == [] {
      NoLastTo(from, to);
    } else {
      var front, l := lines[..|lines| - 1], lines[|lines| - 1];
      assert lines == front + [l];
      SourceIsLast(front, from, to);
      LastToStep(front, l, from, to);
    }
  }

  lemma NoLastTo(from: Path, to: Path)
    ensures !LastTo([], from, to)
  {
  }

  /** A path's source is the one on the last line that renames something to it. */
  lemma RenamesAre(lines: seq<NameStatus>, from: Path, to: Path)
    ensures to in Renames(lines) && Renames(lines)[to] == from <==> exists k ::
      0 <= k < |lines| && RenamesTo(lines[k], to) && lines[k].from == from && forall j :: k < j < |lines| ==> !RenamesTo(lines[j], to)
  {
    SourceIsLast(lines, from, to);
    hide Renames, RenamesTo;
  }

  /** When every file is moved to one place only, no two new paths share a source. */
  lemma RenamesInjective(lines: seq<NameStatus>)
    requires forall j, k :: 0 <= j < k < |lines| && IsRename(lines[j]) && IsRename(lines[k]) ==> lines[j].from != lines[k].from
    ensures Injective(Renames(lines))
  {
    RenamesComeFromLines(lines);
    var m := Renames(lines);
    forall p, q | p in m && q in m && m[p] == m[q] ensures p == q {
      var j :| 0 <= j < |lines| && IsRename(lines[j]) && lines[j].to == p && lines[j].from == m[p];
      var k :| 0 <= k < |lines| && IsRename(lines[k]) && lines[k].to == q && lines[k].from == m[q];
      assert j == k;
    }
  }

  // ---- The verdict ---------------------------------------------------------------------------------------------------------

  /** Violations of a head path as it exists on base: content from before the rename, judged under the head path. */
  function BaseCount(lint: Linter, d: Diff, p: Path): Counter {
    if d.Source(p) in d.base then lint(d.base[d.Source(p)], p) else map[]
  }

  function HeadCount(lint: Linter, d: Diff, p: Path): Counter
    requires p in d.head
  {
    lint(d.head[p], p)
  }

  predicate Regresses(lint: Linter, d: Diff, p: Path)
    requires p in d.head
  {
    RegressedCodes(BaseCount(lint, d, p), HeadCount(lint, d, p)) != {}
  }

  /** `sum(counter.values())` */
  method SumValues(counter: Counter) returns (total: nat)
    ensures total == Sum(counter)
  {
    total := 0;
    var rest := counter;
    while rest != map[]
      invariant total + Sum(rest) == Sum(counter)
      decreases |rest|
    {
      var code :| code in rest;
      SumWithout(rest, code);
      total := total + rest[code];
      rest := rest - {code};
    }
  }

  datatype Outcome = Regressed | Improved | Same

  /** Any code going up is a regression, even if the total fell. */
  ghost function OutcomeOf(lint: Linter, d: Diff, p: Path): Outcome
    requires p in d.head
  {
    if Regresses(lint, d, p) then Regressed
    else if Sum(HeadCount(lint, d, p)) < Sum(BaseCount(lint, d, p)) then Improved
    else Same
  }

  /** What each outcome says: a code counts for more in the head file than in the file it came from, both judged under the new
      path; or none does, and the sum is smaller; or neither. */
  lemma OutcomeIs(lint: Linter, d: Diff, p: Path)
    requires p in d.head
    ensures var from := if p in d.renames then d.renames[p] else p;
            var before, after := if from in d.base then lint(d.base[from], p) else map[], lint(d.head[p], p);
            var risen := exists code :: code in after && after[code] > if code in before then before[code] else 0;
      && (OutcomeOf(lint, d, p) == Regressed <==> risen)
      && (OutcomeOf(lint, d, p) == Improved <==> !risen && Sum(after) < Sum(before))
      && (OutcomeOf(lint, d, p) == Same <==> !risen && Sum(after) >= Sum(before))
  {
    var from := if p in d.renames then d.renames[p] else p;
    var before: Counter, after := if from in d.base then lint(d.base[from], p) else map[], lint(d.head[p], p);
    assert BaseCount(lint, d, p) == before && HeadCount(lint, d, p) == after;
    RegressedIff(before, after);
    hide Sum, RegressedCodes;
  }

  lemma RegressedIff(before: Counter, after: Counter)
    ensures RegressedCodes(before, after) != {} <==> exists code :: code in after && after[code] > if code in before then before[code] else 0
  {
    if code :| code in after && after[code] > if code in before then before[code] else 0 {
      assert code in RegressedCodes(before, after);
    }
    if code :| code in RegressedCodes(before, after) {
      assert after[code] > if code in before then before[code] else 0;
    }
  }

  /** The files with an outcome, in order. */
  ghost function Having(lint: Linter, d: Diff, files: seq<Path>, o: Outcome): seq<Path>
    requires forall p :: p in files ==> p in d.head
  {
    if files == [] then []
    else
      var front, p := files[..|files| - 1], files[|files| - 1];
      Having(lint, d, front, o) + if OutcomeOf(lint, d, p) == o then [p] else []
  }

  /** The loop over changed files. */
  method Judge(lint: Linter, d: Diff) returns (regressions: seq<Path>, improved: nat, same: nat)
    requires forall p :: p in d.files ==> p in d.head
    ensures regressions == Having(lint, d, d.files, Regressed)
    ensures improved == |Having(lint, d, d.files, Improved)| && same == |Having(lint, d, d.files, Same)|
  {
    regressions, improved, same := [], 0, 0;
    for i := 0 to |d.files|
      invariant regressions == Having(lint, d, d.files[..i], Regressed)
      invariant improved == |Having(lint, d, d.files[..i], Improved)|
      invariant same == |Having(lint, d, d.files[..i], Same)|
    {
      var path := d.files[i];
      assert d.files[..i + 1][..i] == d.files[..i];
      var before := BaseCount(lint, d, path);
      var after := HeadCount(lint, d, path);
      var beforeTotal := SumValues(before);
      var afterTotal := SumValues(after);
      if RegressedCodes(before, after) != {} {
        regressions := regressions + [path];
      } else if afterTotal < beforeTotal {
        improved := improved + 1;
      } else {
        same := same + 1;
      }
    }
    assert d.files[..|d.files|] == d.files;
  }

  /** The exit code is clean if and only if the diff is accepted. */
  lemma CleanIffAccepted(lint: Linter, d: Diff)
    requires forall p :: p in d.files ==> p in d.head
    ensures Having(lint, d, d.files, Regressed) == [] <==> Accepted(lint, d)
  {
    NoneRegressedIff(lint, d, d.files);
  }

  lemma {:induction false} NoneRegressedIff(lint: Linter, d: Diff, files: seq<Path>)
    requires forall p :: p in files ==> p in d.head
    ensures Having(lint, d, files, Regressed) == [] <==> forall p :: p in files ==> !Regresses(lint, d, p)
  {
    hide Regresses;
    if files != [] {
      var front, last := files[..|files| - 1], files[|files| - 1];
      NoneRegressedIff(lint, d, front);
      assert forall p :: p in files <==> p in front || p == last;
    }
  }

  predicate Accepted(lint: Linter, d: Diff) {
    forall p :: p in d.files && p in d.head ==> !Regresses(lint, d, p)
  }

  /** An accepted diff raises no rule code in any changed file, even when another code falls. */
  lemma AcceptedPerCode(lint: Linter, d: Diff, p: Path, code: Code)
    requires Accepted(lint, d) && p in d.files && p in d.head
    ensures Count(HeadCount(lint, d, p), code) <= Count(BaseCount(lint, d, p), code)
  {
    assert !Regresses(lint, d, p);
    NothingRegressedIff(BaseCount(lint, d, p), HeadCount(lint, d, p));
  }

  // ---- Totals over the files in scope ------------------------------------------------------------------------------------------

  ghost function Sum(counts: map<Path, nat>): nat {
    if counts == map[] then 0
    else
      var p :| p in counts;
      counts[p] + Sum(counts - {p})
  }

  lemma {:induction false} SumWithout(counts: map<Path, nat>, p: Path)
    requires p in counts
    ensures Sum(counts) == counts[p] + Sum(counts - {p})
    decreases |counts|
  {
    var q :| q in counts && Sum(counts) == counts[q] + Sum(counts - {q});
    if p != q {
      SumWithout(counts - {q}, p);
      SumWithout(counts - {p}, q);
      assert counts - {q} - {p} == counts - {p} - {q};
    }
  }

  /** Each count that matters is bounded by the count of its source, and no source is used twice. */
  ghost predicate Dominated(after: map<Path, nat>, before: map<Path, nat>, source: map<Path, Path>) {
    && (forall p :: p in after && after[p] > 0 ==> p in source && source[p] in before && after[p] <= before[source[p]])
    && (forall p, q :: p in after && q in after && p in source && q in source && source[p] == source[q] ==> p == q)
  }

  lemma {:induction false} SumDominated(after: map<Path, nat>, before: map<Path, nat>, source: map<Path, Path>)
    requires Dominated(after, before, source)
    ensures Sum(after) <= Sum(before)
    decreases |after|
  {
    if after != map[] {
      var p :| p in after;
      SumWithout(after, p);
      if after[p] == 0 {
        SumDominated(after - {p}, before, source);
      } else {
        SumWithout(before, source[p]);
        SumDominated(after - {p}, before - {source[p]}, source);
      }
    }
  }

  /** The violations of one rule code in each file of a tree that the ratchet looks at. */
  function CountsIn(lint: Linter, tree: Tree, scope: set<Path>, code: Code): map<Path, nat> {
    map p | p in tree && p in scope :: Count(lint(tree[p], p), code)
  }

  ghost function Total(lint: Linter, tree: Tree, scope: set<Path>, code: Code): nat {
    Sum(CountsIn(lint, tree, scope, code))
  }

  /** What git guarantees of a diff: every file in scope that it does not list is as it was, and a rename moves one file, from
      a path, in scope or not, that is gone afterwards. The checked files are the ones its list is split into. */
  ghost predicate Describes(d: Diff, scope: set<Path>) {
    && d.files == Listed(d.changed, d.head, scope)
    && (forall p :: p in d.head && p in scope && p !in d.changed ==> p in d.base && d.base[p] == d.head[p] && p !in d.renames)
    && Injective(d.renames)
    && (forall p :: p in d.renames ==> d.renames[p] !in d.head)
  }

  /** What a moved file added to the total before the move: nothing when it came from outside the scope. */
  function CountAtSource(lint: Linter, d: Diff, scope: set<Path>, code: Code, p: Path): nat {
    var from := d.Source(p);
    if from in d.base && from in scope then Count(lint(d.base[from], from), code) else 0
  }

  /** No move brings violations in: what a moved file held, judged at its new path, is no more than it counted for. */
  ghost predicate MovesBringNothing(lint: Linter, d: Diff, scope: set<Path>, code: Code) {
    forall p :: p in d.renames && p in d.head && p in scope ==>
      Count(BaseCount(lint, d, p), code) <= CountAtSource(lint, d, scope, code, p)
  }

  /** No changed file with white space in its name, which is not checked, brings violations in. */
  ghost predicate UncheckedBringNothing(lint: Linter, d: Diff, scope: set<Path>, code: Code) {
    forall p :: p in d.changed && p in d.head && p in scope && !IsWordText(p) ==>
      Count(HeadCount(lint, d, p), code) <= Count(BaseCount(lint, d, p), code)
  }

  lemma HeadFileIsBounded(lint: Linter, d: Diff, scope: set<Path>, code: Code, p: Path)
    requires Describes(d, scope) && Accepted(lint, d) && p in d.head && p in scope
    requires MovesBringNothing(lint, d, scope, code) && UncheckedBringNothing(lint, d, scope, code)
    ensures Count(lint(d.head[p], p), code) == 0
         || (d.Source(p) in d.base && d.Source(p) in scope
             && Count(lint(d.head[p], p), code) <= Count(lint(d.base[d.Source(p)], d.Source(p)), code))
  {
    if p in d.changed {
      CheckedIff(d.changed, d.head, scope, p);
      if IsWordText(p) {
        AcceptedPerCode(lint, d, p, code);
      }
      hide Describes, Accepted;
      assert Count(HeadCount(lint, d, p), code) <= Count(BaseCount(lint, d, p), code);
      if p in d.renames {
        assert Count(BaseCount(lint, d, p), code) <= CountAtSource(lint, d, scope, code, p);
      }
    }
  }

  lemma SourcesDiffer(d: Diff, scope: set<Path>, p: Path, q: Path)
    requires Describes(d, scope) && p in d.head && q in d.head && d.Source(p) == d.Source(q)
    ensures p == q
  {
  }

  /** An accepted diff never increases a rule code's total over the files in scope. */
  lemma TotalNeverIncreases(lint: Linter, d: Diff, scope: set<Path>, code: Code)
    requires Describes(d, scope) && Accepted(lint, d)
    requires MovesBringNothing(lint, d, scope, code) && UncheckedBringNothing(lint, d, scope, code)
    ensures Total(lint, d.head, scope, code) <= Total(lint, d.base, scope, code)
  {
    var after, before := CountsIn(lint, d.head, scope, code), CountsIn(lint, d.base, scope, code);
    var source := map p | p in d.head :: d.Source(p);
    forall p | p in after && after[p] > 0 ensures source[p] in before && after[p] <= before[source[p]] {
      HeadFileIsBounded(lint, d, scope, code, p);
    }
    forall p, q | p in source && q in source && source[p] == source[q] ensures p == q {
      SourcesDiffer(d, scope, p, q);
    }
    SumDominated(after, before, source);
  }

  /** Over any sequence of accepted diffs. */
  ghost predicate IsHistory(trees: seq<Tree>, diffs: seq<Diff>) {
    |trees| == |diffs| + 1 && forall k :: 0 <= k < |diffs| ==> diffs[k].base == trees[k] && diffs[k].head == trees[k + 1]
  }

  lemma {:induction false} TotalNeverIncreasesOverHistory(lint: Linter, trees: seq<Tree>, diffs: seq<Diff>, scope: set<Path>, code: Code)
    requires IsHistory(trees, diffs)
    requires forall k :: 0 <= k < |diffs| ==>
               && Describes(diffs[k], scope) && Accepted(lint, diffs[k])
               && MovesBringNothing(lint, diffs[k], scope, code) && UncheckedBringNothing(lint, diffs[k], scope, code)
    ensures Total(lint, trees[|diffs|], scope, code) <= Total(lint, trees[0], scope, code)
    decreases |diffs|
  {
    if diffs != [] {
      var n := |diffs| - 1;
      assert IsHistory(trees[..n + 1], diffs[..n]);
      TotalNeverIncreasesOverHistory(lint, trees[..n + 1], diffs[..n], scope, code);
      TotalNeverIncreases(lint, diffs[n], scope, code);
    }
  }

  // ---- What is accepted unseen --------------------------------------------------------------------------------------------------

  /** Files that are as they were do not regress. */
  lemma UnchangedIsAccepted(lint: Linter, d: Diff)
    requires forall p :: p in d.files && p in d.head ==> BaseCount(lint, d, p) == HeadCount(lint, d, p)
    ensures Accepted(lint, d)
  {
    forall p | p in d.files && p in d.head ensures !Regresses(lint, d, p) {
      NothingRegressedIff(BaseCount(lint, d, p), HeadCount(lint, d, p));
    }
  }

  /** Moving one file of a tree, its content untouched. */
  function Move(base: Tree, from: Path, to: Path, scope: set<Path>): Diff
    requires from in base
  {
    var head := (base - {from})[to := base[from]];
    Diff(base, head, map[to := from], [to], Listed([to], head, scope))
  }

  /** In any tree, a pure move into scope is accepted whatever the file carries, and it raises a total if and only if the
      file counts for more at its new path than it counted for at the old one: because the rules there are stricter, or
      because the old path was out of scope. */
  lemma PureMoveRisesIff(lint: Linter, base: Tree, from: Path, to: Path, scope: set<Path>, code: Code)
    requires from in base && to !in base && to in scope
    ensures Describes(Move(base, from, to, scope), scope) && Accepted(lint, Move(base, from, to, scope))
    ensures Total(lint, Move(base, from, to, scope).head, scope, code) > Total(lint, base, scope, code)
       <==> !MovesBringNothing(lint, Move(base, from, to, scope), scope, code)
    ensures Total(lint, Move(base, from, to, scope).head, scope, code) + CountAtSource(lint, Move(base, from, to, scope), scope, code, to)
         == Total(lint, base, scope, code) + Count(lint(base[from], to), code)
  {
    MoveIsAccepted(lint, base, from, to, scope);
    TotalOfMove(lint, base, from, to, scope, code);
    var d := Move(base, from, to, scope);
    assert d.Source(to) == from && BaseCount(lint, d, to) == lint(base[from], to);
    hide Describes, Accepted, Total, Listed;
    assert forall p :: p in d.renames <==> p == to;
  }

  lemma MoveIsAccepted(lint: Linter, base: Tree, from: Path, to: Path, scope: set<Path>)
    requires from in base && to !in base && to in scope
    ensures Describes(Move(base, from, to, scope), scope) && Accepted(lint, Move(base, from, to, scope))
  {
    hide Listed;
    UnchangedIsAccepted(lint, Move(base, from, to, scope));
  }

  lemma TotalOfMove(lint: Linter, base: Tree, from: Path, to: Path, scope: set<Path>, code: Code)
    requires from in base && to !in base && to in scope
    ensures Total(lint, (base - {from})[to := base[from]], scope, code)
            + (if from in scope then Count(lint(base[from], from), code) else 0)
         == Total(lint, base, scope, code) + Count(lint(base[from], to), code)
  {
    var before, after := CountsIn(lint, base, scope, code), CountsIn(lint, (base - {from})[to := base[from]], scope, code);
    assert after == (before - {from})[to := Count(lint(base[from], to), code)];
    SumWithout(after, to);
    assert after - {to} == before - {from};
    if from in before {
      SumWithout(before, from);
    } else {
      assert before - {from} == before;
    }
  }

  /** A file moved in from outside the scope brings everything it carries, and the diff is accepted. */
  lemma MoveFromOutsideIsAccepted(lint: Linter, base: Tree, from: Path, to: Path, scope: set<Path>, code: Code)
    requires from in base && to !in base && to in scope && from !in scope
    ensures Accepted(lint, Move(base, from, to, scope))
    ensures Total(lint, Move(base, from, to, scope).head, scope, code)
         == Total(lint, base, scope, code) + Count(lint(base[from], to), code)
  {
    PureMoveRisesIff(lint, base, from, to, scope, code);
  }

  /** Changing one file of a tree. */
  function Edit(base: Tree, p: Path, content: string, scope: set<Path>): Diff {
    Diff(base, base[p := content], map[], [p], Listed([p], base[p := content], scope))
  }

  /** Any change of a file with white space in its name is accepted, and the total changes by what it brings. */
  lemma SpacedNameIsNotChecked(lint: Linter, base: Tree, p: Path, content: string, scope: set<Path>, code: Code)
    requires p in base && p in scope && !IsWordText(p)
    ensures Describes(Edit(base, p, content, scope), scope) && Accepted(lint, Edit(base, p, content, scope))
    ensures Total(lint, Edit(base, p, content, scope).head, scope, code) + Count(lint(base[p], p), code)
         == Total(lint, base, scope, code) + Count(lint(content, p), code)
  {
    EditIsAccepted(lint, base, p, content, scope);
    TotalOfEdit(lint, base, p, content, scope, code);
    hide Describes, Accepted, Total, Listed;
  }

  lemma EditIsAccepted(lint: Linter, base: Tree, p: Path, content: string, scope: set<Path>)
    requires p in base && p in scope && !IsWordText(p)
    ensures Describes(Edit(base, p, content, scope), scope) && Accepted(lint, Edit(base, p, content, scope))
  {
    CheckedIff([p], base[p := content], scope, p);
    hide Listed;
    UnchangedIsAccepted(lint, Edit(base, p, content, scope));
  }

  lemma TotalOfEdit(lint: Linter, base: Tree, p: Path, content: string, scope: set<Path>, code: Code)
    requires p in base && p in scope
    ensures Total(lint, base[p := content], scope, code) + Count(lint(base[p], p), code)
         == Total(lint, base, scope, code) + Count(lint(content, p), code)
  {
    var before, after := CountsIn(lint, base, scope, code), CountsIn(lint, base[p := content], scope, code);
    assert after == before[p := Count(lint(content, p), code)];
    SumWithout(after, p);
    SumWithout(before, p);
    assert after - {p} == before - {p};
  }
}
