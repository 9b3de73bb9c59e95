/** Gate evidence stored in a marker file, bound to a tree and read back (gate_runner.py, coder.py). */
module GateEvidence {
  import opened Basics
  import opened Text
  import opened GateRunner

  // ---- Trees and markers -----------------------------------------------------------------------------------------------

  /** A HEAD that git can print: not blank, and not the dash that stands for "unknown". */
  predicate IsSha(s: string) {
    s != "" && s != "-" && forall k :: 0 <= k < |s| ==> !IsSpace(s[k])
  }

  /** What git answers about one build: `worktree` is absent when the build has no worktree, and a HEAD is `None` when it
      cannot be read. */
  datatype Tree = Tree(projectHead: Option<string>, worktree: Option<Option<string>>, tips: set<string>)
  {
    /** HEAD of the directory the gates run in. */
    function Head(): Option<string> {
      if worktree.Some? then worktree.value else projectHead
    }

    predicate Readable() {
      Head().Some? ==> IsSha(Head().value)
    }
  }

  function MarkerText(head: Option<string>, evidence: string): string {
    (if head.Some? then head.value else "-") + ("\n" + (evidence + "\n"))
  }

  function FirstLine(text: string): string {
    if text == "" || text[0] == '\n' then "" else [text[0]] + FirstLine(text[1..])
  }

  /** `text.partition("\n")[2]` */
  function AfterFirstLine(text: string): string {
    if text == "" then "" else if text[0] == '\n' then text[1..] else AfterFirstLine(text[1..])
  }

  predicate MarkerIsCurrent(text: string, tree: Tree) {
    var recorded := Strip(FirstLine(text));
    || recorded == "" || recorded == "-"
    || (tree.worktree.None? && recorded in tree.tips)
    || tree.Head().None?
    || tree.Head() == Some(recorded)
  }

  /** What the gate step recorded for the current tree, if anything. */
  function TrailingGateEvidence(marker: Option<string>, tree: Tree): Option<string> {
    if marker.None? then None
    else
      var text := Strip(marker.value);
      if text == "" || !MarkerIsCurrent(marker.value, tree) then None
      else
        var evidence := Strip(AfterFirstLine(text));
        if evidence == "" then None else Some(evidence)
  }

  /** The promise: evidence recorded at `head` is about `tree`, or the binding cannot be checked. */
  predicate Bound(head: Option<string>, tree: Tree) {
    || head.None? || tree.Head().None?
    || head == tree.Head()
    || (tree.worktree.None? && head.value in tree.tips)
  }

  // ---- Text lemmas -------------------------------------------------------------------------------------------------------

  lemma {:induction false} FirstLineOf(a: string, b: string)
    requires '\n' !in a
    ensures FirstLine(a + ("\n" + b)) == a
    ensures AfterFirstLine(a + ("\n" + b)) == b
    ensures AfterFirstLine(a) == ""
  {
    var t := a + ("\n" + b);
    if a == "" {
      assert t == "\n" + b;
      assert t[1..] == b;
    } else {
      assert t[0] == a[0] && a[0] in a;
      assert t[1..] == a[1..] + ("\n" + b);
      FirstLineOf(a[1..], b);
    }
  }

  lemma {:induction false} RStripAppend(a: string, b: string)
    ensures RStrip(a + b) == if RStrip(b) != "" then a + RStrip(b) else RStrip(a)
  {
    if b == "" {
      assert a + b == a;
    } else {
      var last := b[|b| - 1];
      assert (a + b)[|a + b| - 1] == last;
      assert (a + b)[..|a + b| - 1] == a + b[..|b| - 1];
      if IsSpace(last) {
        RStripAppend(a, b[..|b| - 1]);
      }
    }
  }

  lemma {:induction false} StripsCommute(s: string)
    ensures LStrip(RStrip(s)) == RStrip(LStrip(s))
    ensures RStrip(s) == "" ==> LStrip(s) == ""
  {
    if s != "" {
      assert s == [s[0]] + s[1..];
      RStripAppend([s[0]], s[1..]);
      if IsSpace(s[0]) {
        StripsCommute(s[1..]);
        assert [s[0]][..0] == "";
        if RStrip(s[1..]) != "" {
          assert ([s[0]] + RStrip(s[1..]))[1..] == RStrip(s[1..]);
        }
      } else {
        assert RStrip([s[0]]) == [s[0]];
      }
    }
  }

  lemma StripOfRStrip(s: string)
    ensures Strip(RStrip(s)) == Strip(s)
    ensures RStrip(s) == "" ==> Strip(s) == ""
  {
    StripsCommute(s);
  }

  /** The stripped marker is its first line, a line break and the evidence up to its last visible character. */
  lemma StrippedMarker(sha: string, evidence: string)
    requires sha != "" && forall k :: 0 <= k < |sha| ==> !IsSpace(sha[k])
    ensures var text := Strip(sha + ("\n" + (evidence + "\n")));
            if RStrip(evidence) == "" then text == sha else text == sha + ("\n" + RStrip(evidence))
  {
    var text := sha + ("\n" + (evidence + "\n"));
    assert text[0] == sha[0];
    assert LStrip(text) == text;
    assert RStrip("\n") == "" by { assert "\n"[..0] == ""; }
    RStripAppend(evidence, "\n");
    RStripAppend("\n", evidence + "\n");
    RStripAppend(sha, "\n" + (evidence + "\n"));
    assert RStrip(sha) == sha;
  }

  // ---- The record -------------------------------------------------------------------------------------------------------

  /** The two fields of a stored marker. */
  lemma MarkerFields(head: Option<string>, evidence: string)
    requires head.Some? ==> IsSha(head.value)
    ensures Strip(FirstLine(MarkerText(head, evidence))) == if head.Some? then head.value else "-"
    ensures Strip(MarkerText(head, evidence)) != ""
    ensures Strip(AfterFirstLine(Strip(MarkerText(head, evidence)))) == Strip(evidence)
  {
    var sha := if head.Some? then head.value else "-";
    assert forall k :: 0 <= k < |sha| ==> !IsSpace(sha[k]);
    assert '\n' !in sha;
    FirstLineOf(sha, evidence + "\n");
    StripOfStripped(sha);
    StrippedMarker(sha, evidence);
    StripOfRStrip(evidence);
    FirstLineOf(sha, RStrip(evidence));
    hide RStrip, LStrip, FirstLine, AfterFirstLine;
    assert Strip("") == "";
  }

  /** Round trip: what is written at `head` reads back, with outer blanks gone, if and only if `head` is bound to the
      tree it is read against and the evidence is not blank. */
  lemma EvidenceReadsBackIffBound(head: Option<string>, evidence: string, tree: Tree)
    requires head.Some? ==> IsSha(head.value)
    ensures TrailingGateEvidence(Some(MarkerText(head, evidence)), tree)
         == if Bound(head, tree) && Strip(evidence) != "" then Some(Strip(evidence)) else None
    ensures MarkerIsCurrent(MarkerText(head, evidence), tree) <==> Bound(head, tree)
  {
    MarkerFields(head, evidence);
    hide Strip, FirstLine, AfterFirstLine, MarkerText;
  }

  /** The same, spelled out: the file is the HEAD or a dash, a line break, the evidence and a line break; HEAD is the worktree's
      if there is one; and a recorded HEAD is bound if it is unknown, HEAD is, the two agree, or, without a worktree, it is a
      tip of the task branch. */
  lemma MarkerReadsBackIff(head: Option<string>, evidence: string, tree: Tree)
    requires head.Some? ==> IsSha(head.value)
    ensures var now := if tree.worktree.Some? then tree.worktree.value else tree.projectHead;
            var bound := head == None || now == None || head == now || (tree.worktree == None && head.value in tree.tips);
            var marker := (if head == None then "-" else head.value) + "\n" + evidence + "\n";
      TrailingGateEvidence(Some(marker), tree) == if bound && Strip(evidence) != "" then Some(Strip(evidence)) else None
  {
    EvidenceReadsBackIffBound(head, evidence, tree);
    MarkerIs(head, evidence);
    hide Strip, TrailingGateEvidence, MarkerText;
  }

  lemma MarkerIs(head: Option<string>, evidence: string)
    ensures MarkerText(head, evidence) == (if head == None then "-" else head.value) + "\n" + evidence + "\n"
  {
    var first := if head == None then "-" else head.value;
    assert first + ("\n" + (evidence + "\n")) == first + "\n" + evidence + "\n";
  }

  // ---- Builds --------------------------------------------------------------------------------------------------------------

  /** One write of a marker: which build ran its gates, at which HEAD they began, which HEAD the marker was bound to when they
      had ended, and with what result. */
  datatype Record = Record(build: nat, ran: Option<string>, head: Option<string>, evidence: string)

  datatype Build = Build(tree: Tree, marker: Option<string>)

  datatype World = World(builds: seq<Build>, log: seq<Record>)

  /** Anything that happens between reads: a commit, checkout or worktree change; the trailing gate step of the coder, with
      the number of uncompleted subtasks, the summary its gates would give (none if the step raises, which it swallows) and
      the tree as it stands when they have run; a spec directory copied to another build. */
  datatype Event =
    | Move(build: nat, tree: Tree)
    | TrailingGates(build: nat, pending: nat, summary: Option<string>, after: Tree)
    | Copy(from: nat, to: nat)

  predicate Possible(w: World, e: Event) {
    match e
    case Move(b, tree) => b < |w.builds| && tree.Readable()
    case TrailingGates(b, _, _, after) => b < |w.builds| && after.Readable()
    case Copy(from, to) => from < |w.builds| && to < |w.builds|
  }

  /** The gate step does its work only on a finished plan whose marker is not already about this tree. */
  predicate RunsGates(b: Build, pending: nat) {
    pending == 0 && !(b.marker.Some? && MarkerIsCurrent(b.marker.value, b.tree))
  }

  function AfterGateStep(b: Build, pending: nat, summary: Option<string>, after: Tree): Build {
    if !RunsGates(b, pending) then b
    else if summary.None? then b.(tree := after)
    else Build(after, Some(MarkerText(after.Head(), summary.value)))
  }

  function After(w: World, e: Event): World
    requires Possible(w, e)
  {
    match e
    case Move(b, tree) => w.(builds := w.builds[b := w.builds[b].(tree := tree)])
    case TrailingGates(b, pending, summary, after) =>
      World(
        w.builds[b := AfterGateStep(w.builds[b], pending, summary, after)],
        w.log + if RunsGates(w.builds[b], pending) && summary.Some?
                then [Record(b, w.builds[b].tree.Head(), after.Head(), summary.value)] else [])
    case Copy(from, to) => w.(builds := w.builds[to := w.builds[to].(marker := w.builds[from].marker)])
  }

  ghost predicate IsRun(w: World, events: seq<Event>, w': World)
    decreases |events|
  {
    if events == [] then w' == w
    else Possible(w, events[0]) && IsRun(After(w, events[0]), events[1..], w')
  }

  predicate Wrote(log: seq<Record>, marker: string, k: int) {
    && 0 <= k < |log| && (log[k].head.Some? ==> IsSha(log[k].head.value))
    && marker == MarkerText(log[k].head, log[k].evidence)
  }

  /** Every marker is some gate run's record. */
  ghost predicate Sound(w: World) {
    && (forall b :: 0 <= b < |w.builds| ==> w.builds[b].tree.Readable())
    && (forall b :: 0 <= b < |w.builds| && w.builds[b].marker.Some? ==> exists k :: Wrote(w.log, w.builds[b].marker.value, k))
  }

  ghost predicate Fresh(w: World) {
    && w.log == []
    && forall b :: 0 <= b < |w.builds| ==> w.builds[b].marker == None && w.builds[b].tree.Readable()
  }

  lemma StepKeepsSound(w: World, e: Event)
    requires Sound(w) && Possible(w, e)
    ensures Sound(After(w, e)) && w.log <= After(w, e).log
  {
    var w' := After(w, e);
    forall b | 0 <= b < |w'.builds| && w'.builds[b].marker.Some?
      ensures exists k :: Wrote(w'.log, w'.builds[b].marker.value, k)
    {
      if e.TrailingGates? && b == e.build && RunsGates(w.builds[b], e.pending) && e.summary.Some? {
        hide MarkerText, MarkerIsCurrent;
        assert w'.log[|w.log|] == Record(b, w.builds[b].tree.Head(), e.after.Head(), e.summary.value);
        assert Wrote(w'.log, w'.builds[b].marker.value, |w.log|);
      } else {
        hide MarkerText, MarkerIsCurrent;
        var source := if e.Copy? && b == e.to then e.from else b;
        var k :| Wrote(w.log, w.builds[source].marker.value, k);
        assert w'.log[k] == w.log[k];
        assert Wrote(w'.log, w'.builds[b].marker.value, k);
      }
    }
  }

  lemma {:induction false} RunKeepsSound(w: World, events: seq<Event>, w': World)
    requires Sound(w) && IsRun(w, events, w')
    ensures Sound(w') && w.log <= w'.log
    decreases |events|
  {
    if events != [] {
      StepKeepsSound(w, events[0]);
      RunKeepsSound(After(w, events[0]), events[1..], w');
    }
  }

  /** Over any run of commits, gate runs and marker copies: evidence returned for a build is what some gate run recorded,
      and that run's HEAD is the build's current HEAD, or a tip of its task branch when it has no worktree, or one of the
      two is unknown. */
  lemma EvidenceIsAboutThisTree(w: World, events: seq<Event>, w': World, b: nat)
    requires Fresh(w) && IsRun(w, events, w') && b < |w'.builds|
    requires TrailingGateEvidence(w'.builds[b].marker, w'.builds[b].tree).Some?
    ensures exists k :: 0 <= k < |w'.log|
                        && Bound(w'.log[k].head, w'.builds[b].tree)
                        && TrailingGateEvidence(w'.builds[b].marker, w'.builds[b].tree) == Some(Strip(w'.log[k].evidence))
  {
    RunKeepsSound(w, events, w');
    assert w'.builds[b].marker.Some?;
    hide IsRun, TrailingGateEvidence, MarkerText;
    var k :| Wrote(w'.log, w'.builds[b].marker.value, k);
    EvidenceReadsBackIffBound(w'.log[k].head, w'.log[k].evidence, w'.builds[b].tree);
  }

  /** Event `n` of the run is a gate step that does its work and writes record `r`. */
  ghost predicate GateStepAt(w: World, events: seq<Event>, n: nat, r: Record)
    decreases |events|
  {
    && events != [] && Possible(w, events[0])
    && var e := events[0];
       if n > 0 then GateStepAt(After(w, e), events[1..], n - 1, r)
       else
         && e.TrailingGates? && RunsGates(w.builds[e.build], e.pending) && e.summary.Some?
         && r == Record(e.build, w.builds[e.build].tree.Head(), e.after.Head(), e.summary.value)
  }

  /** HEAD of the build that event `n` is about is known before and after it, and moves. */
  ghost predicate MovesHead(w: World, events: seq<Event>, n: nat)
    decreases |events|
  {
    && events != [] && Possible(w, events[0])
    && var e := events[0];
       if n > 0 then MovesHead(After(w, e), events[1..], n - 1)
       else
         !e.Copy? && var before, after := w.builds[e.build].tree.Head(), After(w, e).builds[e.build].tree.Head();
         before.Some? && after.Some? && before != after
  }

  lemma {:induction false} LogGrows(w: World, events: seq<Event>, w': World)
    requires IsRun(w, events, w')
    ensures w.log <= w'.log
    decreases |events|
  {
    hide MarkerIsCurrent, MarkerText;
    if events != [] {
      LogGrows(After(w, events[0]), events[1..], w');
    }
  }

  /** Every record that a run adds was written by one of its gate steps. */
  lemma {:induction false} RecordsAreGateSteps(w: World, events: seq<Event>, w': World, k: nat) returns (n: nat)
    requires IsRun(w, events, w') && |w.log| <= k < |w'.log|
    ensures n < |events| && GateStepAt(w, events, n, w'.log[k])
    decreases |events|
  {
    hide MarkerIsCurrent, MarkerText;
    var next := After(w, events[0]);
    LogGrows(next, events[1..], w');
    if k < |next.log| {
      n := 0;
      assert w'.log[k] == next.log[k];
    } else {
      n := RecordsAreGateSteps(next, events[1..], w', k);
      n := n + 1;
    }
  }

  lemma {:induction false} GateStepMoves(w: World, events: seq<Event>, n: nat, r: Record)
    requires GateStepAt(w, events, n, r)
    ensures MovesHead(w, events, n) <==> r.ran.Some? && r.head.Some? && r.ran != r.head
    decreases |events|
  {
    hide MarkerIsCurrent, MarkerText;
    if n > 0 {
      GateStepMoves(After(w, events[0]), events[1..], n - 1, r);
    }
  }

  /** No gate step of the run ends at another HEAD than it began at. */
  ghost predicate GatesKeepHead(w: World, events: seq<Event>) {
    forall n, r :: GateStepAt(w, events, n, r) ==> r.ran == r.head
  }

  /** When no gate step of a run moves HEAD, returned evidence was produced by gates that ran on the tree it is returned for. */
  lemma EvidenceRanOnThisTree(w: World, events: seq<Event>, w': World, b: nat)
    requires Fresh(w) && IsRun(w, events, w') && GatesKeepHead(w, events) && b < |w'.builds|
    requires TrailingGateEvidence(w'.builds[b].marker, w'.builds[b].tree).Some?
    ensures exists k :: 0 <= k < |w'.log|
                        && Bound(w'.log[k].ran, w'.builds[b].tree)
                        && TrailingGateEvidence(w'.builds[b].marker, w'.builds[b].tree) == Some(Strip(w'.log[k].evidence))
  {
    EvidenceIsAboutThisTree(w, events, w', b);
    hide IsRun, TrailingGateEvidence, GateStepAt;
    var k :| 0 <= k < |w'.log|
             && Bound(w'.log[k].head, w'.builds[b].tree)
             && TrailingGateEvidence(w'.builds[b].marker, w'.builds[b].tree) == Some(Strip(w'.log[k].evidence));
    var n := RecordsAreGateSteps(w, events, w', k);
    assert w'.log[k].ran == w'.log[k].head;
  }

  /** Exactly: evidence returned for a build with a worktree and a readable HEAD, from a marker that names a HEAD, was produced
      on the current HEAD (or an unknown one) if and only if the gate step that wrote it did not move HEAD. */
  lemma EvidenceRanHereIff(w: World, events: seq<Event>, w': World, b: nat, k: nat) returns (n: nat)
    requires Fresh(w) && IsRun(w, events, w') && b < |w'.builds| && k < |w'.log| && w'.log[k].head.Some?
    requires w'.builds[b].tree.worktree.Some? && w'.builds[b].tree.Head().Some?
    requires w'.builds[b].marker.Some? && Wrote(w'.log, w'.builds[b].marker.value, k)
    requires TrailingGateEvidence(w'.builds[b].marker, w'.builds[b].tree).Some?
    ensures n < |events| && GateStepAt(w, events, n, w'.log[k])
    ensures Bound(w'.log[k].ran, w'.builds[b].tree) <==> !MovesHead(w, events, n)
  {
    EvidenceReadsBackIffBound(w'.log[k].head, w'.log[k].evidence, w'.builds[b].tree);
    hide IsRun, TrailingGateEvidence, MarkerText, GateStepAt, MovesHead;
    n := RecordsAreGateSteps(w, events, w', k);
    GateStepMoves(w, events, n, w'.log[k]);
  }

  /** A commit while the gates run: their evidence is returned for a HEAD they did not run on. */
  lemma CommitDuringGates(first: string, second: string, summary: string) returns (w: World, events: seq<Event>, w': World)
    requires IsSha(first) && IsSha(second) && first != second && Strip(summary) != ""
    ensures Fresh(w) && IsRun(w, events, w') && |w'.builds| == 1 && |w'.log| == 1
    ensures TrailingGateEvidence(w'.builds[0].marker, w'.builds[0].tree) == Some(Strip(summary))
    ensures w'.builds[0].tree.Head() == Some(second) && w'.log[0].ran == Some(first) && !Bound(w'.log[0].ran, w'.builds[0].tree)
  {
    var before, after := Tree(None, Some(Some(first)), {}), Tree(None, Some(Some(second)), {});
    w := World([Build(before, None)], []);
    var e := TrailingGates(0, 0, Some(summary), after);
    events := [e];
    w' := World([Build(after, Some(MarkerText(Some(second), summary)))], [Record(0, Some(first), Some(second), summary)]);
    EvidenceReadsBackIffBound(Some(second), summary, after);
    hide MarkerIsCurrent, TrailingGateEvidence, MarkerText, Strip;
    assert After(w, e) == w' && events[1..] == [];
  }

  // ---- Once per tree ---------------------------------------------------------------------------------------------------------

  predicate Touches(e: Event, b: nat) {
    (e.Move? && e.build == b) || (e.Copy? && e.to == b)
  }

  function RunsOf(log: seq<Record>, b: nat): nat {
    if log == [] then 0 else RunsOf(log[..|log| - 1], b) + if log[|log| - 1].build == b then 1 else 0
  }

  /** After a gate step on a finished plan the marker is about the tree, unless the step raised: then nothing was recorded,
      and on an unmoved tree the next step runs again. */
  lemma GateStepSettles(w: World, b: nat, summary: Option<string>, after: Tree)
    requires Sound(w) && b < |w.builds| && after.Readable()
    ensures var w' := After(w, TrailingGates(b, 0, summary, after));
      && (!RunsGates(w.builds[b], 0) || summary.Some? ==> w'.builds[b].marker.Some? && !RunsGates(w'.builds[b], 0))
      && (RunsGates(w.builds[b], 0) && summary.None? ==> w'.log == w.log && w'.builds[b].marker == w.builds[b].marker)
      && (RunsGates(w.builds[b], 0) && summary.None? && after == w.builds[b].tree ==> RunsGates(w'.builds[b], 0))
  {
    if summary.Some? {
      EvidenceReadsBackIffBound(after.Head(), summary.value, after);
    }
    hide MarkerIsCurrent, MarkerText;
  }

  /** Until the tree moves or another marker arrives, the gates of a settled build never run again and its evidence stays. */
  lemma {:induction false} RunOncePerTree(w: World, events: seq<Event>, w': World, b: nat)
    requires b < |w.builds| && !RunsGates(w.builds[b], 0) && IsRun(w, events, w')
    requires forall k :: 0 <= k < |events| ==> !Touches(events[k], b)
    ensures |w'.builds| == |w.builds| && w'.builds[b] == w.builds[b] && RunsOf(w'.log, b) == RunsOf(w.log, b)
    decreases |events|
  {
    if events != [] {
      var next := After(w, events[0]);
      assert !Touches(events[0], b);
      assert next.builds[b] == w.builds[b] && RunsOf(next.log, b) == RunsOf(w.log, b) by {
        hide MarkerIsCurrent;
        if next.log != w.log {
          assert next.log[..|next.log| - 1] == w.log;
        }
      }
      forall k | 0 <= k < |events[1..]| ensures !Touches(events[1..][k], b) {
        assert events[1..][k] == events[k + 1];
      }
      RunOncePerTree(next, events[1..], w', b);
    }
  }

  /** A new commit makes the next gate step on a finished plan run again, and its evidence replaces the old. */
  lemma NewCommitRunsAgain(w: World, b: nat, k: nat, summary: string, after: Tree)
    requires Sound(w) && b < |w.builds| && w.builds[b].marker.Some? && Wrote(w.log, w.builds[b].marker.value, k)
    requires !Bound(w.log[k].head, w.builds[b].tree) && Strip(summary) != "" && after.Readable()
    ensures TrailingGateEvidence(w.builds[b].marker, w.builds[b].tree) == None
    ensures var w' := After(w, TrailingGates(b, 0, Some(summary), after));
            && RunsOf(w'.log, b) == RunsOf(w.log, b) + 1
            && TrailingGateEvidence(w'.builds[b].marker, w'.builds[b].tree) == Some(Strip(summary))
  {
    EvidenceReadsBackIffBound(w.log[k].head, w.log[k].evidence, w.builds[b].tree);
    EvidenceReadsBackIffBound(after.Head(), summary, after);
    hide MarkerIsCurrent, TrailingGateEvidence, MarkerText, Strip;
    var w' := After(w, TrailingGates(b, 0, Some(summary), after));
    assert w'.log[..|w'.log| - 1] == w.log;
  }

  // ---- From gate results to the sign-off --------------------------------------------------------------------------------------

  predicate PlainNames(rs: seq<GateResult>) {
    && (forall k :: 0 <= k < |rs| ==> ':' !in rs[k].name)
    && (rs != [] ==> rs[0].name != "" && !IsSpace(rs[0].name[0]) && !(NO_GATES <= rs[0].name))
  }

  lemma {:induction false} EntriesEndVisibly(rs: seq<GateResult>)
    requires rs != []
    ensures var s := JoinEntries(rs); s != "" && !IsSpace(s[|s| - 1])
  {
    if |rs| > 1 {
      EntriesEndVisibly(rs[1..]);
    }
  }

  /** Printed, stored, bound and read back: for plainly named gates, the reader of a bound marker sees an executed gate if and
      only if one was not skipped, and a failure if and only if one failed; an unbound marker shows neither. */
  lemma RecordedResultsReachTheReader(rs: seq<GateResult>, head: Option<string>, tree: Tree)
    requires rs != [] && PlainNames(rs) && (head.Some? ==> IsSha(head.value))
    ensures var evidence := TrailingGateEvidence(Some(MarkerText(head, SummarizeGates(rs))), tree);
            if !Bound(head, tree) then evidence == None
            else
              && evidence.Some?
              && GateOutcomes(evidence.value) == Statuses(rs)
              && (ShowsAnExecutedGate(evidence.value) <==> exists k :: 0 <= k < |rs| && !rs[k].skipped)
              && (IncludesAFailure(evidence.value) <==> FailingGates(rs) != [])
  {
    var summary := SummarizeGates(rs);
    var t := SummaryShape(rs);
    assert summary[0] == rs[0].name[0];
    EntriesEndVisibly(rs);
    assert Strip(summary) == summary;
    EvidenceReadsBackIffBound(head, summary, tree);
    SummaryReadsBackIff(rs);
    ExecutedMeansNotAllSkipped(rs);
    FailureMeansAFailingGate(rs);
    hide Strip, GateOutcomes, SummarizeGates, ShowsAnExecutedGate, IncludesAFailure, Statuses, FailingGates, TrailingGateEvidence, MarkerText;
  }

  // ---- The spec directory ------------------------------------------------------------------------------------------------------

  /** A build's spec directory: the marker file, and the tree git reports for it. */
  class SpecDir {
    var marker: Option<string>

    constructor ()
      ensures marker == None
    {
      marker := None;
    }

    ghost function AsBuild(tree: Tree): Build reads this {
      Build(tree, marker)
    }

    method WriteMarker(tree: Tree, evidence: string)
      modifies this
      ensures marker == Some(MarkerText(tree.Head(), evidence))
    {
      var sha := "-";
      if tree.Head().Some? {
        sha := tree.Head().value;
      }
      marker := Some(sha + ("\n" + (evidence + "\n")));
    }

    /** The gate step at the end of a build, with the runner's answers; `dir` is where the gates would run, `after` the tree
        when they have run, and `raises` says that something in the step raised, which it swallows. */
    method RunTrailingGates(tree: Tree, after: Tree, pending: nat, gates: seq<Gate>, exits: seq<Option<int>>,
                            linters: seq<string>, dir: string, raises: bool)
      returns (ran: bool)
      requires |exits| == |gates|
      modifies this
      ensures ran <==> pending == 0 && !(old(marker).Some? && MarkerIsCurrent(old(marker).value, tree))
      ensures AsBuild(if ran then after else tree)
           == AfterGateStep(old(AsBuild(tree)), pending, if raises then None else Some(Summary(gates, exits, linters, dir)), after)
    {
      ran := false;
      if pending != 0 {
        return;
      }
      if marker.Some? && MarkerIsCurrent(marker.value, tree) {
        return;
      }
      ran := true;
      hide MarkerIsCurrent, MarkerText, SummarizeGates, SkippedLinters;
      if raises {
        return;
      }
      if gates == [] {
        WriteMarker(after, NO_GATES + " in " + dir);
        return;
      }
      var results := RunGates(gates, exits);
      var skipped := ListSkippedLinters(results, linters);
      WriteMarker(after, SummarizeGates(results + skipped));
    }
  }

  /** What the gate step records about a finished plan. */
  function Summary(gates: seq<Gate>, exits: seq<Option<int>>, linters: seq<string>, dir: string): string
    requires |exits| == |gates|
  {
    if gates == [] then NO_GATES + " in " + dir
    else
      var results := ResultsOf(gates, exits);
      SummarizeGates(results + SkippedLinters(results, linters))
  }

  lemma {:induction false} StatusesAre(rs: seq<GateResult>)
    ensures |Statuses(rs)| == |rs| && forall k :: 0 <= k < |rs| ==> Statuses(rs)[k] == Status(rs[k])
  {
    if rs != [] {
      StatusesAre(rs[1..]);
    }
  }

  /** Every linter of CI has an entry in what the step records: its gate's, or one that says it was skipped. */
  lemma EveryLinterIsRecorded(gates: seq<Gate>, exits: seq<Option<int>>, linters: seq<string>, tool: string)
    requires |exits| == |gates| && tool in linters
    ensures var results := ResultsOf(gates, exits); var recorded := results + SkippedLinters(results, linters);
            var gate := if tool == "eslint" then "lint" else tool;
      if exists k :: 0 <= k < |gates| && gates[k].name == gate then exists r :: r in results && r.name == gate
      else GateResult(tool, true, true) in recorded
  {
    var results := ResultsOf(gates, exits);
    var skipped, gate := SkippedLinters(results, linters), if tool == "eslint" then "lint" else tool;
    hide SkippedLinters;
    if k :| 0 <= k < |gates| && gates[k].name == gate {
      assert results[k].name == gate;
    } else {
      var at := SkippedLintersAre(results, linters);
      var i :| 0 <= i < |linters| && linters[i] == tool;
      var k :| 0 <= k < |at| && at[k] == i;
      assert skipped[k] == GateResult(tool, true, true);
    }
  }

  /** One outcome for each gate, in order and as its exit code says, and then one "skipped" for each linter of CI that no gate
      ran for, at the places `at` of CI's list. */
  ghost predicate OutcomesOfStep(outcomes: seq<string>, gates: seq<Gate>, exits: seq<Option<int>>, linters: seq<string>, at: seq<nat>)
    requires |exits| == |gates|
  {
    && |outcomes| == |gates| + |at|
    && (forall k :: 0 <= k < |gates| ==>
          outcomes[k] == (if exits[k] == None || exits[k] == gates[k].skipCode then "skipped"
                          else if exits[k] == Some(0) then "passed" else "failed"))
    && (forall k :: |gates| <= k < |outcomes| ==> outcomes[k] == "skipped")
    && (forall j, k :: 0 <= j < k < |at| ==> at[j] < at[k])
    && (forall i: nat :: i in at <==>
          i < |linters| && forall k :: 0 <= k < |gates| ==> gates[k].name != if linters[i] == "eslint" then "lint" else linters[i])
  }

  /** The linters no gate ran for, said of the gates. */
  lemma LeftOver(gates: seq<Gate>, exits: seq<Option<int>>, linters: seq<string>) returns (at: seq<nat>)
    requires |exits| == |gates|
    ensures var skipped := SkippedLinters(ResultsOf(gates, exits), linters);
      |at| == |skipped| && forall k :: 0 <= k < |at| ==> Status(skipped[k]) == "skipped"
    ensures forall j, k :: 0 <= j < k < |at| ==> at[j] < at[k]
    ensures forall i: nat :: i in at <==>
      i < |linters| && forall k :: 0 <= k < |gates| ==> gates[k].name != if linters[i] == "eslint" then "lint" else linters[i]
  {
    at := SkippedLintersAre(ResultsOf(gates, exits), linters);
    hide SkippedLinters;
    forall i: nat | i < |linters| ensures i in at <==>
      forall k :: 0 <= k < |gates| ==> gates[k].name != if linters[i] == "eslint" then "lint" else linters[i]
    {
      NamesOfResults(gates, exits, if linters[i] == "eslint" then "lint" else linters[i]);
    }
  }

  lemma StatusOfGate(gates: seq<Gate>, exits: seq<Option<int>>, skipped: seq<GateResult>, k: nat)
    requires |exits| == |gates| && k < |gates|
    ensures k < |Statuses(ResultsOf(gates, exits) + skipped)|
    ensures Statuses(ResultsOf(gates, exits) + skipped)[k] ==
      if exits[k] == None || exits[k] == gates[k].skipCode then "skipped" else if exits[k] == Some(0) then "passed" else "failed"
  {
    var results := ResultsOf(gates, exits);
    StatusesAre(results + skipped);
    StatusOfResult(gates[k], exits[k]);
    hide *;
    assert (results + skipped)[k] == results[k] == ResultOf(gates[k], exits[k]);
  }

  lemma StatusOfSkipped(results: seq<GateResult>, skipped: seq<GateResult>, k: nat)
    requires |results| <= k < |results| + |skipped| && Status(skipped[k - |results|]) == "skipped"
    ensures |Statuses(results + skipped)| == |results| + |skipped| && Statuses(results + skipped)[k] == "skipped"
  {
    StatusesAre(results + skipped);
    hide *;
    assert (results + skipped)[k] == skipped[k - |results|];
  }

  lemma StepStatuses(gates: seq<Gate>, exits: seq<Option<int>>, linters: seq<string>) returns (at: seq<nat>)
    requires |exits| == |gates|
    ensures var results := ResultsOf(gates, exits);
      OutcomesOfStep(Statuses(results + SkippedLinters(results, linters)), gates, exits, linters, at)
  {
    var results := ResultsOf(gates, exits);
    var skipped := SkippedLinters(results, linters);
    at := LeftOver(gates, exits, linters);
    StatusesAre(results + skipped);
    hide *;
    var statuses := Statuses(results + skipped);
    assert |statuses| == |gates| + |at|;
    forall k | 0 <= k < |gates|
      ensures statuses[k] == (if exits[k] == None || exits[k] == gates[k].skipCode then "skipped"
                              else if exits[k] == Some(0) then "passed" else "failed")
    {
      StatusOfGate(gates, exits, skipped, k);
    }
    forall k | |gates| <= k < |statuses| ensures statuses[k] == "skipped" {
      StatusOfSkipped(results, skipped, k);
    }
    OutcomesAre(statuses, gates, exits, linters, at);
  }

  lemma StatusOfResult(gate: Gate, exit: Option<int>)
    ensures Status(ResultOf(gate, exit)) ==
      if exit == None || exit == gate.skipCode then "skipped" else if exit == Some(0) then "passed" else "failed"
  {
  }

  lemma OutcomesAre(outcomes: seq<string>, gates: seq<Gate>, exits: seq<Option<int>>, linters: seq<string>, at: seq<nat>)
    requires |exits| == |gates| && |outcomes| == |gates| + |at|
    requires forall k :: 0 <= k < |gates| ==>
      outcomes[k] == (if exits[k] == None || exits[k] == gates[k].skipCode then "skipped"
                      else if exits[k] == Some(0) then "passed" else "failed")
    requires forall k :: |gates| <= k < |outcomes| ==> outcomes[k] == "skipped"
    requires forall j, k :: 0 <= j < k < |at| ==> at[j] < at[k]
    requires forall i: nat :: i in at <==>
      i < |linters| && forall k :: 0 <= k < |gates| ==> gates[k].name != if linters[i] == "eslint" then "lint" else linters[i]
    ensures OutcomesOfStep(outcomes, gates, exits, linters, at)
  {
  }

  lemma NamesOfResults(gates: seq<Gate>, exits: seq<Option<int>>, name: string)
    requires |exits| == |gates|
    ensures (forall r :: r in ResultsOf(gates, exits) ==> r.name != name) <==> forall k :: 0 <= k < |gates| ==> gates[k].name != name
  {
    var results := ResultsOf(gates, exits);
    forall k | 0 <= k < |gates| ensures results[k] in results && results[k].name == gates[k].name {
    }
  }

  /** From exit codes to the reader: when the marker of a gate step is bound to the tree it is read against, the reader finds the
      outcomes of the step. */
  lemma StepReachesTheReader(gates: seq<Gate>, exits: seq<Option<int>>, linters: seq<string>, dir: string, head: Option<string>, tree: Tree)
    returns (at: seq<nat>)
    requires |exits| == |gates| && gates != [] && (head.Some? ==> IsSha(head.value)) && Bound(head, tree)
    requires PlainNames(ResultsOf(gates, exits) + SkippedLinters(ResultsOf(gates, exits), linters))
    ensures var evidence := TrailingGateEvidence(Some(MarkerText(head, Summary(gates, exits, linters, dir))), tree);
      evidence.Some? && OutcomesOfStep(GateOutcomes(evidence.value), gates, exits, linters, at)
  {
    var results := ResultsOf(gates, exits);
    at := StepStatuses(gates, exits, linters);
    RecordedResultsReachTheReader(results + SkippedLinters(results, linters), head, tree);
    hide Bound, PlainNames, TrailingGateEvidence, MarkerText, GateOutcomes, SummarizeGates, SkippedLinters, Statuses, OutcomesOfStep;
  }

  /** Where no gate was detected the step still records its evidence, and the reader of a bound marker sees no executed gate in
      it, wherever the gates would have run. */
  lemma NoGatesIsNoEvidence(linters: seq<string>, dir: string, head: Option<string>, tree: Tree)
    requires (head.Some? ==> IsSha(head.value)) && Bound(head, tree)
    ensures var evidence := TrailingGateEvidence(Some(MarkerText(head, Summary([], [], linters, dir))), tree);
      evidence.Some? && NO_GATES <= evidence.value && !ShowsAnExecutedGate(evidence.value)
  {
    var summary := NO_GATES + (" in " + dir);
    NoGatesSummary(linters, dir);
    StripKeepsSentence(" in " + dir);
    hide *;
    EvidenceReadsBackIffBound(head, summary, tree);
    SentenceShowsNothing(Strip(summary));
  }

  lemma NoGatesSummary(linters: seq<string>, dir: string)
    ensures Summary([], [], linters, dir) == NO_GATES + (" in " + dir)
  {
    hide NO_GATES;
    assert NO_GATES + " in " + dir == NO_GATES + (" in " + dir);
  }

  lemma SentenceShowsNothing(evidence: string)
    requires NO_GATES <= evidence
    ensures !ShowsAnExecutedGate(evidence)
  {
    hide NO_GATES, GateOutcomes;
  }

  lemma StripKeepsSentence(rest: string)
    ensures NO_GATES <= Strip(NO_GATES + rest) && Strip(NO_GATES + rest) != ""
  {
    assert (NO_GATES + rest)[0] == 'n' && !IsSpace('n');
    assert LStrip(NO_GATES + rest) == NO_GATES + rest;
    RStripAppend(NO_GATES, rest);
    assert RStrip(NO_GATES) == NO_GATES;
  }
}
