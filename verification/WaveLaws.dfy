/** What holds of every run of the wave runner, whatever the hooks answer. */
module WaveLaws {
  import opened Basics
  import opened ImplementationPlan
  import opened WaveScheduler
  import opened WaveRun

  // ---- One wave ----------------------------------------------------------------------------------------------

  lemma DoneById(p: Phase, h: History, i: nat)
    requires Valid(p) && i < |p.tasks|
    ensures p.tasks[i].id in CompletedIds(p, h) <==> IsDone(p, h, i)
  {
    if p.tasks[i].id in CompletedIds(p, h) {
      var j :| 0 <= j < |p.tasks| && IsDone(p, h, j) && p.tasks[j].id == p.tasks[i].id;
      assert j == i;
    }
  }

  /** What a wave's members look like when they start. */
  lemma MemberFacts(p: Phase, h: History, wave: seq<nat>, i: nat)
    requires Valid(p) && Selected(p, h, wave) && i in wave
    ensures i < |p.tasks| && p.tasks[i].status.Pending? && i !in Started(h)
    ensures forall d :: d in p.tasks[i].dependsOn ==> d in CompletedIds(p, h)
  {
    var k :| 0 <= k < |wave| && wave[k] == i;
    assert Ready(Now(p, h)[wave[k]], CompletedIds(p, h));
  }

  /** A subtask the scheduler would start: still pending, all its dependencies complete. */
  ghost predicate Startable(p: Phase, h: History, i: nat)
    requires Valid(p)
  {
    IsRemaining(p, h, i) && p.tasks[i].status.Pending? && forall d :: d in p.tasks[i].dependsOn ==> d in CompletedIds(p, h)
  }

  lemma ReadyIffStartable(p: Phase, h: History, i: nat)
    requires Valid(p) && i < |p.tasks|
    ensures Ready(Now(p, h)[i], CompletedIds(p, h)) <==> Startable(p, h, i)
  {
    DoneById(p, h, i);
  }

  /** The runner starves exactly when nothing can be started. */
  lemma EmptySelection(p: Phase, h: History)
    requires Valid(p)
    ensures Selected(p, h, []) <==> forall i: nat :: !Startable(p, h, i)
  {
    forall i | 0 <= i < |p.tasks| ensures Ready(Now(p, h)[i], CompletedIds(p, h)) <==> Startable(p, h, i) {
      ReadyIffStartable(p, h, i);
    }
    if Selected(p, h, []) {
      EmptyWaveIffNothingReady(Now(p, h), CompletedIds(p, h), Slots(p.workers, 0), []);
    }
  }

  // ---- Every run -----------------------------------------------------------------------------------------------

  lemma {:induction false} RunPrefix(p: Phase, h: History, k: nat)
    requires Valid(p) && IsRun(p, h) && k <= |h|
    ensures IsRun(p, h[..k])
    ensures k < |h| ==> h[k] != [] && Selected(p, h[..k], h[k])
  {
    if k == |h| {
      assert h[..k] == h;
    } else {
      RunPrefix(p, Front(h), k);
      assert Front(h)[..k] == h[..k];
      if k == |h| - 1 { assert h[k] == Last(h); } else { assert Front(h)[k] == h[k]; }
    }
  }

  lemma {:induction false} StartedInWave(h: History, i: nat)
    ensures i in Started(h) <==> exists k :: 0 <= k < |h| && i in h[k]
  {
    if h != [] {
      StartedInWave(Front(h), i);
      if i in Started(Front(h)) {
        var k :| 0 <= k < |Front(h)| && i in Front(h)[k];
        assert i in h[k];
      }
      if k :| 0 <= k < |h| && i in h[k] {
        assert k == |h| - 1 || Front(h)[k] == h[k];
      }
    }
  }

  lemma StartedMonotone(h: History, k: nat)
    requires k <= |h|
    ensures Started(h[..k]) <= Started(h)
  {
    forall i | i in Started(h[..k]) ensures i in Started(h) {
      StartedInWave(h[..k], i);
      var j :| 0 <= j < k && i in h[..k][j];
      assert i in h[j];
      StartedInWave(h, i);
    }
  }

  /** Every subtask that is started was pending, and no subtask is started twice: a lost one is never retried. */
  lemma NoSubtaskStartsTwice(p: Phase, h: History, j: nat, k: nat, i: nat)
    requires Valid(p) && IsRun(p, h) && j <= k < |h| && i in h[j] && i in h[k]
    ensures i < |p.tasks| && p.tasks[i].status.Pending? && j == k
  {
    RunPrefix(p, h, k);
    MemberFacts(p, h[..k], h[k], i);
    if j < k {
      assert h[..k][j] == h[j];
      StartedInWave(h[..k], i);
    }
  }

  /** Topological order: when a subtask starts in wave `k`, each dependency either was complete before the phase
      or is a subtask of this phase that was accepted in an earlier wave. */
  lemma DependenciesCompleteFirst(p: Phase, h: History, k: nat, i: nat, d: Id)
    requires Valid(p) && IsRun(p, h) && k < |h| && i in h[k] && i < |p.tasks| && d in p.tasks[i].dependsOn
    ensures exists n: nat :: n < |p.tasks| && p.tasks[n].id == d &&
              (p.tasks[n].status.Completed? || (p.fate[n].Accepted? && exists j :: 0 <= j < k && n in h[j]))
  {
    RunPrefix(p, h, k);
    MemberFacts(p, h[..k], h[k], i);
    var n :| 0 <= n < |p.tasks| && IsDone(p, h[..k], n) && p.tasks[n].id == d;
    if !p.tasks[n].status.Completed? {
      StartedInWave(h[..k], n);
      var j :| 0 <= j < k && n in h[..k][j];
      assert n in h[j];
    }
  }

  /** Concurrency safety inside wave `k`: at most `workers` members, and any two of them touch disjoint declared
      files and neither depends on the other. */
  lemma WavesAreSafe(p: Phase, h: History, k: nat, a: nat, b: nat)
    requires Valid(p) && IsRun(p, h) && k < |h| && a < b < |h[k]|
    ensures |h[k]| <= if p.workers < 1 then 1 else p.workers
    ensures h[k][a] < |p.tasks| && h[k][b] < |p.tasks|
    ensures var s, t := p.tasks[h[k][a]], p.tasks[h[k][b]];
            && s.files != {} && t.files != {} && s.files * t.files == {}
            && s.id !in t.dependsOn && t.id !in s.dependsOn
  {
    RunPrefix(p, h, k);
    WaveMembersAreCompatible(Now(p, h[..k]), CompletedIds(p, h[..k]), [], Slots(p.workers, 0), h[k], a, b);
  }

  // ---- What never starts ------------------------------------------------------------------------------------------

  /** `stuck` is a set of unfinished subtasks each of which waits for another member of the set, or for an id
      that this run never completes. */
  ghost predicate WaitsForever(p: Phase, h: History, stuck: set<nat>)
    requires Valid(p)
  {
    forall i :: i in stuck ==>
      && i < |p.tasks| && !p.tasks[i].status.Completed?
      && exists d :: d in p.tasks[i].dependsOn && (d !in CompletedIds(p, h) || HasId(p, stuck, d))
  }

  ghost predicate HasId(p: Phase, positions: set<nat>, d: Id) {
    exists j :: j in positions && j < |p.tasks| && p.tasks[j].id == d
  }

  lemma {:induction false} StuckNeverStarts(p: Phase, h: History, whole: History, stuck: set<nat>)
    requires Valid(p) && IsRun(p, whole) && h <= whole && WaitsForever(p, whole, stuck)
    ensures stuck !! Started(h)
    decreases |h|
  {
    if h != [] {
      var before := Front(h);
      StuckNeverStarts(p, before, whole, stuck);
      RunPrefix(p, whole, |before|);
      assert whole[..|before|] == before && whole[|before|] == Last(h);
      forall i | i in Last(h) ensures i !in stuck {
        MemberFacts(p, before, Last(h), i);
        if i in stuck {
          var d :| d in p.tasks[i].dependsOn && (d !in CompletedIds(p, whole) || HasId(p, stuck, d));
          StartedMonotone(whole, |before|);
          var n :| 0 <= n < |p.tasks| && IsDone(p, before, n) && p.tasks[n].id == d;
          assert IsDone(p, whole, n);
          if HasId(p, stuck, d) {
            var j :| j in stuck && j < |p.tasks| && p.tasks[j].id == d;
            DoneById(p, before, j);
          }
        }
      }
    }
  }

  /** `path` follows dependencies from its first to its last subtask, none of them finished before the phase. */
  ghost predicate DependencyPath(p: Phase, path: seq<nat>) {
    && path != []
    && (forall k :: 0 <= k < |path| ==> path[k] < |p.tasks| && !p.tasks[path[k]].status.Completed?)
    && (forall k :: 0 <= k < |path| - 1 ==> p.tasks[path[k + 1]].id in p.tasks[path[k]].dependsOn)
  }

  /** A cycle: the path closes on its first subtask. */
  ghost predicate DependencyCycle(p: Phase, cycle: seq<nat>) {
    DependencyPath(p, cycle) && p.tasks[cycle[0]].id in p.tasks[cycle[|cycle| - 1]].dependsOn
  }

  /** No subtask on a dependency cycle, or leading into one through unfinished subtasks, is ever started. */
  lemma CyclicNeverStarts(p: Phase, h: History, lead: seq<nat>, cycle: seq<nat>)
    requires Valid(p) && IsRun(p, h) && DependencyCycle(p, cycle)
    requires lead != [] ==> DependencyPath(p, lead + cycle)
    ensures forall i :: i in lead + cycle ==> i !in Started(h)
  {
    var path := lead + cycle;
    assert DependencyPath(p, path) by { if lead == [] { assert path == cycle; } }
    hide IsRun;
    forall k | 0 <= k < |path| ensures HasNext(p, path, path[k]) {
      var next := if k < |path| - 1 then path[k + 1] else cycle[0];
      assert path[|lead|] == cycle[0] && next in path;
      assert k == |path| - 1 ==> path[k] == cycle[|cycle| - 1];
      assert p.tasks[next].id in p.tasks[path[k]].dependsOn;
    }
    StuckNeverStarts(p, h, h, Members(path));
  }

  /** Some subtask of the path is a dependency of subtask `i`. */
  ghost predicate HasNext(p: Phase, path: seq<nat>, i: nat) {
    i < |p.tasks| && exists j :: j in path && j < |p.tasks| && p.tasks[j].id in p.tasks[i].dependsOn
  }

  /** A subtask that depends, through any chain of unfinished subtasks, on one that was lost never starts. */
  lemma DependentsOfLostNeverStart(p: Phase, h: History, path: seq<nat>)
    requires Valid(p) && IsRun(p, h) && DependencyPath(p, path) && |path| > 1 && IsLost(p, h, path[|path| - 1])
    ensures forall k :: 0 <= k < |path| - 1 ==> path[k] !in Started(h)
  {
    var upstream := path[..|path| - 1];
    var stuck := Members(upstream);
    forall i | i in stuck
      ensures i < |p.tasks| && !p.tasks[i].status.Completed?
      ensures exists d :: d in p.tasks[i].dependsOn && (d !in CompletedIds(p, h) || HasId(p, stuck, d))
    {
      var k :| 0 <= k < |upstream| && upstream[k] == i;
      var next := path[k + 1];
      assert p.tasks[next].id in p.tasks[i].dependsOn;
      if k + 1 < |upstream| {
        assert upstream[k + 1] in stuck;
        assert HasId(p, stuck, p.tasks[next].id);
      } else {
        DoneById(p, h, next);
      }
    }
    StuckNeverStarts(p, h, h, stuck);
    forall k | 0 <= k < |path| - 1 ensures path[k] !in Started(h) {
      assert upstream[k] in stuck;
    }
  }

  /** A phase with an uncompleted cycle always ends stalled. */
  lemma CycleAlwaysStalls(p: Phase, h: History, e: Ending, r: PhaseRunResult, cycle: seq<nat>)
    requires Valid(p) && Ends(p, h, e) && Reports(p, h, e, r) && DependencyCycle(p, cycle)
    ensures r.stalled && !r.Ok()
  {
    CyclicNeverStarts(p, h, [], cycle);
    assert cycle[0] in [] + cycle;
    assert IsRemaining(p, h, cycle[0]);
  }

  // ---- The account a run gives --------------------------------------------------------------------------------------

  lemma {:induction false} ListedMembers(p: Phase, h: History, e: Ending, n: nat)
    requires Valid(p) && n <= |p.tasks|
    ensures forall id :: id in ListedIds(p, h, e, n) <==> exists i :: 0 <= i < n && Listed(p, h, e, i) && p.tasks[i].id == id
  {
    if n > 0 {
      ListedMembers(p, h, e, n - 1);
    }
  }

  /** Every id is completed, failed or remaining; completed and failed are disjoint, completed and remaining are
      disjoint, and remaining meets failed only on a no-progress exit. */
  lemma EveryIdIsAccountedFor(p: Phase, h: History, e: Ending, r: PhaseRunResult, i: nat)
    requires Valid(p) && Ends(p, h, e) && Reports(p, h, e, r) && i < |p.tasks|
    ensures var id := p.tasks[i].id;
            && (id in r.completedIds || id in r.failedIds || id in r.remainingIds)
            && !(id in r.completedIds && id in r.failedIds)
            && !(id in r.completedIds && id in r.remainingIds)
            && (id in r.failedIds && id in r.remainingIds ==> e.NoProgress?)
  {
    ListedMembers(p, h, e, |p.tasks|);
    DoneById(p, h, i);
    if p.tasks[i].id in r.failedIds {
      var j :| 0 <= j < |p.tasks| && IsLost(p, h, j) && p.tasks[j].id == p.tasks[i].id;
      assert j == i;
    }
    if p.tasks[i].id in r.remainingIds {
      var j :| 0 <= j < |p.tasks| && Listed(p, h, e, j) && p.tasks[j].id == p.tasks[i].id;
      assert j == i;
    }
    LostWasPending(p, h, i);
    assert IsRemaining(p, h, i) ==> Listed(p, h, e, i);
  }

  lemma LostWasPending(p: Phase, h: History, i: nat)
    requires Valid(p) && IsRun(p, h)
    ensures i in Started(h) ==> i < |p.tasks| && p.tasks[i].status.Pending?
  {
    if i in Started(h) {
      StartedInWave(h, i);
      var k :| 0 <= k < |h| && i in h[k];
      NoSubtaskStartsTwice(p, h, k, k, i);
    }
  }

  /** `ok` holds exactly when every subtask of the phase is complete. */
  lemma OkIffAllComplete(p: Phase, h: History, e: Ending, r: PhaseRunResult)
    requires Valid(p) && Ends(p, h, e) && Reports(p, h, e, r)
    ensures r.Ok() <==> forall i :: 0 <= i < |p.tasks| ==> p.tasks[i].id in r.completedIds
    ensures r.Ok() <==> forall i :: 0 <= i < |p.tasks| ==> IsDone(p, h, i)
  {
    forall i | 0 <= i < |p.tasks| ensures p.tasks[i].id in r.completedIds <==> IsDone(p, h, i) {
      DoneById(p, h, i);
    }
    if r.Ok() {
      forall i | 0 <= i < |p.tasks| ensures IsDone(p, h, i) {
        EveryIdIsAccountedFor(p, h, e, r, i);
      }
    } else if forall i :: 0 <= i < |p.tasks| ==> IsDone(p, h, i) {
      AllDoneIsOk(p, h, e, r);
    }
  }

  lemma {:induction false} NothingListed(p: Phase, h: History, e: Ending, n: nat)
    requires Valid(p) && n <= |p.tasks| && forall i :: 0 <= i < n ==> !Listed(p, h, e, i)
    ensures ListedIds(p, h, e, n) == []
  {
    if n > 0 {
      NothingListed(p, h, e, n - 1);
    }
  }

  lemma AllDoneIsOk(p: Phase, h: History, e: Ending, r: PhaseRunResult)
    requires Valid(p) && Ends(p, h, e) && Reports(p, h, e, r)
    requires forall i :: 0 <= i < |p.tasks| ==> IsDone(p, h, i)
    ensures r.Ok()
  {
    forall i: nat ensures !IsRemaining(p, h, i) && !Listed(p, h, e, i) && !IsLost(p, h, i) {
      LostWasPending(p, h, i);
      assert i < |p.tasks| ==> IsDone(p, h, i);
    }
    assert FailedIds(p, h) == {};
    NothingListed(p, h, e, |p.tasks|);
    if e.NoProgress? {
      var i := Last(h)[0];
      RunPrefix(p, h, |h| - 1);
      assert i in Last(h);
      LostWasPending(p, h, i);
    }
  }

  /** The hooks' verdicts leave the runner no choice: a phase has one run and one way to end. */
  lemma {:induction false} RunsAgree(p: Phase, h: History, g: History, k: nat)
    requires Valid(p) && IsRun(p, h) && IsRun(p, g) && k <= |h| && k <= |g|
    ensures h[..k] == g[..k]
  {
    hide IsRun, FirstFit, CompletedIds, Now;
    if k > 0 {
      RunsAgree(p, h, g, k - 1);
      RunPrefix(p, h, k - 1);
      RunPrefix(p, g, k - 1);
      WaveIsDetermined(Now(p, h[..k - 1]), CompletedIds(p, h[..k - 1]), [], Slots(p.workers, 0), h[k - 1], g[k - 1]);
      assert h[..k] == h[..k - 1] + [h[k - 1]] && g[..k] == g[..k - 1] + [g[k - 1]];
    }
  }

  /** A finished run cannot be continued. */
  lemma EndedRunIsMaximal(p: Phase, h: History, e: Ending, g: History)
    requires Valid(p) && Ends(p, h, e) && IsRun(p, g) && |h| <= |g|
    ensures g == h
  {
    RunsAgree(p, h, g, |h|);
    assert h[..|h|] == h;
    if |h| < |g| {
      RunPrefix(p, g, |h|);
      RunPrefix(p, g, |h| + 1);
      var w := g[|h|];
      assert Front(g[..|h| + 1]) == h;
      match e {
        case Finished => MemberFacts(p, h, w, w[0]); assert w[0] in w; assert IsRemaining(p, h, w[0]);
        case Starved => WaveIsDetermined(Now(p, h), CompletedIds(p, h), [], Slots(p.workers, 0), w, []);
        case NoProgress =>
      }
    }
  }

  lemma OutcomeIsDetermined(p: Phase, h: History, e: Ending, g: History, f: Ending)
    requires Valid(p) && Ends(p, h, e) && Ends(p, g, f)
    ensures h == g && e == f
  {
    if |h| <= |g| { EndedRunIsMaximal(p, h, e, g); } else { EndedRunIsMaximal(p, g, f, h); }
  }

  /** First-fit always selects some wave, possibly the empty one. */
  lemma {:induction false} SelectionExists(p: Phase, h: History, i: nat) returns (wave: seq<nat>)
    requires Valid(p) && i <= |p.tasks|
    ensures FirstFitBelow(Now(p, h), CompletedIds(p, h), [], Slots(p.workers, 0), wave, i)
  {
    var tasks, completed, slots := Now(p, h), CompletedIds(p, h), Slots(p.workers, 0);
    if i == 0 {
      wave := [];
    } else {
      hide Now, CompletedIds;
      wave := SelectionExists(p, h, i - 1);
      hide FirstFitBelow;
      if |wave| < slots && Admissible(tasks[i - 1], completed, [] + At(tasks, wave)) {
        ChooseNext(tasks, completed, [], slots, wave, i - 1);
        wave := wave + [i - 1];
      } else {
        PassOver(tasks, completed, [], slots, wave, i - 1);
      }
    }
  }

  /** Every run that can go on reaches an end. */
  lemma {:induction false} RunsEnd(p: Phase, h: History) returns (whole: History, e: Ending)
    requires Valid(p) && IsRun(p, h) && (h != [] ==> Progressed(p, Last(h)))
    ensures Ends(p, whole, e)
    decreases |Unfinished(p)| - |h|
  {
    whole := h;
    if forall i: nat :: !IsRemaining(p, h, i) {
      e := Finished;
    } else {
      var wave := SelectionExists(p, h, |p.tasks|);
      if wave == [] {
        e := Starved;
      } else {
        whole := h + [wave];
        assert Front(whole) == h && Last(whole) == wave;
        WaveSizesAddUp(p, whole);
        if Progressed(p, wave) {
          whole, e := RunsEnd(p, whole);
        } else {
          e := NoProgress;
        }
      }
    }
  }

  /** Every phase has an outcome, whatever its verdicts are. */
  lemma OutcomeExists(p: Phase) returns (h: History, e: Ending, r: PhaseRunResult)
    requires Valid(p)
    ensures Ends(p, h, e) && Reports(p, h, e, r)
  {
    h, e := RunsEnd(p, []);
    r := PhaseRunResult(CompletedIds(p, h), FailedIds(p, h), !e.Finished?, ListedIds(p, h, e, |p.tasks|), |h|);
  }

  // ---- How long a run takes -----------------------------------------------------------------------------------------

  /** The subtasks that are not complete when the phase begins. */
  ghost function Unfinished(p: Phase): set<nat> {
    set i | 0 <= i < |p.tasks| && !p.tasks[i].status.Completed? :: i
  }

  ghost function TotalStarts(h: History): nat {
    if h == [] then 0 else TotalStarts(Front(h)) + |Last(h)|
  }

  lemma {:induction false} IncreasingIsASet(w: seq<nat>, bound: nat)
    requires StrictlyIncreasing(w, bound)
    ensures |Members(w)| == |w|
  {
    if w != [] {
      var shorter, top := w[..|w| - 1], w[|w| - 1];
      IncreasingIsASet(shorter, bound);
      assert Members(w) == Members(shorter) + {top};
    }
  }

  /** The waves never overlap: their sizes sum to the number of subtasks started, at most the number of
      unfinished subtasks, and no wave is empty. */
  lemma {:induction false} WaveSizesAddUp(p: Phase, h: History)
    requires Valid(p) && IsRun(p, h)
    ensures TotalStarts(h) == |Started(h)| && Started(h) <= Unfinished(p)
    ensures |h| <= TotalStarts(h) <= |Unfinished(p)|
  {
    if h != [] {
      var before, wave := Front(h), Last(h);
      WaveSizesAddUp(p, before);
      IncreasingIsASet(wave, |p.tasks|);
      NewMembers(p, before, wave);
      hide IsRun, Unfinished;
      assert |Started(before) + Members(wave)| == |Started(before)| + |Members(wave)|;
    }
    SubsetSize(Started(h), Unfinished(p));
  }

  /** A wave starts unfinished subtasks that were not started before. */
  lemma NewMembers(p: Phase, before: History, wave: seq<nat>)
    requires Valid(p) && Selected(p, before, wave)
    ensures Members(wave) <= Unfinished(p) && Started(before) !! Members(wave)
  {
    forall i | i in Members(wave) ensures i !in Started(before) && i in Unfinished(p) {
      MemberFacts(p, before, wave, i);
    }
  }

  /** Every wave has at most `workers` members. */
  lemma {:induction false} WorkersBoundStarts(p: Phase, h: History, workers: nat)
    requires Valid(p) && IsRun(p, h) && workers == Slots(p.workers, 0)
    ensures TotalStarts(h) <= workers * |h|
  {
    if h != [] {
      WorkersBoundStarts(p, Front(h), workers);
      assert |Last(h)| <= workers;
      assert workers * |h| == workers * (|h| - 1) + workers;
    }
  }

  /** A chain of unfinished subtasks, each depending on the one before it. */
  ghost predicate DependencyChain(p: Phase, chain: seq<nat>) {
    && (forall k :: 0 <= k < |chain| ==> chain[k] < |p.tasks| && !p.tasks[chain[k]].status.Completed?)
    && (forall k :: 0 <= k < |chain| - 1 ==> p.tasks[chain[k]].id in p.tasks[chain[k + 1]].dependsOn)
  }

  /** A subtask at the end of a chain starts no earlier than the length of the chain allows. */
  lemma {:induction false} ChainNeedsWaves(p: Phase, h: History, chain: seq<nat>, k: nat)
    requires Valid(p) && IsRun(p, h) && DependencyChain(p, chain) && chain != []
    requires k < |h| && chain[|chain| - 1] in h[k]
    ensures |chain| <= k + 1
    decreases |chain|
  {
    if |chain| > 1 {
      var previous, shorter := chain[|chain| - 2], chain[..|chain| - 1];
      DependenciesCompleteFirst(p, h, k, chain[|chain| - 1], p.tasks[previous].id);
      var j :| 0 <= j < k && previous in h[j];
      ChainNeedsWaves(p, h, shorter, j);
    }
  }

  lemma AllDoneMeansAllStarted(p: Phase, h: History)
    requires Valid(p) && IsRun(p, h)
    requires forall i :: 0 <= i < |p.tasks| ==> IsDone(p, h, i)
    ensures Started(h) == Unfinished(p)
  {
    WaveSizesAddUp(p, h);
    forall i | i in Unfinished(p) ensures i in Started(h) {
      assert IsDone(p, h, i);
    }
  }

  /** A run uses at most as many waves as there are unfinished subtasks. If it ends ok it started every one of
      them, so it needs at least that number divided by `workers` waves. */
  lemma WaveBounds(p: Phase, h: History, e: Ending, r: PhaseRunResult, workers: nat)
    requires Valid(p) && Ends(p, h, e) && Reports(p, h, e, r) && workers == if p.workers < 1 then 1 else p.workers
    ensures r.waves <= |Unfinished(p)|
    ensures r.Ok() ==> workers * r.waves >= |Unfinished(p)|
  {
    WaveSizesAddUp(p, h);
    if r.Ok() {
      OkIffAllComplete(p, h, e, r);
      AllDoneMeansAllStarted(p, h);
      WorkersBoundStarts(p, h, workers);
    }
  }

  /** A run that ends ok uses at least as many waves as the longest chain of unfinished dependencies. */
  lemma ChainBound(p: Phase, h: History, e: Ending, r: PhaseRunResult, chain: seq<nat>)
    requires Valid(p) && Ends(p, h, e) && Reports(p, h, e, r) && DependencyChain(p, chain) && r.Ok()
    ensures r.waves >= |chain|
  {
    if chain != [] {
      OkIffAllComplete(p, h, e, r);
      AllDoneMeansAllStarted(p, h);
      var last := chain[|chain| - 1];
      assert last in Unfinished(p);
      ChainNeedsWaves(p, h, chain, WaveOf(h, last));
    }
  }

  // ---- When nothing goes wrong ------------------------------------------------------------------------------------------

  /** `rank` orders the unfinished subtasks so that each dependency of one is complete before the phase or is an
      unfinished subtask of this phase with a smaller rank. */
  ghost predicate Schedulable(p: Phase, rank: seq<nat>) {
    && |rank| == |p.tasks|
    && forall i, d :: i in Unfinished(p) && d in p.tasks[i].dependsOn ==>
         exists n :: 0 <= n < |p.tasks| && p.tasks[n].id == d && (p.tasks[n].status.Completed? || rank[n] < rank[i])
  }

  ghost predicate NothingFails(p: Phase)
    requires Valid(p)
  {
    forall i :: 0 <= i < |p.tasks| ==> p.fate[i].Accepted?
  }

  /** While something remains, the remaining subtask of least rank can start. */
  lemma LeastRankIsStartable(p: Phase, h: History, rank: seq<nat>, i: nat)
    requires Valid(p) && NothingFails(p) && Schedulable(p, rank)
    requires forall i :: i in Unfinished(p) ==> p.tasks[i].status.Pending?
    requires IsRemaining(p, h, i)
    ensures exists k: nat :: Startable(p, h, k)
    decreases rank[i]
  {
    if !Startable(p, h, i) {
      var d :| d in p.tasks[i].dependsOn && d !in CompletedIds(p, h);
      assert i in Unfinished(p);
      var n :| 0 <= n < |p.tasks| && p.tasks[n].id == d && (p.tasks[n].status.Completed? || rank[n] < rank[i]);
      DoneById(p, h, n);
      LeastRankIsStartable(p, h, rank, n);
    }
  }

  /** The wave in which position `i` started. */
  ghost function WaveOf(h: History, i: nat): (k: nat)
    requires i in Started(h)
    ensures k < |h| && i in h[k]
  {
    StartedInWave(h, i);
    var k :| 0 <= k < |h| && i in h[k];
    k
  }

  /** When every session, merge and gate succeeds, a phase runs to ok exactly when its unfinished subtasks are all
      pending and can be ranked: no cycle among them, and no dependency outside the phase. */
  lemma SucceedsIffSchedulable(p: Phase, h: History, e: Ending, r: PhaseRunResult)
    requires Valid(p) && NothingFails(p) && Ends(p, h, e) && Reports(p, h, e, r)
    ensures r.Ok() <==> && (forall i :: i in Unfinished(p) ==> p.tasks[i].status.Pending?)
                        && exists rank :: Schedulable(p, rank)
  {
    OkIffAllComplete(p, h, e, r);
    if r.Ok() {
      forall i | i in Unfinished(p) ensures p.tasks[i].status.Pending? {
        LostWasPending(p, h, i);
      }
      var rank := seq(|p.tasks|, i requires 0 <= i < |p.tasks| => if i in Started(h) then WaveOf(h, i) else 0);
      forall i, d | i in Unfinished(p) && d in p.tasks[i].dependsOn
        ensures exists n :: 0 <= n < |p.tasks| && p.tasks[n].id == d &&
                  (p.tasks[n].status.Completed? || rank[n] < rank[i])
      {
        DependenciesCompleteFirst(p, h, WaveOf(h, i), i, d);
        var n: nat :| n < |p.tasks| && p.tasks[n].id == d &&
          (p.tasks[n].status.Completed? || (p.fate[n].Accepted? && exists j :: 0 <= j < WaveOf(h, i) && n in h[j]));
        if !p.tasks[n].status.Completed? {
          var j :| 0 <= j < WaveOf(h, i) && n in h[j];
          StartedInWave(h, n);
          NoSubtaskStartsTwice(p, h, if j < rank[n] then j else rank[n], if j < rank[n] then rank[n] else j, n);
        }
      }
      assert Schedulable(p, rank);
    } else if rank :| (forall i :: i in Unfinished(p) ==> p.tasks[i].status.Pending?) && Schedulable(p, rank) {
      EmptySelection(p, h);
      forall i | 0 <= i < |p.tasks| ensures IsDone(p, h, i) {
        if IsRemaining(p, h, i) {
          LeastRankIsStartable(p, h, rank, i);
          RunWithoutFailureProgresses(p, h);
        }
      }
    }
  }

  lemma RunWithoutFailureProgresses(p: Phase, h: History)
    requires Valid(p) && NothingFails(p) && IsRun(p, h)
    ensures h != [] ==> Progressed(p, Last(h))
  {
    if h != [] {
      assert Last(h)[0] in Last(h);
      MemberFacts(p, Front(h), Last(h), Last(h)[0]);
    }
  }
}
