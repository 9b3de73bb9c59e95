/** The coder's dispatch to the wave runner (coder.py, `_maybe_run_parallel_phase`). */
module Coder {
  import opened Basics
  import opened ImplementationPlan
  import opened WaveScheduler
  import opened WaveRun
  import opened ParallelIntegration
  import opened ParallelRunner
  import WaveLaws

  /** Two pending subtasks that can provably run together. */
  predicate Independent(a: Task, b: Task) {
    a.id !in b.dependsOn && b.id !in a.dependsOn && !Conflicts(a, b)
  }

  ghost predicate PendingPair(tasks: seq<Task>, i: nat, j: nat) {
    i < j < |tasks| && tasks[i].status.Pending? && tasks[j].status.Pending?
  }

  /** More than one worker, and two pending subtasks that are declared, or can be shown, to run together. */
  ghost predicate Eligible(tasks: seq<Task>, parallelSafe: bool, workers: int) {
    && workers > 1
    && (exists i: nat, j: nat :: PendingPair(tasks, i, j) && (parallelSafe || Independent(tasks[i], tasks[j])))
  }

  /** That is: two pending subtasks of a plan that declares the phase safe, or two that do not depend on each other and whose
      files are known and disjoint. */
  lemma EligibleIff(tasks: seq<Task>, parallelSafe: bool, workers: int)
    ensures Eligible(tasks, parallelSafe, workers) <==> workers > 1 && exists i, j ::
      && 0 <= i < j < |tasks| && tasks[i].status == Pending && tasks[j].status == Pending
      && (parallelSafe || (&& tasks[i].id !in tasks[j].dependsOn && tasks[j].id !in tasks[i].dependsOn
                           && tasks[i].files != {} && tasks[j].files != {} && tasks[i].files * tasks[j].files == {}))
  {
    if Eligible(tasks, parallelSafe, workers) {
      var i: nat, j: nat :| PendingPair(tasks, i, j) && (parallelSafe || Independent(tasks[i], tasks[j]));
      assert 0 <= i < j < |tasks| && tasks[i].status == Pending && tasks[j].status == Pending
        && (parallelSafe || (&& tasks[i].id !in tasks[j].dependsOn && tasks[j].id !in tasks[i].dependsOn
                             && tasks[i].files != {} && tasks[j].files != {} && tasks[i].files * tasks[j].files == {}));
    }
    if i, j :| 0 <= i < j < |tasks| && tasks[i].status == Pending && tasks[j].status == Pending
               && (parallelSafe || (&& tasks[i].id !in tasks[j].dependsOn && tasks[j].id !in tasks[i].dependsOn
                                    && tasks[i].files != {} && tasks[j].files != {} && tasks[i].files * tasks[j].files == {})) {
      assert PendingPair(tasks, i, j) && (parallelSafe || Independent(tasks[i], tasks[j]));
    }
  }

  method IsPhaseParallelEligible(tasks: seq<Task>, parallelSafe: bool, workers: int) returns (eligible: bool)
    ensures eligible <==> Eligible(tasks, parallelSafe, workers)
  {
    if workers <= 1 {
      return false;
    }
    var pending: seq<Task> := [];
    ghost var at: seq<nat> := [];
    for k := 0 to |tasks|
      invariant |pending| == |at| && StrictlyIncreasing(at, k)
      invariant forall n :: 0 <= n < |at| ==> pending[n] == tasks[at[n]] && tasks[at[n]].status.Pending?
      invariant forall m :: 0 <= m < k && tasks[m].status.Pending? ==> m in at
    {
      if tasks[k].status.Pending? {
        pending, at := pending + [tasks[k]], at + [k];
      }
    }
    if |pending| < 2 {
      assert forall i: nat, j: nat :: PendingPair(tasks, i, j) ==> i in at && j in at;
      return false;
    }
    if parallelSafe {
      assert PendingPair(tasks, at[0], at[1]);
      return true;
    }
    eligible := FindIndependentPair(tasks, pending, at);
  }

  /** The pair loop over the pending subtasks. */
  method FindIndependentPair(tasks: seq<Task>, pending: seq<Task>, ghost at: seq<nat>) returns (found: bool)
    requires |pending| == |at| && StrictlyIncreasing(at, |tasks|)
    requires forall n :: 0 <= n < |at| ==> pending[n] == tasks[at[n]] && tasks[at[n]].status.Pending?
    requires forall m :: 0 <= m < |tasks| && tasks[m].status.Pending? ==> m in at
    ensures found <==> exists i: nat, j: nat :: PendingPair(tasks, i, j) && Independent(tasks[i], tasks[j])
  {
    for i := 0 to |pending|
      invariant forall m, n :: 0 <= m < i && m < n < |pending| ==> !Independent(pending[m], pending[n])
    {
      for j := i + 1 to |pending|
        invariant forall m, n :: 0 <= m < i && m < n < |pending| ==> !Independent(pending[m], pending[n])
        invariant forall n :: i < n < j ==> !Independent(pending[i], pending[n])
      {
        if pending[i].id in pending[j].dependsOn || pending[j].id in pending[i].dependsOn {
          continue;
        }
        if !Conflicts(pending[i], pending[j]) {
          assert PendingPair(tasks, at[i], at[j]);
          return true;
        }
      }
    }
    forall i: nat, j: nat | PendingPair(tasks, i, j) ensures !Independent(tasks[i], tasks[j]) {
      var m :| 0 <= m < |at| && at[m] == i;
      var n :| 0 <= n < |at| && at[n] == j;
    }
    return false;
  }

  /** A phase as loaded from the plan file. */
  datatype PlanPhase = PlanPhase(number: int, parallelSafe: bool, subtasks: seq<Subtask>)

  datatype Dispatch = NotHandled | Handled | MetadataChanged

  /** A phase the wave runner was given, with what it reported, if it came back. */
  datatype Sent = Sent(phase: int, result: Option<PhaseRunResult>)

  /** The run came back, and stalled or had failures. */
  predicate Unclean(s: Sent) {
    s.result.Some? && (s.result.value.stalled || s.result.value.failedIds != {})
  }

  /** A phase number under which a run stalled or had failures is disabled, and nothing was sent under it since. A run that
      raised disables nothing. */
  ghost predicate NeverResent(sent: seq<Sent>, disabled: set<int>) {
    && (forall j :: 0 <= j < |sent| && Unclean(sent[j]) ==> sent[j].phase in disabled)
    && (forall j, k :: 0 <= j < k < |sent| && sent[j].phase == sent[k].phase ==> !Unclean(sent[j]))
  }

  lemma NotResentIs(sent: seq<Sent>, disabled: set<int>)
    ensures NeverResent(sent, disabled) ==>
      forall j :: 0 <= j < |sent| && sent[j].result.Some? && (sent[j].result.value.stalled || sent[j].result.value.failedIds != {}) ==>
        sent[j].phase in disabled && forall k :: j < k < |sent| ==> sent[k].phase != sent[j].phase
  {
  }

  lemma OneMoreSent(sent: seq<Sent>, disabled: set<int>, s: Sent)
    requires NeverResent(sent, disabled) && s.phase !in disabled
    ensures NeverResent(sent + [s], if Unclean(s) then disabled + {s.phase} else disabled)
  {
  }

  class Coder {
    var disabledPhases: set<int>
    ghost var sent: seq<Sent>   // every phase the wave runner was given, with what it reported

    ghost predicate Valid()
      reads this
    {
      NeverResent(sent, disabledPhases)
    }

    constructor ()
      ensures Valid() && sent == [] && disabledPhases == {}
    {
      disabledPhases, sent := {}, [];
    }

    /** `ready` says whether the plan loads and the runner can be set up (anything else is swallowed), `owned` whether the
        subtask was found in the plan; `phase` is then the phase that owns it, and `hooks` are made for it. A metadata
        change ends the build, so what is disabled no longer matters. "Handled" means that some subtask of the phase is
        complete, whether or not this run completed it. A run that raises, when wave `raisesAt` is announced, is swallowed:
        whatever its earlier waves did, tampering included, the phase stays enabled and the build goes on. */
    method MaybeRunParallelPhase(ready: bool, owned: bool, phase: PlanPhase, workers: int, hooks: PhaseHooks, raisesAt: nat)
      returns (d: Dispatch, ghost ran: bool, ghost result: Option<PhaseRunResult>, ghost p: Phase, ghost h: History, ghost e: Ending)
      requires Valid() && UniqueIds(Views(phase.subtasks)) && hooks.metadataErrors == []
      modifies this, hooks, phase.subtasks
      ensures p == Phase(old(Views(phase.subtasks)), workers, Fates(old(Views(phase.subtasks)), hooks.answers))
      ensures !d.MetadataChanged? ==> Valid()
      ensures !d.MetadataChanged? ==>
        forall j :: 0 <= j < |sent| && sent[j].result.Some? && (sent[j].result.value.stalled || sent[j].result.value.failedIds != {}) ==>
          sent[j].phase in disabledPhases && forall k :: j < k < |sent| ==> sent[k].phase != sent[j].phase
      ensures ran <==> ready && owned && phase.number !in old(disabledPhases) && Eligible(p.tasks, phase.parallelSafe, workers)
      ensures !ran ==> d == NotHandled && sent == old(sent) && disabledPhases == old(disabledPhases)
      ensures ran ==> sent == old(sent) + [Sent(phase.number, result)]
      ensures ran && result.None? ==>
        && raisesAt != 0 && Interrupted(p, h, raisesAt, Views(phase.subtasks))
        && d == NotHandled && disabledPhases == old(disabledPhases)
      ensures ran && result.Some? ==> Performs(p, h, e, result.value, Views(phase.subtasks)) && (raisesAt == 0 || |h| < raisesAt)
      ensures d.MetadataChanged? <==> ran && result.Some? && Tampered(p, h, hooks.answers)
      ensures ran && result.Some? && !d.MetadataChanged? ==>
        && (d.Handled? <==> result.value.completedIds != {})
        && disabledPhases == old(disabledPhases) +
             if result.value.stalled || result.value.failedIds != {} then {phase.number} else {}
    {
      ran, result, h, e := false, None, [], Finished;
      p := Phase(Views(phase.subtasks), workers, Fates(Views(phase.subtasks), hooks.answers));
      d := NotHandled;
      if !ready || !owned || phase.number in disabledPhases {
        NotResentIs(sent, disabledPhases);
        return;
      }
      var eligible := IsPhaseParallelEligible(Views(phase.subtasks), phase.parallelSafe, workers);
      hide Performs, Interrupted, NeverResent, UniqueIds, Tampered, Eligible;
      if eligible {
        ran := true;
        d, result, h, e := Send(phase, workers, hooks, raisesAt, p);
      }
      assert !d.MetadataChanged? ==> NeverResent(sent, disabledPhases);
      NotResentIs(sent, disabledPhases);
    }

    /** Gives the phase to the wave runner and draws the conclusions. */
    method Send(phase: PlanPhase, workers: int, hooks: PhaseHooks, raisesAt: nat, ghost p: Phase)
      returns (d: Dispatch, ghost result: Option<PhaseRunResult>, ghost h: History, ghost e: Ending)
      requires Valid() && UniqueIds(Views(phase.subtasks)) && hooks.metadataErrors == [] && phase.number !in disabledPhases
      requires p == Phase(Views(phase.subtasks), workers, Fates(Views(phase.subtasks), hooks.answers))
      modifies this, hooks, phase.subtasks
      ensures !d.MetadataChanged? ==> Valid()
      ensures sent == old(sent) + [Sent(phase.number, result)]
      ensures result.None? ==>
        && raisesAt != 0 && Interrupted(p, h, raisesAt, Views(phase.subtasks))
        && d == NotHandled && disabledPhases == old(disabledPhases)
      ensures result.Some? ==> Performs(p, h, e, result.value, Views(phase.subtasks)) && (raisesAt == 0 || |h| < raisesAt)
      ensures d.MetadataChanged? <==> result.Some? && Tampered(p, h, hooks.answers)
      ensures result.Some? && !d.MetadataChanged? ==>
        && (d.Handled? <==> result.value.completedIds != {})
        && disabledPhases == old(disabledPhases) +
             if result.value.stalled || result.value.failedIds != {} then {phase.number} else {}
    {
      hide Performs, Interrupted, CallsOf, PlanAfter, NeverResent, UniqueIds, Tampered;
      var raised, report;
      raised, report, h, e := RunParallelPhase(phase.subtasks, workers, hooks, raisesAt);
      result := if raised then None else Some(report);
      if !raised {
        WavesAreCounted(p, h, e, report, Views(phase.subtasks));
      }
      d := Conclude(phase.number, raised, report, hooks.metadataErrors != []);
    }

    /** What the coder makes of a run of the phase. */
    method Conclude(number: int, raised: bool, report: PhaseRunResult, tampered: bool) returns (d: Dispatch)
      requires Valid() && number !in disabledPhases
      modifies this
      ensures sent == old(sent) + [Sent(number, if raised then None else Some(report))]
      ensures !d.MetadataChanged? ==> Valid()
      ensures raised ==> d == NotHandled && disabledPhases == old(disabledPhases)
      ensures d.MetadataChanged? <==> !raised && tampered
      ensures !raised && !tampered ==>
        && (d.Handled? <==> report.completedIds != {})
        && disabledPhases == old(disabledPhases) + if report.stalled || report.failedIds != {} then {number} else {}
    {
      var s := Sent(number, if raised then None else Some(report));
      OneMoreSent(sent, disabledPhases, s);
      hide NeverResent;
      sent := sent + [s];
      if raised {
        return NotHandled;
      }
      if tampered {
        return MetadataChanged;
      }
      if report.stalled || report.failedIds != {} {
        disabledPhases := disabledPhases + {number};
      }
      d := if report.completedIds != {} then Handled else NotHandled;
    }
  }

  lemma WavesAreCounted(p: Phase, h: History, e: Ending, r: PhaseRunResult, views: seq<Task>)
    requires Performs(p, h, e, r, views)
    ensures r.waves == |h|
  {
  }

  // ---- What "handled" means ---------------------------------------------------------------------------------------------

  /** Some subtask was completed by this run. */
  ghost predicate MadeProgress(p: Phase, h: History)
    requires Valid(p)
  {
    exists i :: i in Started(h) && i < |p.tasks| && p.fate[i].Accepted?
  }

  /** "Handled" agrees with "the run made progress" if and only if it did make progress or no subtask of the phase was
      COMPLETED when it began. */
  lemma HandledMeansProgressIff(p: Phase, h: History, e: Ending, r: PhaseRunResult, views: seq<Task>)
    requires Valid(p) && Performs(p, h, e, r, views)
    ensures (r.completedIds != {} <==> MadeProgress(p, h))
       <==> MadeProgress(p, h) || forall i :: 0 <= i < |p.tasks| ==> !p.tasks[i].status.Completed?
  {
    if MadeProgress(p, h) {
      var i :| i in Started(h) && i < |p.tasks| && p.fate[i].Accepted?;
      assert IsDone(p, h, i);
      assert p.tasks[i].id in r.completedIds;
    }
    if i :| 0 <= i < |p.tasks| && p.tasks[i].status.Completed? {
      assert IsDone(p, h, i);
      assert p.tasks[i].id in r.completedIds;
    }
    if id :| id in r.completedIds {
      var i :| 0 <= i < |p.tasks| && IsDone(p, h, i) && p.tasks[i].id == id;
      assert p.tasks[i].status.Completed? || MadeProgress(p, h);
    }
  }

  /** A finished subtask, and two independent pending ones that need nothing. */
  ghost predicate OneDoneTwoLeft(tasks: seq<Task>) {
    && |tasks| == 3 && UniqueIds(tasks) && tasks[0].status.Completed? && PendingPair(tasks, 1, 2)
    && tasks[1].dependsOn == [] && tasks[2].dependsOn == [] && !Conflicts(tasks[1], tasks[2])
    && tasks[0].id != tasks[1].id && tasks[0].id != tasks[2].id && tasks[1].id != tasks[2].id
  }

  lemma PairIsSelected(p: Phase)
    requires OneDoneTwoLeft(p.tasks) && p.workers == 2 && |p.fate| == 3
    ensures Selected(p, [], [1, 2])
  {
    assert Now(p, []) == p.tasks;
    WaveLaws.DoneById(p, [], 1);
    WaveLaws.DoneById(p, [], 2);
    PairFits(p.tasks, CompletedIds(p, []));
  }

  lemma PairFits(tasks: seq<Task>, completed: set<Id>)
    requires OneDoneTwoLeft(tasks) && tasks[1].id !in completed && tasks[2].id !in completed
    ensures FirstFit(tasks, completed, [], 2, [1, 2])
  {
    var left, right := tasks[1], tasks[2];
    assert Admissible(left, completed, []) && Admissible(right, completed, [left]);
    assert !Admissible(tasks[0], completed, [] + At(tasks, []));
    assert [] + At(tasks, []) == [] && At(tasks, [1]) == [left] && [] + [left] == [left];
    assert [] + [1] == [1] && [1] + [2] == [1, 2];
    hide Admissible, OneDoneTwoLeft, At;
    PassOver(tasks, completed, [], 2, [], 0);
    ChooseNext(tasks, completed, [], 2, [], 1);
    ChooseNext(tasks, completed, [], 2, [1], 2);
  }

  /** One COMPLETED subtask and two that can run together but fail: the phase is sent, "handled", and made no progress. */
  lemma HandledWithoutProgress(p: Phase) returns (h: History, e: Ending, r: PhaseRunResult)
    requires OneDoneTwoLeft(p.tasks) && p.workers == 2 && |p.fate| == 3 && !p.fate[1].Accepted? && !p.fate[2].Accepted?
    ensures Performs(p, h, e, r, Now(p, h)) && Eligible(p.tasks, false, p.workers)
    ensures Started(h) == {1, 2} && r.completedIds != {} && !MadeProgress(p, h)
  {
    assert Independent(p.tasks[1], p.tasks[2]);
    h, e := [[1, 2]], NoProgress;
    PairIsSelected(p);
    assert Front(h) == [] && Last(h) == [1, 2];
    r := PhaseRunResult(CompletedIds(p, h), FailedIds(p, h), true, ListedIds(p, h, e, 3), 1);
    assert IsRun(p, []) && IsRun(p, h) && !Progressed(p, [1, 2]);
    assert AllInRange(p, []) && InRange(p, [1, 2]);
    assert IsDone(p, h, 0) && p.tasks[0].id in r.completedIds;
  }

  lemma SuchAPhaseExists() returns (p: Phase)
    ensures OneDoneTwoLeft(p.tasks) && p.workers == 2 && p.fate == [SessionLost, SessionLost, SessionLost]
  {
    var done := Task("done", [], {"a.py"}, Completed);
    var left, right := Task("left", [], {"b.py"}, Pending), Task("right", [], {"c.py"}, Pending);
    assert "b.py" in left.files && "c.py" in right.files && done.id[0] != left.id[0] && left.id[0] != right.id[0];
    p := Phase([done, left, right], 2, [SessionLost, SessionLost, SessionLost]);
  }
}
