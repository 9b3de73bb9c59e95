/** What a wave phase leaves behind: the canonical plan, and the order in which the hooks were called. */
module IntegrationLaws {
  import opened Basics
  import opened ImplementationPlan
  import opened WaveScheduler
  import opened WaveRun
  import opened ParallelIntegration
  import WaveLaws

  /** What the canonical plan says of a subtask that was started, when every write persists. A lost session leaves
      it IN_PROGRESS, and so does a completion that no gate confirmed; a failed merge or a refused completion hands it
      back for a serial redo. */
  function SettledStatus(fate: Fate): Status {
    match fate
    case SessionLost => InProgress
    case MergeLost => Pending
    case GateRefused => Pending
    case Accepted(gated) => if gated then Completed else InProgress
  }

  lemma {:induction false} SettleAllKeepsOthers(p: Phase, wave: seq<nat>, plan: CanonicalPlan, writes: Id -> bool, id: Id)
    requires InRange(p, wave) && forall i :: i in wave ==> p.tasks[i].id != id
    ensures SettleAll(plan, p, wave, writes).Keys == plan.Keys
    ensures id in plan ==> SettleAll(plan, p, wave, writes)[id] == plan[id]
  {
    if wave != [] {
      assert wave[|wave| - 1] in wave;
      SettleAllKeepsOthers(p, wave[..|wave| - 1], plan, writes, id);
    }
  }

  lemma {:induction false} SettleAllSettles(p: Phase, wave: seq<nat>, plan: CanonicalPlan, writes: Id -> bool, i: nat)
    requires Valid(p) && StrictlyIncreasing(wave, |p.tasks|) && i in wave && p.tasks[i].id in plan
    requires writes(p.tasks[i].id)
    ensures SettleAll(plan, p, wave, writes).Keys == plan.Keys
    ensures SettleAll(plan, p, wave, writes)[p.tasks[i].id] ==
            if p.fate[i].SessionLost? || p.fate[i] == Accepted(false) then plan[p.tasks[i].id] else SettledStatus(p.fate[i])
  {
    var shorter, last := wave[..|wave| - 1], wave[|wave| - 1];
    if i == last {
      forall j | j in shorter ensures p.tasks[j].id != p.tasks[i].id {
        var k :| 0 <= k < |shorter| && shorter[k] == j;
        assert wave[k] < wave[|wave| - 1];
      }
      SettleAllKeepsOthers(p, shorter, plan, writes, p.tasks[i].id);
    } else {
      assert i in shorter;
      SettleAllSettles(p, shorter, plan, writes, i);
      assert p.tasks[i].id != p.tasks[last].id;
    }
  }

  /** One wave over the canonical plan, seen from subtask `i`. */
  lemma WaveOverPlan(p: Phase, wave: seq<nat>, before: CanonicalPlan, writes: Id -> bool, i: nat)
    requires Valid(p) && StrictlyIncreasing(wave, |p.tasks|) && i < |p.tasks| && p.tasks[i].id in before
    requires writes(p.tasks[i].id)
    ensures var after := SettleAll(Stamp(before, IdsOf(p, wave)), p, wave, writes);
      && after.Keys == before.Keys
      && after[p.tasks[i].id] == if i in wave then SettledStatus(p.fate[i]) else before[p.tasks[i].id]
  {
    var ids := IdsOf(p, wave);
    if i in wave {
      var k :| 0 <= k < |wave| && wave[k] == i;
      assert ids[k] == p.tasks[i].id;
      SettleAllSettles(p, wave, Stamp(before, ids), writes, i);
    } else {
      forall j | j in wave ensures p.tasks[j].id != p.tasks[i].id {
        assert i != j;
      }
      assert p.tasks[i].id !in ids;
      SettleAllKeepsOthers(p, wave, Stamp(before, ids), writes, p.tasks[i].id);
    }
  }

  /** When the writes on behalf of subtask `i` persist, the canonical plan after any run: a started subtask has the status its fate
      gives it, and an unstarted one is untouched. So an id whose merge failed or whose gate refused or errored is
      PENDING, and only an accepted one is newly COMPLETED. */
  lemma {:induction false} PlanAfterRun(p: Phase, h: History, plan: CanonicalPlan, writes: Id -> bool, stamps: nat -> bool, i: nat)
    requires Valid(p) && IsRun(p, h) && AllInRange(p, h) && i < |p.tasks| && p.tasks[i].id in plan
    requires writes(p.tasks[i].id) && forall k :: stamps(k)
    ensures var after := PlanAfter(plan, p, h, writes, stamps);
      && after.Keys == plan.Keys
      && after[p.tasks[i].id] == if i in Started(h) then SettledStatus(p.fate[i]) else plan[p.tasks[i].id]
  {
    hide SettleAll, Stamp, SettledStatus;
    if h != [] {
      PlanAfterRun(p, Front(h), plan, writes, stamps, i);
      WaveOverPlan(p, Last(h), PlanAfter(plan, p, Front(h), writes, stamps), writes, i);
    }
  }

  /** An id that is not in the phase keeps its entry in the canonical plan, whatever is written. */
  lemma {:induction false} OtherPhasesUntouched(p: Phase, h: History, plan: CanonicalPlan, writes: Id -> bool, stamps: nat -> bool, id: Id)
    requires AllInRange(p, h) && id in plan && forall i :: 0 <= i < |p.tasks| ==> p.tasks[i].id != id
    ensures PlanAfter(plan, p, h, writes, stamps).Keys == plan.Keys
    ensures PlanAfter(plan, p, h, writes, stamps)[id] == plan[id]
  {
    if h != [] {
      var before, wave := PlanAfter(plan, p, Front(h), writes, stamps), Last(h);
      OtherPhasesUntouched(p, Front(h), plan, writes, stamps, id);
      SettleAllKeepsOthers(p, wave, if stamps(|h|) then Stamp(before, IdsOf(p, wave)) else before, writes, id);
    }
  }

  /** The ids newly COMPLETED in the canonical plan are exactly the ones that session, merge and gate all accepted. */
  lemma NewlyCompletedIffAccepted(p: Phase, h: History, plan: CanonicalPlan, writes: Id -> bool, stamps: nat -> bool, i: nat)
    requires Valid(p) && IsRun(p, h) && AllInRange(p, h) && i < |p.tasks|
    requires writes(p.tasks[i].id) && forall k :: stamps(k)
    requires p.tasks[i].id in plan && !plan[p.tasks[i].id].Completed?
    ensures PlanAfter(plan, p, h, writes, stamps).Keys == plan.Keys
    ensures PlanAfter(plan, p, h, writes, stamps)[p.tasks[i].id].Completed? <==> i in Started(h) && p.fate[i] == Accepted(true)
    ensures i in Started(h) && (p.fate[i].MergeLost? || p.fate[i].GateRefused?) ==>
              PlanAfter(plan, p, h, writes, stamps)[p.tasks[i].id].Pending?
  {
    PlanAfterRun(p, h, plan, writes, stamps, i);
  }

  /** The runner's report and the canonical plan agree on a subtask, as to whether it is complete, if and only if the
      bookkeeping did not fail before its gate was asked. */
  lemma ReportMatchesPlanIff(p: Phase, h: History, plan: CanonicalPlan, writes: Id -> bool, stamps: nat -> bool, i: nat)
    requires Valid(p) && IsRun(p, h) && AllInRange(p, h) && i < |p.tasks|
    requires writes(p.tasks[i].id) && forall k :: stamps(k)
    requires p.tasks[i].id in plan && plan[p.tasks[i].id] == p.tasks[i].status
    ensures PlanAfter(plan, p, h, writes, stamps).Keys == plan.Keys
    ensures (p.tasks[i].id in CompletedIds(p, h) <==> PlanAfter(plan, p, h, writes, stamps)[p.tasks[i].id].Completed?)
       <==> !(i in Started(h) && p.fate[i] == Accepted(false))
  {
    PlanAfterRun(p, h, plan, writes, stamps, i);
    WaveLaws.DoneById(p, h, i);
    WaveLaws.LostWasPending(p, h, i);
  }

  /** One pending subtask whose bookkeeping fails: the run ends ok and reports it complete, no gate has seen it, and the
      canonical plan says IN_PROGRESS. */
  lemma CompleteWithoutGate(p: Phase, plan: CanonicalPlan, writes: Id -> bool, stamps: nat -> bool) returns (h: History, r: PhaseRunResult)
    requires |p.tasks| == 1 && p.fate == [Accepted(false)] && p.tasks[0].status.Pending? && p.tasks[0].dependsOn == []
    requires writes(p.tasks[0].id) && (forall k :: stamps(k)) && plan == map[p.tasks[0].id := Pending]
    ensures Valid(p) && AllInRange(p, h) && Ends(p, h, Finished) && Reports(p, h, Finished, r)
    ensures r.Ok() && r.completedIds == {p.tasks[0].id}
    ensures PlanAfter(plan, p, h, writes, stamps) == map[p.tasks[0].id := InProgress]
  {
    h := [[0]];
    OnlyTaskRuns(p);
    assert AllInRange(p, []) && Front(h) == [] && Last(h) == [0];
    WaveLaws.DoneById(p, h, 0);
    r := PhaseRunResult(CompletedIds(p, h), {}, false, [], 1);
    WaveLaws.AllDoneIsOk(p, h, Finished, PhaseRunResult(CompletedIds(p, h), FailedIds(p, h), false, ListedIds(p, h, Finished, 1), 1));
    PlanAfterRun(p, h, plan, writes, stamps, 0);
    OnlyKey(PlanAfter(plan, p, h, writes, stamps), plan, p.tasks[0].id);
  }

  lemma OnlyKey(after: CanonicalPlan, before: CanonicalPlan, id: Id)
    requires after.Keys == before.Keys == {id}
    ensures after == map[id := after[id]]
  {
  }

  /** A phase of one pending subtask that needs nothing runs in one wave and finishes, when it is accepted. */
  lemma OnlyTaskRuns(p: Phase)
    requires |p.tasks| == 1 && |p.fate| == 1 && p.fate[0].Accepted? && p.tasks[0].status.Pending? && p.tasks[0].dependsOn == []
    ensures Valid(p) && Ends(p, [[0]], Finished) && Started([[0]]) == {0}
  {
    var h: History := [[0]];
    assert Front(h) == [] && Last(h) == [0];
    assert Now(p, []) == p.tasks;
    WaveLaws.DoneById(p, [], 0);
    OnlyTaskFits(p.tasks, CompletedIds(p, []), Slots(p.workers, 0));
    assert IsRun(p, []);
    assert Progressed(p, [0]);
  }

  lemma OnlyTaskFits(tasks: seq<Task>, completed: set<Id>, slots: int)
    requires |tasks| == 1 && tasks[0].status.Pending? && tasks[0].dependsOn == [] && tasks[0].id !in completed && slots >= 1
    ensures FirstFit(tasks, completed, [], slots, [0])
  {
    assert [] + At(tasks, []) == [];
    ChooseNext(tasks, completed, [], slots, [], 0);
    assert [] + [0] == [0];
  }

  // ---- The order of the calls -------------------------------------------------------------------------------------

  /** `first` occurs in `calls` before some occurrence of `second`. */
  ghost predicate Before(calls: seq<Call>, first: Call, second: Call) {
    exists a, b :: 0 <= a < b < |calls| && calls[a] == first && calls[b] == second
  }

  lemma BeforeInLonger(calls: seq<Call>, more: seq<Call>, first: Call, second: Call)
    ensures Before(calls, first, second) ==> Before(calls + more, first, second)
    ensures first in calls && second in more ==> Before(calls + more, first, second)
  {
    if Before(calls, first, second) {
      var a, b :| 0 <= a < b < |calls| && calls[a] == first && calls[b] == second;
      assert (calls + more)[a] == first && (calls + more)[b] == second;
    }
    if first in calls && second in more {
      var a :| 0 <= a < |calls| && calls[a] == first;
      var b :| 0 <= b < |more| && more[b] == second;
      assert (calls + more)[a] == first && (calls + more)[|calls| + b] == second;
    }
  }

  lemma {:induction false} SettleCallsOf(p: Phase, wave: seq<nat>, i: nat)
    requires InRange(p, wave) && i in wave && p.fate[i].Accepted?
    ensures var id := p.tasks[i].id;
      && MergeTried(id) in AllSettleCalls(p, wave) && CompletionAsked(id) in AllSettleCalls(p, wave)
      && Before(AllSettleCalls(p, wave), MergeTried(id), CompletionAsked(id))
  {
    var shorter, last := wave[..|wave| - 1], wave[|wave| - 1];
    var id := p.tasks[i].id;
    var calls, more := AllSettleCalls(p, shorter), SettleCalls(p.tasks[last].id, p.fate[last]);
    if i == last {
      assert more[0] == MergeTried(id) && more[1] == CompletionAsked(id);
      assert (calls + more)[|calls|] == MergeTried(id) && (calls + more)[|calls| + 1] == CompletionAsked(id);
    } else {
      SettleCallsOf(p, shorter, i);
      BeforeInLonger(calls, more, MergeTried(id), CompletionAsked(id));
    }
  }

  lemma BeforeInSuffix(earlier: seq<Call>, calls: seq<Call>, first: Call, second: Call)
    requires Before(calls, first, second)
    ensures Before(earlier + calls, first, second)
  {
    var a, b :| 0 <= a < b < |calls| && calls[a] == first && calls[b] == second;
    assert (earlier + calls)[|earlier| + a] == first && (earlier + calls)[|earlier| + b] == second;
  }

  lemma WaveCallsInOrder(p: Phase, number: nat, wave: seq<nat>, i: nat)
    requires InRange(p, wave) && i in wave
    ensures SessionRun(p.tasks[i].id) in WaveCalls(p, number, wave)
    ensures p.fate[i].Accepted? ==>
      var id, calls := p.tasks[i].id, WaveCalls(p, number, wave);
      && Before(calls, SessionRun(id), MergeTried(id)) && Before(calls, MergeTried(id), CompletionAsked(id))
  {
    var ids, id := IdsOf(p, wave), p.tasks[i].id;
    var sessions, settles := [WaveAnnounced(number, ids)] + SessionCalls(ids), AllSettleCalls(p, wave);
    var k :| 0 <= k < |wave| && wave[k] == i;
    assert sessions[1 + k] == SessionRun(id) == (sessions + settles)[1 + k];
    if p.fate[i].Accepted? {
      SettleCallsOf(p, wave, i);
      BeforeInLonger(sessions, settles, SessionRun(id), MergeTried(id));
      BeforeInSuffix(sessions, settles, MergeTried(id), CompletionAsked(id));
    }
  }

  /** An accepted subtask had its session, then its merge, then its completion gate, in that order. */
  lemma {:induction false} AcceptedInOrder(p: Phase, h: History, i: nat)
    requires Valid(p) && AllInRange(p, h) && i in Started(h) && i < |p.tasks| && p.fate[i].Accepted?
    ensures var id := p.tasks[i].id;
      && Before(CallsOf(p, h), SessionRun(id), MergeTried(id))
      && Before(CallsOf(p, h), MergeTried(id), CompletionAsked(id))
  {
    hide WaveCalls, Before;
    var front, wave, id := Front(h), Last(h), p.tasks[i].id;
    var earlier, latest := CallsOf(p, front), WaveCalls(p, |h|, wave);
    if i in wave {
      WaveCallsInOrder(p, |h|, wave, i);
      BeforeInSuffix(earlier, latest, SessionRun(id), MergeTried(id));
      BeforeInSuffix(earlier, latest, MergeTried(id), CompletionAsked(id));
    } else {
      AcceptedInOrder(p, front, i);
      BeforeInLonger(earlier, latest, SessionRun(id), MergeTried(id));
      BeforeInLonger(earlier, latest, MergeTried(id), CompletionAsked(id));
    }
  }

  lemma BeforeMeansIn(calls: seq<Call>, first: Call, second: Call)
    requires Before(calls, first, second)
    ensures first in calls && second in calls
  {
  }

  /** The unfinished dependency at position `n` is accepted, and its completion asked for before the session of `i`. */
  ghost predicate AcceptedFirst(p: Phase, h: History, n: nat, i: nat)
    requires Valid(p) && AllInRange(p, h) && n < |p.tasks| && i < |p.tasks|
  {
    p.fate[n].Accepted? && Before(CallsOf(p, h), CompletionAsked(p.tasks[n].id), SessionRun(p.tasks[i].id))
  }

  /** Topological order of the calls: every dependency of a started subtask is a subtask of the phase that was
      complete beforehand, or was accepted before the session of its dependent ran. */
  lemma {:induction false} DependencyAcceptedBeforeSession(p: Phase, h: History, i: nat, d: Id)
    requires Valid(p) && IsRun(p, h) && AllInRange(p, h) && i in Started(h) && i < |p.tasks| && d in p.tasks[i].dependsOn
    ensures exists n: nat :: n < |p.tasks| && p.tasks[n].id == d && (p.tasks[n].status.Completed? || AcceptedFirst(p, h, n, i))
  {
    hide WaveCalls, Before;
    var front, wave, id := Front(h), Last(h), p.tasks[i].id;
    var earlier, latest := CallsOf(p, front), WaveCalls(p, |h|, wave);
    if i in wave {
      WaveLaws.MemberFacts(p, front, wave, i);
      var n: nat :| n < |p.tasks| && IsDone(p, front, n) && p.tasks[n].id == d;
      if !p.tasks[n].status.Completed? {
        AcceptedInOrder(p, front, n);
        BeforeMeansIn(earlier, MergeTried(d), CompletionAsked(d));
        WaveCallsInOrder(p, |h|, wave, i);
        BeforeInLonger(earlier, latest, CompletionAsked(d), SessionRun(id));
        assert AcceptedFirst(p, h, n, i);
      }
    } else {
      DependencyAcceptedBeforeSession(p, front, i, d);
      var n: nat :| n < |p.tasks| && p.tasks[n].id == d && (p.tasks[n].status.Completed? || AcceptedFirst(p, front, n, i));
      BeforeInLonger(earlier, latest, CompletionAsked(d), SessionRun(id));
    }
  }
}
