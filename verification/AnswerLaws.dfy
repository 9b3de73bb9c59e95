/** What a run does, said of the answers of the outside world alone: which subtasks are merged, gated and completed. */
module AnswerLaws {
  import opened Basics
  import opened ImplementationPlan
  import opened WaveScheduler
  import opened WaveRun
  import opened CompletionGate
  import opened ParallelIntegration
  import ParallelRunner
  import WaveLaws
  import IntegrationLaws

  /** What each verdict means: a session counts only if it returned without an error, nothing after it raised, and git
      metadata is unchanged; a completion only if no gate raised and, when they are on, none has a gap and a verification
      subtask has test runs of which the last did not fail. */
  lemma VerdictIff(a: Answers)
    ensures var clean := a.session == Returned(false, false) && a.gitClean;
            var proven := !a.gateRaises && (a.gates.enabled ==>
              && !a.gates.pipelineGap && !a.gates.testingGap && !a.gates.deliverableGap
              && (a.gates.isVerification ==> a.evidence.ran && !a.evidence.lastFailed));
      && (FateOf(a).SessionLost? <==> !clean)
      && (FateOf(a).MergeLost? <==> clean && !a.merges)
      && (FateOf(a) == Accepted(false) <==> clean && a.merges && a.bookkeepingFails)
      && (FateOf(a) == Accepted(true) <==> clean && a.merges && !a.bookkeepingFails && proven)
      && (FateOf(a).GateRefused? <==> clean && a.merges && !a.bookkeepingFails && !proven)
  {
  }

  // ---- Which hooks are called ---------------------------------------------------------------------------------------------

  lemma {:induction false} SettleCallIff(p: Phase, wave: seq<nat>, i: nat)
    requires Valid(p) && InRange(p, wave) && i < |p.tasks|
    ensures MergeTried(p.tasks[i].id) in AllSettleCalls(p, wave) <==> i in wave && !p.fate[i].SessionLost?
    ensures CompletionAsked(p.tasks[i].id) in AllSettleCalls(p, wave) <==> i in wave && (p.fate[i].GateRefused? || p.fate[i].Accepted?)
    ensures SessionRun(p.tasks[i].id) !in AllSettleCalls(p, wave)
  {
    if wave != [] {
      var shorter, last := wave[..|wave| - 1], wave[|wave| - 1];
      SettleCallIff(p, shorter, i);
      assert i in wave <==> i in shorter || i == last;
      assert i != last ==> p.tasks[i].id != p.tasks[last].id;
    }
  }

  lemma WaveCallIff(p: Phase, number: nat, wave: seq<nat>, i: nat)
    requires Valid(p) && InRange(p, wave) && i < |p.tasks|
    ensures var calls, id := WaveCalls(p, number, wave), p.tasks[i].id;
      && (SessionRun(id) in calls <==> i in wave)
      && (MergeTried(id) in calls <==> i in wave && !p.fate[i].SessionLost?)
      && (CompletionAsked(id) in calls <==> i in wave && (p.fate[i].GateRefused? || p.fate[i].Accepted?))
  {
    var ids, id := IdsOf(p, wave), p.tasks[i].id;
    SettleCallIff(p, wave, i);
    if i in wave {
      var k :| 0 <= k < |wave| && wave[k] == i;
      assert SessionCalls(ids)[k] == SessionRun(id);
    }
    if SessionRun(id) in SessionCalls(ids) {
      var k :| 0 <= k < |ids| && SessionCalls(ids)[k] == SessionRun(id);
      assert p.tasks[wave[k]].id == id;
    }
    hide AllSettleCalls;
  }

  lemma {:induction false} CalledIff(p: Phase, h: History, i: nat)
    requires Valid(p) && AllInRange(p, h) && i < |p.tasks|
    ensures var calls, id := CallsOf(p, h), p.tasks[i].id;
      && (SessionRun(id) in calls <==> i in Started(h))
      && (MergeTried(id) in calls <==> i in Started(h) && !p.fate[i].SessionLost?)
      && (CompletionAsked(id) in calls <==> i in Started(h) && (p.fate[i].GateRefused? || p.fate[i].Accepted?))
  {
    hide WaveCalls;
    if h != [] {
      CalledIff(p, Front(h), i);
      WaveCallIff(p, |h|, Last(h), i);
    }
  }

  /** Over any run: a session runs if and only if its subtask was started; its work is merged only if the session returned
      without an error and left git metadata unchanged; completion is asked for only if it merged. */
  lemma HooksCalledIff(p: Phase, h: History, answers: Id -> Answers, i: nat)
    requires Valid(p) && AllInRange(p, h) && p.fate == Fates(p.tasks, answers) && i < |p.tasks|
    ensures var calls, id := CallsOf(p, h), p.tasks[i].id; var a := answers(id);
      && (SessionRun(id) in calls <==> i in Started(h))
      && (MergeTried(id) in calls <==> i in Started(h) && a.session == Returned(false, false) && a.gitClean)
      && (CompletionAsked(id) in calls <==> i in Started(h) && a.session == Returned(false, false) && a.gitClean && a.merges)
  {
    CalledIff(p, h, i);
    VerdictIff(answers(p.tasks[i].id));
    hide CallsOf;
  }

  // ---- What the report and the plan say --------------------------------------------------------------------------------------

  lemma LostById(p: Phase, h: History, i: nat)
    requires Valid(p) && i < |p.tasks|
    ensures p.tasks[i].id in FailedIds(p, h) <==> IsLost(p, h, i)
  {
    if p.tasks[i].id in FailedIds(p, h) {
      var j :| 0 <= j < |p.tasks| && IsLost(p, h, j) && p.tasks[j].id == p.tasks[i].id;
      assert j == i;
    }
  }

  /** Over any run, a subtask is reported complete if and only if it was complete before, or it was started, its session was
      clean, it merged, and the gates passed or the bookkeeping failed before they were asked; a started one that is not, is
      reported failed. */
  lemma ReportedIff(p: Phase, h: History, answers: Id -> Answers, i: nat)
    requires Valid(p) && IsRun(p, h) && p.fate == Fates(p.tasks, answers) && i < |p.tasks|
    ensures var id := p.tasks[i].id; var a := answers(id);
            var passed := a.session == Returned(false, false) && a.gitClean && a.merges &&
              (a.bookkeepingFails || (!a.gateRaises && (a.gates.enabled ==>
                && !a.gates.pipelineGap && !a.gates.testingGap && !a.gates.deliverableGap
                && (a.gates.isVerification ==> a.evidence.ran && !a.evidence.lastFailed))));
      && (id in CompletedIds(p, h) <==> p.tasks[i].status == Completed || (i in Started(h) && passed))
      && (id in FailedIds(p, h) <==> i in Started(h) && !passed)
  {
    VerdictIff(answers(p.tasks[i].id));
    WaveLaws.DoneById(p, h, i);
    WaveLaws.LostWasPending(p, h, i);
    LostById(p, h, i);
  }

  /** When writes persist, the canonical plan after any run says of a started subtask: COMPLETED, if its session was clean, it
      merged and the gates passed; PENDING, if its session was clean, but it did not merge, or a gate refused or raised; else,
      after a lost session or failed bookkeeping, IN_PROGRESS. */
  lemma PlanSays(p: Phase, h: History, answers: Id -> Answers, plan: CanonicalPlan, stamps: nat -> bool, i: nat)
    requires Valid(p) && IsRun(p, h) && AllInRange(p, h) && p.fate == Fates(p.tasks, answers) && i in Started(h) && i < |p.tasks|
    requires p.tasks[i].id in plan && answers(p.tasks[i].id).writes && forall k :: stamps(k)
    ensures var id := p.tasks[i].id; var after, a := PlanAfter(plan, p, h, j => answers(j).writes, stamps), answers(id);
            var clean := a.session == Returned(false, false) && a.gitClean;
            var proven := !a.gateRaises && (a.gates.enabled ==>
              && !a.gates.pipelineGap && !a.gates.testingGap && !a.gates.deliverableGap
              && (a.gates.isVerification ==> a.evidence.ran && !a.evidence.lastFailed));
      && id in after
      && (after[id] == Completed <==> clean && a.merges && !a.bookkeepingFails && proven)
      && (after[id] == Pending <==> clean && (!a.merges || (!a.bookkeepingFails && !proven)))
      && (after[id] == InProgress <==> !clean || (a.merges && a.bookkeepingFails))
  {
    VerdictIff(answers(p.tasks[i].id));
    IntegrationLaws.PlanAfterRun(p, h, plan, j => answers(j).writes, stamps, i);
    hide PlanAfter, CompletionRefusal;
  }

  /** A session that left its git metadata changed is never merged, reported complete or newly COMPLETED, whatever else it
      answers. */
  lemma TamperedIsNeverMerged(p: Phase, h: History, answers: Id -> Answers, i: nat)
    requires Valid(p) && IsRun(p, h) && AllInRange(p, h) && p.fate == Fates(p.tasks, answers) && i < |p.tasks|
    requires !answers(p.tasks[i].id).gitClean && i in Started(h)
    ensures MergeTried(p.tasks[i].id) !in CallsOf(p, h) && CompletionAsked(p.tasks[i].id) !in CallsOf(p, h)
    ensures p.tasks[i].id !in CompletedIds(p, h) && p.tasks[i].id in FailedIds(p, h)
  {
    HooksCalledIff(p, h, answers, i);
    ReportedIff(p, h, answers, i);
    WaveLaws.LostWasPending(p, h, i);
    hide CallsOf;
  }

  /** The runner collects a metadata error, which ends the build, if and only if some started session ran to its end and left
      git metadata changed. */
  lemma BuildEndsIff(p: Phase, h: History, answers: Id -> Answers)
    ensures ParallelRunner.Tampered(p, h, answers) <==>
      exists i :: i in Started(h) && i < |p.tasks| && answers(p.tasks[i].id).session.Returned? && !answers(p.tasks[i].id).gitClean
  {
    if i :| i in Started(h) && i < |p.tasks| && answers(p.tasks[i].id).session.Returned? && !answers(p.tasks[i].id).gitClean {
      assert Tampers(answers(p.tasks[i].id));
    }
  }
}
