/** From the completeness check to the wave runner: what an accepted plan is run for. */
module Admission {
  import opened ImplementationPlan
  import opened WaveRun
  import opened ParallelIntegration
  import opened ParallelRunner
  import opened PlanCompleteness
  import WaveLaws

  /** Every session, merge and gate of the phase succeeds. */
  ghost predicate AllAccepting(tasks: seq<Task>, answers: Id -> Answers) {
    forall i :: 0 <= i < |tasks| ==> FateOf(answers(tasks[i].id)).Accepted?
  }

  /** Checks a plan and, when it is accepted, runs its phase `k` over the subtask objects made from it. */
  method RunIfComplete(plan: PlanDoc, k: nat, subtasks: seq<Subtask>, workers: int, hooks: PhaseHooks)
    returns (accepted: bool, result: PhaseRunResult)
    requires Complete(plan) ==>
      k < |plan.phases.phases| && GoodPhase(plan.phases.phases[k]) && Views(subtasks) == TasksOf(plan.phases.phases[k])
    requires hooks.metadataErrors == []
    modifies subtasks, hooks
    ensures accepted <==> Complete(plan)
    ensures accepted && old(AllAccepting(Views(subtasks), hooks.answers)) ==>
      (result.Ok() <==> PendingOrDone(old(Views(subtasks))) && SelfContained(old(Views(subtasks))))
    ensures accepted && |plan.phases.phases| == 1 && old(AllAccepting(Views(subtasks), hooks.answers)) ==>
      (result.Ok() <==> PendingOrDone(old(Views(subtasks))))
  {
    var reasons;
    accepted, reasons := CheckPlanCompleteness(plan);
    hide Complaints;
    result := PhaseRunResult({}, {}, false, [], 0);
    if accepted {
      ghost var phases := plan.phases.phases;
      hide CompletePhases, SelfContained, PendingOrDone, PlanAfter, CallsOf, Tampered, Complaints;
      PhaseIdsAreUnique(phases, k);
      ghost var p := Phase(Views(subtasks), workers, Fates(Views(subtasks), hooks.answers));
      var raised;
      ghost var h, e;
      raised, result, h, e := RunParallelPhase(subtasks, workers, hooks, 0);
      RunOfCompletePhase(phases, k, p, h, e, result);
    }
  }

  lemma RunOfCompletePhase(phases: seq<PhaseDoc>, k: nat, p: Phase, h: History, e: Ending, r: PhaseRunResult)
    requires CompletePhases(phases) && k < |phases| && GoodPhase(phases[k]) && p.tasks == TasksOf(phases[k])
    requires |p.fate| == |p.tasks| && Valid(p) && Ends(p, h, e) && Reports(p, h, e, r)
    ensures WaveLaws.NothingFails(p) ==> (r.Ok() <==> PendingOrDone(p.tasks) && SelfContained(p.tasks))
    ensures WaveLaws.NothingFails(p) && |phases| == 1 ==> (r.Ok() <==> PendingOrDone(p.tasks))
  {
    hide CompletePhases, SelfContained, PendingOrDone, Ends, Reports;
    CompletePhaseSucceedsIff(phases, k, p, h, e, r);
    if |phases| == 1 {
      SinglePhasePlanSucceeds(phases, p, h, e, r);
    }
  }
}
