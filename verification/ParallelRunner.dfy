/** The wave loop (parallel_runner.py), proved to perform a run of `WaveRun`. */
module ParallelRunner {
  import opened Basics
  import opened ImplementationPlan
  import opened WaveScheduler
  import opened WaveRun
  import opened ParallelIntegration
  import WaveLaws

  /** The ids, in plan order, of the subtasks that are neither excluded nor COMPLETED. */
  function Leftover(tasks: seq<Task>, excluded: set<Id>): (ids: seq<Id>) {
    if tasks == [] then []
    else
      var t := tasks[|tasks| - 1];
      Leftover(tasks[..|tasks| - 1], excluded) + if t.id !in excluded && !t.status.Completed? then [t.id] else []
  }

  lemma {:induction false} LeftoverIsListed(p: Phase, h: History, e: Ending, excluded: set<Id>, n: nat)
    requires Valid(p) && n <= |p.tasks|
    requires forall i :: 0 <= i < n ==> (Listed(p, h, e, i) <==> p.tasks[i].id !in excluded && !Now(p, h)[i].status.Completed?)
    ensures Leftover(Now(p, h)[..n], excluded) == ListedIds(p, h, e, n)
  {
    if n > 0 {
      LeftoverIsListed(p, h, e, excluded, n - 1);
      assert Now(p, h)[..n][..n - 1] == Now(p, h)[..n - 1];
    }
  }

  /** `[s for s in wave if s.id not in failed_ids]` */
  function Untried(wave: seq<Subtask>, failed: set<Id>): (r: seq<Subtask>)
    ensures (forall s :: s in wave ==> s.id !in failed) ==> r == wave
  {
    if wave == [] then [] else (if wave[0].id in failed then [] else [wave[0]]) + Untried(wave[1..], failed)
  }

  /** A history whose last wave has been merged and gated up to its k-th member. */
  ghost function Partly(h: History, wave: seq<nat>, k: nat): History
    requires k <= |wave|
  {
    h + [wave[..k]]
  }

  lemma PartlyStarted(h: History, wave: seq<nat>, k: nat)
    requires k <= |wave|
    ensures Started(Partly(h, wave, k)) == Started(h) + Members(wave[..k])
    ensures k == 0 ==> Started(Partly(h, wave, k)) == Started(h)
    ensures k < |wave| ==> Started(Partly(h, wave, k + 1)) == Started(Partly(h, wave, k)) + {wave[k]}
  {
    assert Front(Partly(h, wave, k)) == h;
    if k < |wave| {
      assert Front(Partly(h, wave, k + 1)) == h;
      assert wave[..k + 1] == wave[..k] + [wave[k]];
    }
  }

  /** Starting one more subtask changes its status and one of the two id sets, and nothing else. */
  lemma GrowByOne(p: Phase, before: History, after: History, i: nat)
    requires Valid(p) && i < |p.tasks| && !p.tasks[i].status.Completed?
    requires i !in Started(before) && Started(after) == Started(before) + {i}
    ensures Now(p, before)[i] == p.tasks[i]
    ensures Now(p, after) == Now(p, before)[i := p.tasks[i].(status := if p.fate[i].Accepted? then Completed else Failed)]
    ensures CompletedIds(p, after) == CompletedIds(p, before) + (if p.fate[i].Accepted? then {p.tasks[i].id} else {})
    ensures FailedIds(p, after) == FailedIds(p, before) + (if p.fate[i].Accepted? then {} else {p.tasks[i].id})
  {
    assert forall j: nat :: IsDone(p, after, j) <==> IsDone(p, before, j) || (j == i && p.fate[i].Accepted?);
    assert forall j: nat :: IsLost(p, after, j) <==> IsLost(p, before, j) || (j == i && !p.fate[i].Accepted?);
    assert IsDone(p, after, i) || IsLost(p, after, i);
  }

  /** All the merge-and-gate pass needs to know of a wave: its members are distinct and have not been tried. */
  ghost predicate FreshWave(p: Phase, h: History, wave: seq<nat>)
    requires Valid(p)
  {
    forall k :: 0 <= k < |wave| ==>
      && IsRemaining(p, h, wave[k])
      && wave[k] !in wave[..k]
  }

  lemma SelectedIsFresh(p: Phase, h: History, wave: seq<nat>)
    requires Valid(p) && Selected(p, h, wave)
    ensures FreshWave(p, h, wave)
  {
    forall k | 0 <= k < |wave| ensures IsRemaining(p, h, wave[k]) && wave[k] !in wave[..k] {
      WaveLaws.MemberFacts(p, h, wave, wave[k]);
    }
  }

  lemma NextMember(p: Phase, h: History, wave: seq<nat>, k: nat)
    requires Valid(p) && FreshWave(p, h, wave) && k < |wave|
    ensures var i := wave[k];
      && i < |p.tasks| && !p.tasks[i].status.Completed?
      && i !in Started(Partly(h, wave, k))
      && Started(Partly(h, wave, k + 1)) == Started(Partly(h, wave, k)) + {i}
      && (Progressed(p, wave[..k + 1]) <==> Progressed(p, wave[..k]) || p.fate[i].Accepted?)
  {
    PartlyStarted(h, wave, k);
    assert wave[..k + 1] == wave[..k] + [wave[k]];
  }

  /** The runner's variables agree with the history: statuses, completed ids, failed ids. */
  ghost predicate Agrees(p: Phase, h: History, views: seq<Task>, completed: set<Id>, failed: set<Id>)
    requires Valid(p)
  {
    views == Now(p, h) && completed == CompletedIds(p, h) && failed == FailedIds(p, h)
  }

  lemma SettleNext(p: Phase, h: History, wave: seq<nat>, k: nat, views: seq<Task>, completed: set<Id>, failed: set<Id>)
    requires Valid(p) && FreshWave(p, h, wave) && k < |wave| && Agrees(p, Partly(h, wave, k), views, completed, failed)
    ensures wave[k] < |p.tasks| == |views|
    ensures var i := wave[k]; var done := p.fate[i].Accepted?; var id := p.tasks[i].id;
      && views[i].id == id
      && Agrees(p, Partly(h, wave, k + 1), views[i := views[i].(status := if done then Completed else Failed)],
                if done then completed + {id} else completed, if done then failed else failed + {id})
      && (Progressed(p, wave[..k + 1]) <==> Progressed(p, wave[..k]) || done)
  {
    NextMember(p, h, wave, k);
    GrowByOne(p, Partly(h, wave, k), Partly(h, wave, k + 1), wave[k]);
  }

  lemma NobodySettledYet(p: Phase, h: History, wave: seq<nat>, views: seq<Task>, completed: set<Id>, failed: set<Id>)
    requires Valid(p) && Agrees(p, h, views, completed, failed)
    ensures Agrees(p, Partly(h, wave, 0), views, completed, failed) && !Progressed(p, wave[..0])
  {
    PartlyStarted(h, wave, 0);
    assert forall j: nat :: IsDone(p, Partly(h, wave, 0), j) <==> IsDone(p, h, j);
    assert forall j: nat :: IsLost(p, Partly(h, wave, 0), j) <==> IsLost(p, h, j);
  }

  lemma PassEnds(p: Phase, h: History, wave: seq<nat>, plan: CanonicalPlan, writes: Id -> bool)
    requires InRange(p, wave)
    ensures wave[..|wave|] == wave && Partly(h, wave, |wave|) == h + [wave]
    ensures SettleAll(plan, p, wave[..0], writes) == plan && AllSettleCalls(p, wave[..0]) == []
  {
  }

  /** The k-th step of the merge-and-gate pass. */
  method SettleMember(subtasks: seq<Subtask>, s: Subtask, outcome: SessionResult, hooks: PhaseHooks,
                      completedBefore: set<Id>, failedBefore: set<Id>,
                      ghost p: Phase, ghost h: History, ghost chosen: seq<nat>, ghost k: nat)
    returns (completedIds: set<Id>, failedIds: set<Id>, completed: bool)
    requires Valid(p) && FreshWave(p, h, chosen) && k < |chosen| && p.fate == Fates(p.tasks, hooks.answers)
    requires |subtasks| == |p.tasks| && chosen[k] < |subtasks| && s == subtasks[chosen[k]]
    requires Agrees(p, Partly(h, chosen, k), Views(subtasks), completedBefore, failedBefore)
    requires outcome == SessionResultOf(hooks.answers(s.id))
    requires outcome == SubtaskResult(true) ==> hooks.EvidenceFor(s.id) == hooks.answers(s.id).evidence
    modifies subtasks, hooks`plan, hooks`calls
    ensures Agrees(p, Partly(h, chosen, k + 1), Views(subtasks), completedIds, failedIds)
    ensures Progressed(p, chosen[..k + 1]) <==> Progressed(p, chosen[..k]) || completed
    ensures p.tasks[chosen[k]].id == s.id
    ensures hooks.plan == Settle(old(hooks.plan), s.id, p.fate[chosen[k]], hooks.Writes()(s.id))
    ensures hooks.calls == old(hooks.calls) + SettleCalls(s.id, p.fate[chosen[k]])
  {
    SettleNext(p, h, chosen, k, Views(subtasks), completedBefore, failedBefore);
    completed := SettleOne(subtasks, s, outcome, hooks, chosen[k]);
    completedIds := if completed then completedBefore + {s.id} else completedBefore;
    failedIds := if completed then failedBefore else failedBefore + {s.id};
  }

  /** The merge-and-gate pass over one wave: one member at a time, in the order the wave lists them. */
  method SettleWave(subtasks: seq<Subtask>, wave: seq<Subtask>, outcomes: seq<SessionResult>, hooks: PhaseHooks,
                    completedBefore: set<Id>, failedBefore: set<Id>,
                    ghost p: Phase, ghost h: History, ghost chosen: seq<nat>)
    returns (completedIds: set<Id>, failedIds: set<Id>, progressed: bool)
    requires Valid(p) && InRange(p, chosen) && FreshWave(p, h, chosen) && |subtasks| == |p.tasks|
    requires p.fate == Fates(p.tasks, hooks.answers)
    requires Agrees(p, h, Views(subtasks), completedBefore, failedBefore)
    requires |wave| == |chosen| == |outcomes|
    requires forall k :: 0 <= k < |wave| ==> wave[k] == subtasks[chosen[k]]
    requires forall k :: 0 <= k < |wave| ==> outcomes[k] == SessionResultOf(hooks.answers(wave[k].id))
    requires forall k :: 0 <= k < |wave| && outcomes[k] == SubtaskResult(true) ==>
               hooks.EvidenceFor(wave[k].id) == hooks.answers(wave[k].id).evidence
    modifies subtasks, hooks`plan, hooks`calls
    ensures Agrees(p, h + [chosen], Views(subtasks), completedIds, failedIds)
    ensures progressed <==> Progressed(p, chosen)
    ensures hooks.plan == SettleAll(old(hooks.plan), p, chosen, hooks.Writes())
    ensures hooks.calls == old(hooks.calls) + AllSettleCalls(p, chosen)
  {
    hide Agrees, FreshWave, Progressed, SettleAll, AllSettleCalls, Partly;
    completedIds, failedIds, progressed := completedBefore, failedBefore, false;
    NobodySettledYet(p, h, chosen, Views(subtasks), completedBefore, failedBefore);
    PassEnds(p, h, chosen, hooks.plan, hooks.Writes());
    for k := 0 to |wave|
      invariant Agrees(p, Partly(h, chosen, k), Views(subtasks), completedIds, failedIds)
      invariant progressed <==> Progressed(p, chosen[..k])
      invariant hooks.plan == SettleAll(old(hooks.plan), p, chosen[..k], hooks.Writes())
      invariant hooks.calls == old(hooks.calls) + AllSettleCalls(p, chosen[..k])
    {
      OneMoreSettled(old(hooks.plan), old(hooks.calls), p, chosen, k, hooks.Writes());
      var completed;
      completedIds, failedIds, completed :=
        SettleMember(subtasks, wave[k], outcomes[k], hooks, completedIds, failedIds, p, h, chosen, k);
      progressed := progressed || completed;
    }
  }

  /** One member after its session: merge-back, completion gate, and the status that follows. */
  method SettleOne(subtasks: seq<Subtask>, s: Subtask, outcome: SessionResult, hooks: PhaseHooks, ghost i: nat)
    returns (completed: bool)
    requires UniqueIds(Views(subtasks)) && i < |subtasks| && subtasks[i] == s
    requires outcome == SessionResultOf(hooks.answers(s.id))
    requires outcome == SubtaskResult(true) ==> hooks.EvidenceFor(s.id) == hooks.answers(s.id).evidence
    modifies s, hooks`plan, hooks`calls
    ensures completed == FateOf(hooks.answers(s.id)).Accepted?
    ensures Views(subtasks) ==
              old(Views(subtasks))[i := old(s.View()).(status := if completed then Completed else Failed)]
    ensures hooks.plan == Settle(old(hooks.plan), s.id, FateOf(hooks.answers(s.id)), hooks.answers(s.id).writes)
    ensures hooks.calls == old(hooks.calls) + SettleCalls(s.id, FateOf(hooks.answers(s.id)))
  {
    forall j | 0 <= j < |subtasks| && j != i ensures subtasks[j] != s {
      assert Views(subtasks)[j].id != Views(subtasks)[i].id;
    }
    if outcome.Raised? || !outcome.success {
      s.Fail();
      return false;
    }
    var merged := hooks.MergeSubtask(s.id);
    if !merged {
      s.Fail();
      return false;
    }
    var accepted := hooks.MarkComplete(s.id);
    if !accepted {
      s.Fail();
      return false;
    }
    s.Complete();
    return true;
  }

  /** The concurrent part of a wave. Sessions are isolated, so the order in which they run does not matter. */
  method RunSessions(wave: seq<Subtask>, hooks: PhaseHooks, ghost ids: seq<Id>) returns (outcomes: seq<SessionResult>)
    requires |ids| == |wave| && forall k :: 0 <= k < |wave| ==> ids[k] == wave[k].id
    modifies hooks
    ensures |outcomes| == |wave|
    ensures forall k :: 0 <= k < |wave| ==> outcomes[k] == SessionResultOf(hooks.answers(wave[k].id))
    ensures forall k :: 0 <= k < |wave| && outcomes[k] == SubtaskResult(true) ==>
              hooks.EvidenceFor(wave[k].id) == hooks.answers(wave[k].id).evidence
    ensures hooks.plan == old(hooks.plan)
    ensures hooks.calls == old(hooks.calls) + SessionCalls(ids)
    ensures hooks.metadataErrors == [] <==> old(hooks.metadataErrors) == [] && forall k :: 0 <= k < |ids| ==> !Tampers(hooks.answers(ids[k]))
  {
    outcomes := [];
    for k := 0 to |wave|
      invariant |outcomes| == k
      invariant forall j :: 0 <= j < k ==> outcomes[j] == SessionResultOf(hooks.answers(wave[j].id))
      invariant forall j :: 0 <= j < k && outcomes[j] == SubtaskResult(true) ==>
          hooks.EvidenceFor(wave[j].id) == hooks.answers(wave[j].id).evidence
      invariant hooks.plan == old(hooks.plan)
      invariant hooks.calls == old(hooks.calls) + SessionCalls(ids)[..k]
      invariant hooks.metadataErrors == [] <==>
                  old(hooks.metadataErrors) == [] && forall j :: 0 <= j < k ==> !Tampers(hooks.answers(ids[j]))
    {
      var r := hooks.RunSubtask(wave[k].id);
      outcomes := outcomes + [r];
    }
  }

  lemma Regroup<T>(x: seq<T>, a: seq<T>, b: seq<T>, c: seq<T>, d: seq<T>)
    ensures x + (a + (b + c + d)) == x + a + b + c + d
  {
  }

  lemma OneMoreWave(plan: CanonicalPlan, calls: seq<Call>, p: Phase, h: History, wave: seq<nat>,
                    writes: Id -> bool, stamps: nat -> bool)
    requires AllInRange(p, h) && InRange(p, wave)
    ensures AllInRange(p, h + [wave])
    ensures var before := PlanAfter(plan, p, h, writes, stamps);
      PlanAfter(plan, p, h + [wave], writes, stamps) ==
        SettleAll(if stamps(|h| + 1) then Stamp(before, IdsOf(p, wave)) else before, p, wave, writes)
    ensures calls + CallsOf(p, h + [wave]) ==
      calls + CallsOf(p, h) + [WaveAnnounced(|h| + 1, IdsOf(p, wave))] + SessionCalls(IdsOf(p, wave)) + AllSettleCalls(p, wave)
  {
    hide SettleAll, AllSettleCalls, Stamp, IdsOf;
    var longer, ids := h + [wave], IdsOf(p, wave);
    assert Front(longer) == h && Last(longer) == wave;
    Regroup(calls, CallsOf(p, h), [WaveAnnounced(|longer|, ids)], SessionCalls(ids), AllSettleCalls(p, wave));
  }

  lemma WaveIds(p: Phase, h: History, chosen: seq<nat>, subtasks: seq<Subtask>, completed: set<Id>, failed: set<Id>)
    requires Valid(p) && InRange(p, chosen) && |subtasks| == |p.tasks| && Agrees(p, h, Views(subtasks), completed, failed)
    ensures forall k :: 0 <= k < |chosen| ==> subtasks[chosen[k]].id == p.tasks[chosen[k]].id
  {
    forall k | 0 <= k < |chosen| ensures subtasks[chosen[k]].id == p.tasks[chosen[k]].id {
      assert Views(subtasks)[chosen[k]].id == Now(p, h)[chosen[k]].id;
    }
  }

  /** Some session of the run left its git metadata changed. */
  ghost predicate Tampered(p: Phase, h: History, answers: Id -> Answers) {
    exists i :: i in Started(h) && i < |p.tasks| && Tampers(answers(p.tasks[i].id))
  }

  lemma TamperedGrows(p: Phase, h: History, wave: seq<nat>, answers: Id -> Answers)
    requires InRange(p, wave)
    ensures Tampered(p, h + [wave], answers) <==>
      Tampered(p, h, answers) || exists k :: 0 <= k < |wave| && Tampers(answers(IdsOf(p, wave)[k]))
  {
    assert Front(h + [wave]) == h;
    if Tampered(p, h + [wave], answers) && !Tampered(p, h, answers) {
      var i :| i in Started(h + [wave]) && i < |p.tasks| && Tampers(answers(p.tasks[i].id));
      var k :| 0 <= k < |wave| && wave[k] == i;
      assert Tampers(answers(IdsOf(p, wave)[k]));
    }
    if k :| 0 <= k < |wave| && Tampers(answers(IdsOf(p, wave)[k])) {
      assert wave[k] in Started(h + [wave]);
    }
  }

  /** One wave: announce it, run its sessions, then merge and gate its members. */
  method RunWave(subtasks: seq<Subtask>, wave: seq<Subtask>, number: nat, hooks: PhaseHooks,
                 completedBefore: set<Id>, failedBefore: set<Id>,
                 ghost p: Phase, ghost h: History, ghost chosen: seq<nat>, ghost plan: CanonicalPlan, ghost calls: seq<Call>)
    returns (completedIds: set<Id>, failedIds: set<Id>, progressed: bool)
    requires Valid(p) && FreshWave(p, h, chosen) && |subtasks| == |p.tasks|
    requires p.fate == Fates(p.tasks, hooks.answers) && number == |h| + 1
    requires Agrees(p, h, Views(subtasks), completedBefore, failedBefore)
    requires |wave| == |chosen| && InRange(p, chosen) && forall k :: 0 <= k < |wave| ==> wave[k] == subtasks[chosen[k]]
    requires AllInRange(p, h) && hooks.plan == PlanAfter(plan, p, h, hooks.Writes(), hooks.stamps)
    requires hooks.calls == calls + CallsOf(p, h)
    requires hooks.metadataErrors == [] <==> !Tampered(p, h, hooks.answers)
    modifies subtasks, hooks
    ensures hooks.metadataErrors == [] <==> !Tampered(p, h + [chosen], hooks.answers)
    ensures Agrees(p, h + [chosen], Views(subtasks), completedIds, failedIds)
    ensures progressed <==> Progressed(p, chosen)
    ensures AllInRange(p, h + [chosen]) && hooks.plan == PlanAfter(plan, p, h + [chosen], hooks.Writes(), hooks.stamps)
    ensures hooks.calls == calls + CallsOf(p, h + [chosen])
  {
    hide Agrees, FreshWave, Progressed, AllInRange, PlanAfter, CallsOf, SettleAll, AllSettleCalls, Tampered, Tampers;
    TamperedGrows(p, h, chosen, hooks.answers);
    var ids := seq(|wave|, k requires 0 <= k < |wave| => wave[k].id);
    WaveIds(p, h, chosen, subtasks, completedBefore, failedBefore);
    assert ids == IdsOf(p, chosen);
    hooks.OnWave(number, ids);
    var outcomes := RunSessions(wave, hooks, ids);
    OneMoreWave(plan, calls, p, h, chosen, hooks.Writes(), hooks.stamps);
    completedIds, failedIds, progressed :=
      SettleWave(subtasks, wave, outcomes, hooks, completedBefore, failedBefore, p, h, chosen);
  }

  /** What the runner does on the whole: it performs the run `h`, reports it, and leaves the subtasks as the run does. */
  ghost predicate Performs(p: Phase, h: History, e: Ending, r: PhaseRunResult, views: seq<Task>) {
    Valid(p) && Ends(p, h, e) && Reports(p, h, e, r) && views == Now(p, h) && AllInRange(p, h)
  }

  /** What an exception out of the announcement of wave `raisesAt` leaves: the waves before it, and no report. */
  ghost predicate Interrupted(p: Phase, h: History, raisesAt: nat, views: seq<Task>) {
    Valid(p) && IsRun(p, h) && |h| + 1 == raisesAt && views == Now(p, h) && AllInRange(p, h)
  }

  /** The loop invariant on values. */
  ghost predicate Underway(p: Phase, h: History, views: seq<Task>, completed: set<Id>, failed: set<Id>)
    requires Valid(p)
  {
    IsRun(p, h) && (h != [] ==> Progressed(p, Last(h))) && Agrees(p, h, views, completed, failed) && AllInRange(p, h)
  }

  lemma RunGrows(p: Phase, h: History, wave: seq<nat>, views: seq<Task>, completed: set<Id>, failed: set<Id>)
    requires Valid(p) && Underway(p, h, views, completed, failed) && wave != [] && Selected(p, h, wave)
    ensures IsRun(p, h + [wave]) && Last(h + [wave]) == wave
    ensures |h| < |WaveLaws.Unfinished(p)|
  {
    assert Front(h + [wave]) == h;
    WaveLaws.WaveSizesAddUp(p, h + [wave]);
  }

  lemma SelectionFacts(p: Phase, h: History, chosen: seq<nat>, subtasks: seq<Subtask>, wave: seq<Subtask>,
                       completed: set<Id>, failed: set<Id>)
    requires Valid(p) && Selected(p, h, chosen) && Underway(p, h, Views(subtasks), completed, failed)
    requires |wave| == |chosen| && forall k :: 0 <= k < |wave| ==> wave[k] == subtasks[chosen[k]]
    ensures InRange(p, chosen) && FreshWave(p, h, chosen) && Untried(wave, failed) == wave
  {
    SelectedIsFresh(p, h, chosen);
    NoneTried(p, h, chosen, subtasks, wave, failed);
  }

  /** Select the next wave and drop from it what has already failed (never anything). */
  method NextWave(subtasks: seq<Subtask>, completedIds: set<Id>, failedIds: set<Id>, atMost: int,
                  ghost p: Phase, ghost h: History)
    returns (wave: seq<Subtask>, ghost chosen: seq<nat>)
    requires Valid(p) && Underway(p, h, Views(subtasks), completedIds, failedIds)
    requires Slots(atMost, 0) == Slots(p.workers, 0)
    ensures Selected(p, h, chosen) && InRange(p, chosen) && FreshWave(p, h, chosen)
    ensures |wave| == |chosen| && forall k :: 0 <= k < |wave| ==> wave[k] == subtasks[chosen[k]]
  {
    wave, chosen := SelectReadyWave(subtasks, completedIds, [], atMost);
    assert Views([]) == [];
    SelectionFacts(p, h, chosen, subtasks, wave, completedIds, failedIds);
    wave := Untried(wave, failedIds);
  }

  lemma FinishedReport(p: Phase, h: History, views: seq<Task>, completed: set<Id>, failed: set<Id>)
    requires Valid(p) && Underway(p, h, views, completed, failed)
    requires Leftover(views, completed + failed) == []
    ensures Performs(p, h, Finished, PhaseRunResult(completed, failed, false, [], |h|), views)
  {
    RemainingList(p, h);
    NothingRemains(p, h);
    WaveLaws.NothingListed(p, h, Finished, |p.tasks|);
  }

  lemma StarvedReport(p: Phase, h: History, views: seq<Task>, completed: set<Id>, failed: set<Id>)
    requires Valid(p) && Underway(p, h, views, completed, failed)
    requires Leftover(views, completed + failed) != [] && Selected(p, h, [])
    ensures Performs(p, h, Starved, PhaseRunResult(completed, failed, true, Leftover(views, completed + failed), |h|), views)
  {
    RemainingList(p, h);
    SomethingRemains(p, h);
  }

  lemma NoProgressReport(p: Phase, h: History, views: seq<Task>, completed: set<Id>, failed: set<Id>)
    requires Valid(p) && IsRun(p, h) && h != [] && !Progressed(p, Last(h)) && Agrees(p, h, views, completed, failed)
    requires AllInRange(p, h)
    ensures Performs(p, h, NoProgress, PhaseRunResult(completed, failed, true, Leftover(views, completed), |h|), views)
  {
    UncompletedList(p, h);
  }

  /** `raisesAt` is the number of the wave whose announcement raises, 0 if none does. */
  method RunParallelPhase(subtasks: seq<Subtask>, workers: int, hooks: PhaseHooks, raisesAt: nat)
    returns (raised: bool, result: PhaseRunResult, ghost h: History, ghost e: Ending)
    requires UniqueIds(Views(subtasks)) && hooks.metadataErrors == []
    modifies subtasks, hooks
    ensures var p := Phase(old(Views(subtasks)), workers, Fates(old(Views(subtasks)), hooks.answers));
      && (raised ==> raisesAt != 0 && Interrupted(p, h, raisesAt, Views(subtasks)))
      && (!raised ==> Performs(p, h, e, result, Views(subtasks)) && (raisesAt == 0 || result.waves < raisesAt))
      && hooks.plan == PlanAfter(old(hooks.plan), p, h, hooks.Writes(), hooks.stamps)
      && hooks.calls == old(hooks.calls) + CallsOf(p, h)
      && (hooks.metadataErrors == [] <==> !Tampered(p, h, hooks.answers))
  {
    hide Agrees, FreshWave, Progressed, Selected, IsRun, Performs, AllInRange, InRange, PlanAfter, CallsOf, Tampered, WaveLaws.Unfinished;
    var atMost := if workers < 1 then 1 else workers;
    ghost var p := Phase(Views(subtasks), workers, Fates(Views(subtasks), hooks.answers));
    var completedIds := set s | s in subtasks && s.status.Completed? :: s.id;
    var failedIds: set<Id> := {};
    var waves := 0;
    raised, h, e := false, [], Finished;
    NothingStarted(subtasks, p, hooks);
    while true
      invariant Underway(p, h, Views(subtasks), completedIds, failedIds) && waves == |h|
      invariant hooks.plan == PlanAfter(old(hooks.plan), p, h, hooks.Writes(), hooks.stamps)
      invariant hooks.calls == old(hooks.calls) + CallsOf(p, h)
      invariant hooks.metadataErrors == [] <==> !Tampered(p, h, hooks.answers)
      invariant !raised && (raisesAt == 0 || waves < raisesAt)
      decreases |WaveLaws.Unfinished(p)| - |h|
    {
      var remaining := Leftover(Views(subtasks), completedIds + failedIds);
      if remaining == [] {
        e := Finished;
        FinishedReport(p, h, Views(subtasks), completedIds, failedIds);
        result := PhaseRunResult(completedIds, failedIds, false, [], waves);
        return;
      }
      var wave, chosen := NextWave(subtasks, completedIds, failedIds, atMost, p, h);
      if wave == [] {
        e := Starved;
        StarvedReport(p, h, Views(subtasks), completedIds, failedIds);
        result := PhaseRunResult(completedIds, failedIds, true, remaining, waves);
        return;
      }
      waves := waves + 1;
      if waves == raisesAt {
        raised, result := true, PhaseRunResult({}, {}, false, [], 0);
        UnderwayIsInterrupted(p, h, Views(subtasks), completedIds, failedIds);
        return;
      }
      RunGrows(p, h, chosen, Views(subtasks), completedIds, failedIds);
      var progressed;
      completedIds, failedIds, progressed :=
        RunWave(subtasks, wave, waves, hooks, completedIds, failedIds, p, h, chosen, old(hooks.plan), old(hooks.calls));
      h := h + [chosen];
      if !progressed {
        e := NoProgress;
        NoProgressReport(p, h, Views(subtasks), completedIds, failedIds);
        result := PhaseRunResult(completedIds, failedIds, true, Leftover(Views(subtasks), completedIds), waves);
        return;
      }
    }
  }

  lemma UnderwayIsInterrupted(p: Phase, h: History, views: seq<Task>, completed: set<Id>, failed: set<Id>)
    requires Valid(p) && Underway(p, h, views, completed, failed)
    ensures Interrupted(p, h, |h| + 1, views)
  {
  }

  lemma NothingStarted(subtasks: seq<Subtask>, p: Phase, hooks: PhaseHooks)
    requires Valid(p) && Views(subtasks) == p.tasks
    ensures Underway(p, [], p.tasks, set s | s in subtasks && s.status.Completed? :: s.id, {})
    ensures PlanAfter(hooks.plan, p, [], hooks.Writes(), hooks.stamps) == hooks.plan
    ensures !Tampered(p, [], hooks.answers)
    ensures hooks.calls + CallsOf(p, []) == hooks.calls
  {
    assert Now(p, []) == p.tasks;
    forall s | s in subtasks && s.status.Completed? ensures s.id in CompletedIds(p, []) {
      var i :| 0 <= i < |subtasks| && subtasks[i] == s;
      assert p.tasks[i] == s.View();
      WaveLaws.DoneById(p, [], i);
    }
    forall id | id in CompletedIds(p, []) ensures exists s :: s in subtasks && s.status.Completed? && s.id == id {
      var i :| 0 <= i < |p.tasks| && IsDone(p, [], i) && p.tasks[i].id == id;
      assert p.tasks[i] == subtasks[i].View();
    }
  }

  lemma IdsTell(p: Phase, h: History, i: nat)
    requires Valid(p) && IsRun(p, h) && i < |p.tasks|
    ensures p.tasks[i].id in CompletedIds(p, h) <==> IsDone(p, h, i)
    ensures p.tasks[i].id in FailedIds(p, h) <==> IsLost(p, h, i)
    ensures Now(p, h)[i].status.Completed? <==> IsDone(p, h, i)
  {
    WaveLaws.DoneById(p, h, i);
    WaveLaws.LostWasPending(p, h, i);
    if p.tasks[i].id in FailedIds(p, h) {
      var j :| 0 <= j < |p.tasks| && IsLost(p, h, j) && p.tasks[j].id == p.tasks[i].id;
      assert j == i;
    }
  }

  lemma RemainingList(p: Phase, h: History)
    requires Valid(p) && IsRun(p, h)
    ensures Leftover(Now(p, h), CompletedIds(p, h) + FailedIds(p, h)) == ListedIds(p, h, Starved, |p.tasks|)
  {
    forall i | 0 <= i < |p.tasks| ensures Listed(p, h, Starved, i) <==>
        p.tasks[i].id !in CompletedIds(p, h) + FailedIds(p, h) && !Now(p, h)[i].status.Completed?
    {
      IdsTell(p, h, i);
    }
    LeftoverIsListed(p, h, Starved, CompletedIds(p, h) + FailedIds(p, h), |p.tasks|);
    assert Now(p, h)[..|p.tasks|] == Now(p, h);
  }

  lemma UncompletedList(p: Phase, h: History)
    requires Valid(p) && IsRun(p, h)
    ensures Leftover(Now(p, h), CompletedIds(p, h)) == ListedIds(p, h, NoProgress, |p.tasks|)
  {
    forall i | 0 <= i < |p.tasks| ensures Listed(p, h, NoProgress, i) <==>
        p.tasks[i].id !in CompletedIds(p, h) && !Now(p, h)[i].status.Completed?
    {
      IdsTell(p, h, i);
    }
    LeftoverIsListed(p, h, NoProgress, CompletedIds(p, h), |p.tasks|);
    assert Now(p, h)[..|p.tasks|] == Now(p, h);
  }

  lemma NothingRemains(p: Phase, h: History)
    requires Valid(p) && ListedIds(p, h, Starved, |p.tasks|) == []
    ensures forall i: nat :: !IsRemaining(p, h, i)
  {
    WaveLaws.ListedMembers(p, h, Starved, |p.tasks|);
    forall i: nat ensures !IsRemaining(p, h, i) {
      if i < |p.tasks| {
        assert p.tasks[i].id !in ListedIds(p, h, Starved, |p.tasks|);
        assert !Listed(p, h, Starved, i);
      }
    }
  }

  lemma SomethingRemains(p: Phase, h: History)
    requires Valid(p) && ListedIds(p, h, Starved, |p.tasks|) != []
    ensures exists i: nat :: IsRemaining(p, h, i)
  {
    WaveLaws.ListedMembers(p, h, Starved, |p.tasks|);
    assert ListedIds(p, h, Starved, |p.tasks|)[0] in ListedIds(p, h, Starved, |p.tasks|);
    var i :| 0 <= i < |p.tasks| && Listed(p, h, Starved, i);
    assert IsRemaining(p, h, i);
  }

  /** The runner's own guard against re-running a failed subtask never has anything to remove. */
  lemma NoneTried(p: Phase, h: History, chosen: seq<nat>, subtasks: seq<Subtask>, wave: seq<Subtask>, failed: set<Id>)
    requires Valid(p) && IsRun(p, h) && Selected(p, h, chosen) && Views(subtasks) == Now(p, h) && failed == FailedIds(p, h)
    requires |wave| == |chosen| && forall k :: 0 <= k < |wave| ==> wave[k] == subtasks[chosen[k]]
    ensures Untried(wave, failed) == wave
  {
    forall s | s in wave ensures s.id !in failed {
      var k :| 0 <= k < |wave| && wave[k] == s;
      assert chosen[k] in chosen;
      WaveLaws.MemberFacts(p, h, chosen, chosen[k]);
      IdsTell(p, h, chosen[k]);
      assert Now(p, h)[chosen[k]].id == s.id;
    }
  }
}
