/** The side-effecting hooks of the wave runner over the canonical plan (parallel_integration.py). */
module ParallelIntegration {
  import opened Basics
  import opened ImplementationPlan
  import opened CompletionGate
  import opened WaveRun

  /** How one agent session ends: an exception escapes the hook; an exception is caught inside it before the
      session's evidence is recorded; or the session returns a status, and committing its work or saving its memory
      afterwards may still raise. */
  datatype Session = Escaped | Crashed | Returned(error: bool, thenCrashed: bool)

  /** Everything the outside world answers about one subtask: its session, the git-metadata check of its worktree,
      the evidence its worktree holds (and the shared ledger it falls back on), the merge-back, whether the bookkeeping
      around the completion gate fails before the gate is asked, the gates (one of which may raise), and whether writes
      to the canonical plan on its behalf persist. */
  datatype Answers = Answers(session: Session, gitClean: bool, evidence: Evidence, sharedEvidence: Evidence,
                             merges: bool, bookkeepingFails: bool, gates: GateInputs, gateRaises: bool, writes: bool)

  /** The verdict those answers amount to. */
  function FateOf(a: Answers): Fate {
    if SessionResultOf(a) != SubtaskResult(true) then SessionLost
    else if !a.merges then MergeLost
    else if a.bookkeepingFails then Accepted(false)
    else if a.gateRaises || !CompletionRefusal(a.gates, a.evidence).Allowed? then GateRefused
    else Accepted(true)
  }

  /** `Raised` stands for an exception collected by `asyncio.gather`. */
  datatype SessionResult = Raised | SubtaskResult(success: bool)

  function SessionResultOf(a: Answers): SessionResult {
    match a.session
    case Escaped => Raised
    case Crashed => SubtaskResult(false)
    case Returned(error, thenCrashed) => SubtaskResult(!error && a.gitClean && !thenCrashed)
  }

  /** A session succeeds if and only if it returned without an error, nothing after it raised, and its worktree's git metadata
      is unchanged; what it raised is collected only if it escaped the hook. */
  lemma SessionSucceedsIff(a: Answers)
    ensures SessionResultOf(a) == SubtaskResult(true) <==> a.session == Returned(false, false) && a.gitClean
    ensures SessionResultOf(a).Raised? <==> a.session.Escaped?
  {
  }

  /** The session ran, and left its worktree's git metadata changed. */
  predicate Tampers(a: Answers) {
    a.session.Returned? && !a.gitClean
  }

  type CanonicalPlan = map<Id, Status>

  function Stamp(plan: CanonicalPlan, ids: seq<Id>): CanonicalPlan {
    map id | id in plan :: if id in ids then InProgress else plan[id]
  }

  function Record(plan: CanonicalPlan, id: Id, status: Status): CanonicalPlan {
    if id in plan then plan[id := status] else plan
  }

  /** The plan after one member of a wave has been through merge and gate. */
  function Settle(plan: CanonicalPlan, id: Id, fate: Fate, writes: bool): CanonicalPlan {
    if !writes then plan
    else match fate
      case SessionLost => plan
      case MergeLost => Record(plan, id, Pending)
      case GateRefused => Record(plan, id, Pending)
      case Accepted(gated) => if gated then Record(plan, id, Completed) else plan
  }

  datatype Call = WaveAnnounced(wave: nat, ids: seq<Id>) | SessionRun(id: Id) | MergeTried(id: Id) | CompletionAsked(id: Id)

  /** The hooks as one object: the canonical plan they write, and the child evidence and metadata errors they
      collect. `calls` is the order in which they were invoked. */
  class PhaseHooks {
    const answers: Id -> Answers
    const stamps: nat -> bool   // whether the start stamp of that wave persists
    var plan: CanonicalPlan
    var childEvidence: map<Id, Evidence>
    var metadataErrors: seq<Id>
    ghost var calls: seq<Call>

    ghost function Writes(): Id -> bool {
      id => answers(id).writes
    }

    constructor (answers: Id -> Answers, stamps: nat -> bool, plan: CanonicalPlan)
      ensures this.answers == answers && this.stamps == stamps && this.plan == plan
      ensures childEvidence == map[] && metadataErrors == [] && calls == []
    {
      this.answers, this.stamps, this.plan := answers, stamps, plan;
      childEvidence, metadataErrors, calls := map[], [], [];
    }

    method OnWave(wave: nat, ids: seq<Id>)
      modifies this
      ensures plan == if stamps(wave) then Stamp(old(plan), ids) else old(plan)
      ensures calls == old(calls) + [WaveAnnounced(wave, ids)]
      ensures childEvidence == old(childEvidence) && metadataErrors == old(metadataErrors)
    {
      if stamps(wave) {
        plan := Stamp(plan, ids);
      }
      calls := calls + [WaveAnnounced(wave, ids)];
    }

    /** Runs in the child worktree: reads nothing and writes nothing of the canonical plan. */
    method RunSubtask(id: Id) returns (r: SessionResult)
      modifies this
      ensures r == SessionResultOf(answers(id))
      ensures r == SubtaskResult(true) <==> answers(id).session == Returned(false, false) && answers(id).gitClean
      ensures r.Raised? <==> answers(id).session.Escaped?
      ensures plan == old(plan) && calls == old(calls) + [SessionRun(id)]
      ensures childEvidence == if answers(id).session.Returned?
                               then old(childEvidence)[id := answers(id).evidence] else old(childEvidence)
      ensures metadataErrors == if answers(id).session.Returned? && !answers(id).gitClean then old(metadataErrors) + [id] else old(metadataErrors)
    {
      calls := calls + [SessionRun(id)];
      var a := answers(id);
      match a.session {
        case Escaped => return Raised;
        case Crashed => return SubtaskResult(false);
        case Returned(error, thenCrashed) =>
          var sessionOk := !error;
          if !a.gitClean {
            metadataErrors := metadataErrors + [id];
            sessionOk := false;
          }
          childEvidence := childEvidence[id := a.evidence];
          if thenCrashed {
            return SubtaskResult(false);
          }
          return SubtaskResult(sessionOk);
      }
    }

    method ResetToPending(id: Id)
      modifies this`plan
      ensures plan == if answers(id).writes then Record(old(plan), id, Pending) else old(plan)
    {
      if answers(id).writes {
        plan := Record(plan, id, Pending);
      }
    }

    method MergeSubtask(id: Id) returns (merged: bool)
      modifies this`plan, this`calls
      ensures merged == answers(id).merges && calls == old(calls) + [MergeTried(id)]
      ensures plan == if merged || !answers(id).writes then old(plan) else Record(old(plan), id, Pending)
    {
      calls := calls + [MergeTried(id)];
      merged := answers(id).merges;
      if !merged {
        ResetToPending(id);
      }
    }

    /** `gated_mark_complete`: a gate that errored has not passed; a completion that could not be written down is
        logged but not refused. */
    method GatedMarkComplete(id: Id, evidence: Evidence) returns (ok: bool)
      modifies this`plan
      ensures ok == (!answers(id).gateRaises && CompletionRefusal(answers(id).gates, evidence).Allowed?)
      ensures plan == if ok && answers(id).writes then Record(old(plan), id, Completed) else old(plan)
    {
      var a := answers(id);
      if a.gateRaises {
        return false;
      }
      if !CompletionRefusal(a.gates, evidence).Allowed? {
        return false;
      }
      if a.writes {
        plan := Record(plan, id, Completed);
      }
      return true;
    }

    /** The runs recorded in the child's own worktree, else those in the shared ledger. */
    function EvidenceFor(id: Id): Evidence
      reads this`childEvidence
    {
      if id in childEvidence then childEvidence[id] else answers(id).sharedEvidence
    }

    /** A bookkeeping error before the gate is asked is answered "complete", and nothing is written. */
    method MarkComplete(id: Id) returns (ok: bool)
      modifies this`plan, this`calls
      ensures calls == old(calls) + [CompletionAsked(id)]
      ensures var a := answers(id);
        && ok == (a.bookkeepingFails || (!a.gateRaises && CompletionRefusal(a.gates, EvidenceFor(id)).Allowed?))
        && plan == if a.bookkeepingFails || !a.writes then old(plan)
                   else Record(old(plan), id, if ok then Completed else Pending)
    {
      calls := calls + [CompletionAsked(id)];
      if answers(id).bookkeepingFails {
        return true;
      }
      ok := GatedMarkComplete(id, EvidenceFor(id));
      if !ok {
        ResetToPending(id);
      }
    }
  }

  // ---- The hooks over a whole run -------------------------------------------------------------------------------

  function Fates(tasks: seq<Task>, answers: Id -> Answers): (fates: seq<Fate>)
    ensures |fates| == |tasks| && forall i :: 0 <= i < |tasks| ==> fates[i] == FateOf(answers(tasks[i].id))
  {
    seq(|tasks|, i requires 0 <= i < |tasks| => FateOf(answers(tasks[i].id)))
  }

  ghost predicate InRange(p: Phase, wave: seq<nat>) {
    |p.fate| == |p.tasks| && forall k :: 0 <= k < |wave| ==> wave[k] < |p.tasks|
  }

  ghost predicate AllInRange(p: Phase, h: History) {
    h != [] ==> AllInRange(p, Front(h)) && InRange(p, Last(h))
  }

  ghost function IdsOf(p: Phase, wave: seq<nat>): (ids: seq<Id>)
    requires InRange(p, wave)
    ensures |ids| == |wave| && forall k :: 0 <= k < |wave| ==> ids[k] == p.tasks[wave[k]].id
  {
    seq(|wave|, k requires 0 <= k < |wave| => p.tasks[wave[k]].id)
  }

  /** The canonical plan after the members of `wave` have been settled, one at a time. `writes` says for which
      subtasks a write to the plan persists. */
  ghost function SettleAll(plan: CanonicalPlan, p: Phase, wave: seq<nat>, writes: Id -> bool): CanonicalPlan
    requires InRange(p, wave)
  {
    if wave == [] then plan
    else
      var i := wave[|wave| - 1];
      Settle(SettleAll(plan, p, wave[..|wave| - 1], writes), p.tasks[i].id, p.fate[i], writes(p.tasks[i].id))
  }

  /** The canonical plan after the waves of `h`. `stamps` says for which waves the start stamp persists. */
  ghost function PlanAfter(plan: CanonicalPlan, p: Phase, h: History, writes: Id -> bool, stamps: nat -> bool): CanonicalPlan
    requires AllInRange(p, h)
  {
    if h == [] then plan
    else
      var before := PlanAfter(plan, p, Front(h), writes, stamps);
      SettleAll(if stamps(|h|) then Stamp(before, IdsOf(p, Last(h))) else before, p, Last(h), writes)
  }

  ghost function SessionCalls(ids: seq<Id>): (calls: seq<Call>)
    ensures |calls| == |ids| && forall k :: 0 <= k < |ids| ==> calls[k] == SessionRun(ids[k])
  {
    seq(|ids|, k requires 0 <= k < |ids| => SessionRun(ids[k]))
  }

  /** Which of merge and completion were asked for one member. */
  ghost function SettleCalls(id: Id, fate: Fate): seq<Call> {
    match fate
    case SessionLost => []
    case MergeLost => [MergeTried(id)]
    case GateRefused => [MergeTried(id), CompletionAsked(id)]
    case Accepted(_) => [MergeTried(id), CompletionAsked(id)]
  }

  ghost function AllSettleCalls(p: Phase, wave: seq<nat>): seq<Call>
    requires InRange(p, wave)
  {
    if wave == [] then []
    else
      var i := wave[|wave| - 1];
      AllSettleCalls(p, wave[..|wave| - 1]) + SettleCalls(p.tasks[i].id, p.fate[i])
  }

  /** The hook calls of one wave: it is announced, its sessions run, then its members are merged and gated one at
      a time, in the order the wave lists them. */
  ghost function WaveCalls(p: Phase, number: nat, wave: seq<nat>): seq<Call>
    requires InRange(p, wave)
  {
    [WaveAnnounced(number, IdsOf(p, wave))] + SessionCalls(IdsOf(p, wave)) + AllSettleCalls(p, wave)
  }

  ghost function CallsOf(p: Phase, h: History): seq<Call>
    requires AllInRange(p, h)
  {
    if h == [] then [] else CallsOf(p, Front(h)) + WaveCalls(p, |h|, Last(h))
  }

  lemma OneMoreSettled(plan: CanonicalPlan, calls: seq<Call>, p: Phase, wave: seq<nat>, k: nat, writes: Id -> bool)
    requires InRange(p, wave) && k < |wave|
    ensures var id, fate := p.tasks[wave[k]].id, p.fate[wave[k]];
      && SettleAll(plan, p, wave[..k + 1], writes) == Settle(SettleAll(plan, p, wave[..k], writes), id, fate, writes(id))
      && calls + AllSettleCalls(p, wave[..k + 1]) == calls + AllSettleCalls(p, wave[..k]) + SettleCalls(id, fate)
  {
    assert wave[..k + 1][..k] == wave[..k];
  }
}
