/** Runs of one phase through the wave runner, as values.

    A subtask is named by its position in the phase. A history lists the waves of a run, each wave the positions
    it started. The hooks are asked about a subtask at most once in a phase (`NoSubtaskStartsTwice`), so whatever
    they answer is one verdict per subtask: quantifying over `fate` is quantifying over the hooks. */
module WaveRun {
  import opened Basics
  import opened ImplementationPlan
  import opened WaveScheduler

  /** What became of a subtask that was started: its session raised or failed, its merge-back failed, the
      completion gate refused it, or it was accepted; `gated` is false when the runner was told "complete" because the
      bookkeeping failed before any gate gave a verdict. */
  datatype Fate = SessionLost | MergeLost | GateRefused | Accepted(gated: bool)

  datatype Phase = Phase(tasks: seq<Task>, workers: int, fate: seq<Fate>)

  type History = seq<seq<nat>>

  ghost predicate Valid(p: Phase) {
    UniqueIds(p.tasks) && |p.fate| == |p.tasks|
  }

  ghost function Members(wave: seq<nat>): (m: set<nat>)
    ensures forall i :: i in m <==> i in wave
  {
    set i | i in wave
  }

  ghost function Started(h: History): set<nat> {
    if h == [] then {} else Started(Front(h)) + Members(Last(h))
  }

  /** Finished before the phase began, or accepted during it. */
  ghost predicate IsDone(p: Phase, h: History, i: nat)
    requires Valid(p)
  {
    i < |p.tasks| && (p.tasks[i].status.Completed? || (i in Started(h) && p.fate[i].Accepted?))
  }

  ghost predicate IsLost(p: Phase, h: History, i: nat)
    requires Valid(p)
  {
    i < |p.tasks| && i in Started(h) && !p.fate[i].Accepted?
  }

  /** Neither finished nor tried. */
  ghost predicate IsRemaining(p: Phase, h: History, i: nat)
    requires Valid(p)
  {
    i < |p.tasks| && !p.tasks[i].status.Completed? && i !in Started(h)
  }

  ghost function CompletedIds(p: Phase, h: History): set<Id>
    requires Valid(p)
  {
    set i | 0 <= i < |p.tasks| && IsDone(p, h, i) :: p.tasks[i].id
  }

  ghost function FailedIds(p: Phase, h: History): set<Id>
    requires Valid(p)
  {
    set i | 0 <= i < |p.tasks| && IsLost(p, h, i) :: p.tasks[i].id
  }

  /** The subtasks as they stand after `h`: the accepted ones COMPLETED, the lost ones FAILED, the rest untouched. */
  ghost function Now(p: Phase, h: History): (tasks: seq<Task>)
    requires Valid(p)
    ensures |tasks| == |p.tasks|
  {
    seq(|p.tasks|, i requires 0 <= i < |p.tasks| =>
      if i !in Started(h) then p.tasks[i]
      else p.tasks[i].(status := if p.fate[i].Accepted? then Completed else Failed))
  }

  ghost predicate Progressed(p: Phase, wave: seq<nat>)
    requires Valid(p)
  {
    exists i :: i in wave && i < |p.fate| && p.fate[i].Accepted?
  }

  /** `wave` is what the scheduler selects after `h` (it may be empty). */
  ghost predicate Selected(p: Phase, h: History, wave: seq<nat>)
    requires Valid(p)
  {
    FirstFit(Now(p, h), CompletedIds(p, h), [], Slots(p.workers, 0), wave)
  }

  /** `h` is the list of waves of a run so far: each one non-empty, selected after the waves before it, and
      every wave but the last completed something. */
  ghost predicate IsRun(p: Phase, h: History)
    requires Valid(p)
  {
    h != [] ==>
      && IsRun(p, Front(h))
      && (Front(h) != [] ==> Progressed(p, Last(Front(h))))
      && Last(h) != []
      && Selected(p, Front(h), Last(h))
  }

  datatype Ending = Finished | Starved | NoProgress

  /** How the loop is left: nothing remains; something remains but no wave can be formed; or the last wave
      completed nothing. */
  ghost predicate Ends(p: Phase, h: History, e: Ending)
    requires Valid(p)
  {
    && IsRun(p, h)
    && match e
       case Finished => (h != [] ==> Progressed(p, Last(h))) && forall i: nat :: !IsRemaining(p, h, i)
       case Starved => && (h != [] ==> Progressed(p, Last(h)))
                       && (exists i: nat :: IsRemaining(p, h, i))
                       && Selected(p, h, [])
       case NoProgress => h != [] && !Progressed(p, Last(h))
  }

  datatype PhaseRunResult = PhaseRunResult(completedIds: set<Id>, failedIds: set<Id>, stalled: bool,
                                           remainingIds: seq<Id>, waves: nat)
  {
    /** "True when every subtask completed and nothing stalled or failed." */
    predicate Ok() {
      !stalled && failedIds == {} && remainingIds == []
    }
  }

  ghost predicate Listed(p: Phase, h: History, e: Ending, i: nat)
    requires Valid(p)
  {
    match e
    case Finished => false
    case Starved => IsRemaining(p, h, i)
    case NoProgress => i < |p.tasks| && !IsDone(p, h, i)
  }

  /** The listed ids below position `n`, in plan order. */
  ghost function ListedIds(p: Phase, h: History, e: Ending, n: nat): seq<Id>
    requires Valid(p) && n <= |p.tasks|
  {
    if n == 0 then []
    else ListedIds(p, h, e, n - 1) + if Listed(p, h, e, n - 1) then [p.tasks[n - 1].id] else []
  }

  /** What the runner reports for a run. On a no-progress exit the remaining ids hold the failed ones too. */
  ghost predicate Reports(p: Phase, h: History, e: Ending, r: PhaseRunResult)
    requires Valid(p)
  {
    && r.completedIds == CompletedIds(p, h)
    && r.failedIds == FailedIds(p, h)
    && r.stalled == !e.Finished?
    && r.waves == |h|
    && r.remainingIds == ListedIds(p, h, e, |p.tasks|)
  }
}
