/** Selection of the next wave of subtasks that may run together (scheduler.py). */
module WaveScheduler {
  import opened ImplementationPlan

  /** Two subtasks may not share a wave when their file sets meet, or when either footprint is unknown. */
  predicate Conflicts(a: Task, b: Task) {
    a.files == {} || b.files == {} || a.files * b.files != {}
  }

  predicate Ready(t: Task, completed: set<Id>) {
    && t.status.Pending?
    && t.id !in completed
    && (forall d :: d in t.dependsOn ==> d in completed)
  }

  /** `t` may join a wave that already holds `reserved`. */
  predicate Admissible(t: Task, completed: set<Id>, reserved: seq<Task>) {
    && Ready(t, completed)
    && (forall r :: r in reserved ==> r.id != t.id && !Conflicts(t, r))
  }

  function Slots(maxWorkers: int, inFlight: nat): int {
    (if maxWorkers < 1 then 1 else maxWorkers) - inFlight
  }

  ghost predicate StrictlyIncreasing(s: seq<nat>, bound: nat) {
    && (forall j, k :: 0 <= j < k < |s| ==> s[j] < s[k])
    && (forall k :: 0 <= k < |s| ==> s[k] < bound)
  }

  ghost function At(tasks: seq<Task>, chosen: seq<nat>): (r: seq<Task>)
    requires forall k :: 0 <= k < |chosen| ==> chosen[k] < |tasks|
    ensures |r| == |chosen|
  {
    seq(|chosen|, k requires 0 <= k < |chosen| => tasks[chosen[k]])
  }

  /** Position `i` falls in the gap before the k-th chosen position. */
  ghost predicate InGap(chosen: seq<nat>, k: nat, i: nat) {
    && k <= |chosen|
    && (k > 0 ==> chosen[k - 1] < i)
    && (k < |chosen| ==> i < chosen[k])
  }

  /** First-fit over the positions below `bound`: `chosen` lists positions in plan order, each one admissible
      next to the earlier choices, and a position is passed over only because the earlier choices already fill
      every slot or because it is not admissible next to them. */
  ghost predicate FirstFitBelow(tasks: seq<Task>, completed: set<Id>, inFlight: seq<Task>, slots: int,
                                chosen: seq<nat>, bound: nat)
    requires bound <= |tasks|
  {
    && StrictlyIncreasing(chosen, bound)
    && (|chosen| <= slots || chosen == [])
    && (forall k :: 0 <= k < |chosen| ==>
          Admissible(tasks[chosen[k]], completed, inFlight + At(tasks, chosen[..k])))
    && (forall k: nat, i: nat {:trigger InGap(chosen, k, i)} :: i < bound && InGap(chosen, k, i) ==>
          k >= slots || !Admissible(tasks[i], completed, inFlight + At(tasks, chosen[..k])))
  }

  /** What the documentation promises of a wave, with no loop in it. */
  ghost predicate FirstFit(tasks: seq<Task>, completed: set<Id>, inFlight: seq<Task>, slots: int, chosen: seq<nat>)
  {
    FirstFitBelow(tasks, completed, inFlight, slots, chosen, |tasks|)
  }

  lemma ChooseNext(tasks: seq<Task>, completed: set<Id>, inFlight: seq<Task>, slots: int, chosen: seq<nat>, i: nat)
    requires i < |tasks| && FirstFitBelow(tasks, completed, inFlight, slots, chosen, i) && |chosen| < slots
    requires Admissible(tasks[i], completed, inFlight + At(tasks, chosen))
    ensures FirstFitBelow(tasks, completed, inFlight, slots, chosen + [i], i + 1)
    ensures At(tasks, chosen + [i]) == At(tasks, chosen) + [tasks[i]]
  {
    var grown := chosen + [i];
    assert chosen[..|chosen|] == chosen;
    forall k | 0 <= k < |grown|
      ensures Admissible(tasks[grown[k]], completed, inFlight + At(tasks, grown[..k]))
    {
      assert grown[..k] == chosen[..k];
    }
    forall k: nat, j: nat | j < i + 1 && InGap(grown, k, j)
      ensures k >= slots || !Admissible(tasks[j], completed, inFlight + At(tasks, grown[..k]))
    {
      if k <= |chosen| {
        assert InGap(chosen, k, j) && grown[..k] == chosen[..k];
      } else {
        assert false;
      }
    }
  }

  lemma PassOver(tasks: seq<Task>, completed: set<Id>, inFlight: seq<Task>, slots: int, chosen: seq<nat>, i: nat)
    requires i < |tasks| && FirstFitBelow(tasks, completed, inFlight, slots, chosen, i)
    requires |chosen| >= slots || !Admissible(tasks[i], completed, inFlight + At(tasks, chosen))
    ensures FirstFitBelow(tasks, completed, inFlight, slots, chosen, i + 1)
  {
    assert chosen[..|chosen|] == chosen;
    forall k: nat, j: nat | j < i + 1 && InGap(chosen, k, j)
      ensures k >= slots || !Admissible(tasks[j], completed, inFlight + At(tasks, chosen[..k]))
    {
      if j == i {
        assert k == |chosen|;
      }
    }
  }

  /** Once every slot is taken, the positions that were not looked at are rightly passed over. */
  lemma StopWhenFull(tasks: seq<Task>, completed: set<Id>, inFlight: seq<Task>, slots: int, chosen: seq<nat>, i: nat)
    requires i <= |tasks| && FirstFitBelow(tasks, completed, inFlight, slots, chosen, i) && |chosen| >= slots
    ensures FirstFit(tasks, completed, inFlight, slots, chosen)
  {
    forall k: nat, j: nat | j < |tasks| && InGap(chosen, k, j)
      ensures k >= slots || !Admissible(tasks[j], completed, inFlight + At(tasks, chosen[..k]))
    {
      assert k < |chosen| ==> j < i;
    }
  }

  /** `any(s.id == r.id ...)` or `any(conflicts(s, r) ...)` over the reserved objects, on their values. */
  lemma ReservedViews(s: Subtask, reserved: seq<Subtask>)
    ensures (exists r :: r in reserved && (s.id == r.id || Conflicts(s.View(), r.View())))
       <==> (exists t :: t in Views(reserved) && (t.id == s.id || Conflicts(s.View(), t)))
  {
    forall r | r in reserved ensures r.View() in Views(reserved) {
      var n :| 0 <= n < |reserved| && reserved[n] == r;
      assert Views(reserved)[n] == r.View();
    }
  }

  method SelectReadyWave(subtasks: seq<Subtask>, completedIds: set<Id>, inFlight: seq<Subtask>, maxWorkers: int)
    returns (picked: seq<Subtask>, ghost chosen: seq<nat>)
    ensures FirstFit(Views(subtasks), completedIds, Views(inFlight), Slots(maxWorkers, |inFlight|), chosen)
    ensures |picked| == |chosen|
    ensures forall k :: 0 <= k < |picked| ==> picked[k] == subtasks[chosen[k]]
    ensures picked == [] || |picked| <= Slots(maxWorkers, |inFlight|)
  {
    var freeSlots := Slots(maxWorkers, |inFlight|);
    picked, chosen := [], [];
    if freeSlots <= 0 {
      return;
    }
    var reserved := inFlight;
    ghost var tasks, flying := Views(subtasks), Views(inFlight);
    assert flying + At(tasks, []) == flying;
    for i := 0 to |subtasks|
      invariant FirstFitBelow(tasks, completedIds, flying, freeSlots, chosen, i)
      invariant |picked| == |chosen|
      invariant forall k :: 0 <= k < |picked| ==> picked[k] == subtasks[chosen[k]]
      invariant Views(reserved) == flying + At(tasks, chosen)
      invariant |picked| <= freeSlots
    {
      if |picked| >= freeSlots {
        StopWhenFull(tasks, completedIds, flying, freeSlots, chosen, i);
        break;
      }
      var s := subtasks[i];
      ReservedViews(s, reserved);
      var taken := exists r :: r in reserved && (s.id == r.id || Conflicts(s.View(), r.View()));
      if Ready(s.View(), completedIds) && !taken {
        ChooseNext(tasks, completedIds, flying, freeSlots, chosen, i);
        picked, reserved, chosen := picked + [s], reserved + [s], chosen + [i];
      } else {
        PassOver(tasks, completedIds, flying, freeSlots, chosen, i);
      }
    }
  }

  /** Members of a wave touch disjoint, known files; a member with an unknown footprint runs alone. */
  lemma WaveMembersAreCompatible(tasks: seq<Task>, completed: set<Id>, inFlight: seq<Task>, slots: int,
                                 chosen: seq<nat>, j: nat, k: nat)
    requires FirstFit(tasks, completed, inFlight, slots, chosen)
    requires j < k < |chosen|
    ensures var a, b := tasks[chosen[j]], tasks[chosen[k]];
            a.id != b.id && a.files != {} && b.files != {} && a.files * b.files == {}
    ensures tasks[chosen[j]].id !in tasks[chosen[k]].dependsOn && tasks[chosen[k]].id !in tasks[chosen[j]].dependsOn
  {
    var earlier := At(tasks, chosen[..k]);
    assert earlier[j] == tasks[chosen[j]];
    assert (inFlight + earlier)[|inFlight| + j] == tasks[chosen[j]];
    assert !Conflicts(tasks[chosen[k]], tasks[chosen[j]]);
    assert Ready(tasks[chosen[j]], completed) && Ready(tasks[chosen[k]], completed);
  }

  ghost function Below(chosen: seq<nat>, i: nat): set<nat> {
    set c | c in chosen && c < i
  }

  lemma BelowTakes(front: seq<nat>, last: nat, i: nat)
    requires last !in front
    ensures |Below(front + [last], i)| == |Below(front, i)| + if last < i then 1 else 0
  {
    assert Below(front + [last], i) == Below(front, i) + if last < i then {last} else {};
  }

  lemma {:induction false} BelowIs(chosen: seq<nat>, i: nat, bound: nat) returns (k: nat)
    requires StrictlyIncreasing(chosen, bound)
    ensures k == |Below(chosen, i)| && k <= |chosen| && (forall j :: 0 <= j < k ==> chosen[j] < i)
    ensures forall j :: k <= j < |chosen| ==> chosen[j] >= i
  {
    if chosen == [] {
      k := 0;
    } else {
      var front, last := chosen[..|chosen| - 1], chosen[|chosen| - 1];
      assert chosen == front + [last];
      forall j | 0 <= j < |front| ensures front[j] == chosen[j] && chosen[j] < last {
      }
      k := BelowIs(front, i, bound);
      BelowTakes(front, last, i);
      hide Below;
      var next := if k < |front| then front[k] else last;
      assert next <= last && (k < |front| ==> next >= i);
      if last < i {
        k := k + 1;
      }
    }
  }

  /** No shared id or file, and both footprints known. */
  lemma CompatibleIff(t: Task, r: Task)
    ensures !Conflicts(t, r) <==> t.files != {} && r.files != {} && t.files * r.files == {}
  {
  }

  lemma AdmissibleIff(tasks: seq<Task>, completed: set<Id>, inFlight: seq<Task>, chosen: seq<nat>, i: nat, k: nat)
    requires StrictlyIncreasing(chosen, |tasks|) && i < |tasks| && k <= |chosen|
    requires (forall j :: 0 <= j < k ==> chosen[j] < i) && (forall j :: k <= j < |chosen| ==> chosen[j] >= i)
    ensures Admissible(tasks[i], completed, inFlight + At(tasks, chosen[..k])) <==>
      && Ready(tasks[i], completed)
      && (forall r :: r in inFlight ==> r.id != tasks[i].id && !Conflicts(tasks[i], r))
      && (forall c :: c in chosen && c < i ==> tasks[c].id != tasks[i].id && !Conflicts(tasks[i], tasks[c]))
  {
    var t, earlier := tasks[i], At(tasks, chosen[..k]);
    assert forall r :: r in inFlight + earlier <==> r in inFlight || r in earlier;
    forall c | c in chosen && c < i ensures tasks[c] in earlier {
      var j :| 0 <= j < |chosen| && chosen[j] == c;
      assert earlier[j] == tasks[c];
    }
    forall r | r in earlier ensures exists c :: c in chosen && c < i && tasks[c] == r {
      var j :| 0 <= j < |earlier| && earlier[j] == r;
      assert chosen[j] in chosen && tasks[chosen[j]] == r;
    }
    hide Ready, Conflicts;
  }

  /** The wave, position by position: a subtask is in it if and only if it is pending, not completed, its dependencies are, fewer
      than all slots are taken by earlier positions, and it shares no id and no file, all footprints being known, with a
      subtask in flight or chosen before it. */
  lemma ChosenIff(tasks: seq<Task>, completed: set<Id>, inFlight: seq<Task>, slots: int, chosen: seq<nat>, i: nat)
    requires FirstFit(tasks, completed, inFlight, slots, chosen) && i < |tasks| && slots > 0
    ensures var t := tasks[i];
      i in chosen <==>
        && |Below(chosen, i)| < slots
        && t.status == Pending && t.id !in completed && (forall d :: d in t.dependsOn ==> d in completed)
        && (forall r :: r in inFlight ==> r.id != t.id && t.files != {} && r.files != {} && t.files * r.files == {})
        && (forall c :: c in chosen && c < i ==>
              tasks[c].id != t.id && t.files != {} && tasks[c].files != {} && t.files * tasks[c].files == {})
  {
    var k := BelowIs(chosen, i, |tasks|);
    AdmissibleIff(tasks, completed, inFlight, chosen, i, k);
    hide At, Below, Conflicts;
    forall r | r in tasks + inFlight ensures !Conflicts(tasks[i], r) <==> tasks[i].files != {} && r.files != {} && tasks[i].files * r.files == {} {
      CompatibleIff(tasks[i], r);
    }
    if i in chosen {
      var j :| 0 <= j < |chosen| && chosen[j] == i;
      assert j == k;
    } else {
      assert InGap(chosen, k, i);
    }
  }

  /** Nothing a wave could start is left idle: with a free slot and nothing in flight, an empty wave means that
      no subtask is ready. */
  lemma EmptyWaveIffNothingReady(tasks: seq<Task>, completed: set<Id>, slots: int, chosen: seq<nat>)
    requires FirstFit(tasks, completed, [], slots, chosen) && slots > 0
    ensures chosen == [] <==> forall i :: 0 <= i < |tasks| ==> !Ready(tasks[i], completed)
  {
    if chosen == [] {
      forall i | 0 <= i < |tasks| ensures !Ready(tasks[i], completed) {
        assert InGap(chosen, 0, i);
      }
    } else {
      assert Admissible(tasks[chosen[0]], completed, [] + At(tasks, chosen[..0]));
    }
  }

  /** The wave is a function of its inputs: first-fit leaves no choice. */
  lemma WaveIsDetermined(tasks: seq<Task>, completed: set<Id>, inFlight: seq<Task>, slots: int,
                         a: seq<nat>, b: seq<nat>)
    requires FirstFit(tasks, completed, inFlight, slots, a)
    requires FirstFit(tasks, completed, inFlight, slots, b)
    ensures a == b
  {
    var n: nat := 0;
    while n < |a| && n < |b|
      invariant n <= |a| && n <= |b| && a[..n] == b[..n]
    {
      assert n > 0 ==> a[n - 1] == a[..n][n - 1] == b[..n][n - 1] == b[n - 1];
      if a[n] < b[n] {
        assert InGap(b, n, a[n]);
      } else if b[n] < a[n] {
        assert InGap(a, n, b[n]);
      }
      n := n + 1;
    }
    assert n > 0 ==> a[n - 1] == a[..n][n - 1] == b[..n][n - 1] == b[n - 1];
    if n < |b| {
      assert InGap(a, n, b[n]);
    } else if n < |a| {
      assert InGap(b, n, a[n]);
    }
  }
}
