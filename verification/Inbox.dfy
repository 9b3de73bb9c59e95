/** The shared inbox file under concurrent posters, drainers and lock-free readers (inbox.py), as interleaved steps.

    A message is named by its position in the file: the file is only ever replaced by a list with the same messages
    in the same places, possibly marked read, and possibly one more at the end. */
module Inbox {
  import opened Basics

  type Pid = nat

  datatype Message = Message(sender: string, text: string, read: bool)

  /** `post_message`, `drain_unread` and `has_pending`. */
  datatype Role = Poster(message: Message) | Drainer | Peeker

  /** Where a call stands: not begun; lock held; file read under the lock; file replaced (or nothing to write), lock
      still held; read or write failed before the replace, lock still held; returned; raised; the unlock after the
      replace failed, so that a drain returned nothing and a post raised; killed. */
  datatype Pc =
    | Start | Holding | Loaded(list: seq<Message>) | Committed | Aborted
    | Returned | Raised | UnlockFailed | Crashed

  /** `out` is what a drain is about to return, `taken` the positions it marked, `committed` whether it replaced the file. */
  datatype Proc = Proc(pc: Pc, out: seq<Message>, taken: set<nat>, committed: bool, seen: seq<Message>)

  /** `owners` and `commits` only record what happened: who appended each new message, and every list that was ever
      the content of the file. `before` is the content the run started from. */
  datatype State = State(file: Option<seq<Message>>, lock: Option<Pid>, roles: map<Pid, Role>, procs: map<Pid, Proc>,
                         before: seq<Message>, owners: seq<Pid>, commits: seq<seq<Message>>)

  datatype Action = SeeNoFile | Acquire | TimeOut | Load | FailRead | FailWrite | Replace | Release | FailUnlock | Peek | Crash

  function Contents(s: State): seq<Message> {
    if s.file.None? then [] else s.file.value
  }

  function MarkRead(list: seq<Message>): (r: seq<Message>)
    ensures |r| == |list| && forall i :: 0 <= i < |list| ==> r[i] == list[i].(read := true)
  {
    seq(|list|, i requires 0 <= i < |list| => list[i].(read := true))
  }

  /** `[m for m in messages if not m["read"]]` */
  function Unread(list: seq<Message>): seq<Message> {
    if list == [] then []
    else Unread(list[..|list| - 1]) + if list[|list| - 1].read then [] else [list[|list| - 1]]
  }

  ghost function UnreadPositions(list: seq<Message>): set<nat> {
    set i | 0 <= i < |list| && !list[i].read :: i
  }

  // ---- Steps ------------------------------------------------------------------------------------------------------

  /** `locking` is whether the platform has `flock`; without it the lock is taken unconditionally. */
  ghost predicate Can(locking: bool, s: State, p: Pid, a: Action) {
    p in s.procs && p in s.roles &&
    var q, role := s.procs[p], s.roles[p];
    match a
    case SeeNoFile => q.pc.Start? && role.Drainer? && s.file.None?
    case Acquire => q.pc.Start? && !role.Peeker? && (locking ==> s.lock.None?) && (role.Drainer? ==> s.file.Some?)
    case TimeOut => locking && q.pc.Start? && !role.Peeker? && (role.Drainer? ==> s.file.Some?)
    case Load => q.pc.Holding?
    case FailRead => q.pc.Holding?
    case FailWrite => q.pc.Loaded? && (role.Drainer? ==> Unread(q.pc.list) != [])
    case Replace => q.pc.Loaded?
    case Release => q.pc.Committed? || q.pc.Aborted?
    case FailUnlock => locking && q.pc.Committed?
    case Peek => q.pc.Start? && role.Peeker?
    case Crash => !Over(q)
  }

  /** The call has ended, one way or another. */
  predicate Over(q: Proc) {
    q.pc.Returned? || q.pc.Raised? || q.pc.UnlockFailed? || q.pc.Crashed?
  }

  /** What the caller of a drain is given: nothing when the unlock failed, whatever had been marked read. */
  function Answer(q: Proc): seq<Message> {
    if q.pc.Returned? then q.out else []
  }

  ghost function Set(s: State, p: Pid, q: Proc): State {
    s.(procs := s.procs[p := q])
  }

  ghost function Unlocked(s: State, p: Pid): State {
    if s.lock == Some(p) then s.(lock := None) else s
  }

  ghost function Commit(s: State, list: seq<Message>): State {
    s.(file := Some(list), commits := s.commits + [list])
  }

  ghost function Do(locking: bool, s: State, p: Pid, a: Action): State
    requires Can(locking, s, p, a)
  {
    var q, role := s.procs[p], s.roles[p];
    match a
    case SeeNoFile => Set(s, p, q.(pc := Returned))
    case Acquire => Set(if locking then s.(lock := Some(p)) else s, p, q.(pc := Holding))
    case TimeOut => Set(s, p, q.(pc := if role.Poster? then Raised else Returned))
    case Load => Set(s, p, q.(pc := Loaded(Contents(s))))
    case FailRead => Set(s, p, q.(pc := Aborted))
    case FailWrite => Set(s, p, q.(pc := Aborted))
    case Replace =>
      if role.Poster? then
        Set(Commit(s, q.pc.list + [role.message]), p, q.(pc := Committed, committed := true)).(owners := s.owners + [p])
      else if Unread(q.pc.list) == [] then
        Set(s, p, q.(pc := Committed))
      else
        Set(Commit(s, MarkRead(q.pc.list)), p,
            q.(pc := Committed, committed := true, out := MarkRead(Unread(q.pc.list)), taken := UnreadPositions(q.pc.list)))
    case Release => Set(Unlocked(s, p), p, q.(pc := if q.pc.Aborted? && role.Poster? then Raised else Returned))
    case FailUnlock => Set(Unlocked(s, p), p, q.(pc := UnlockFailed))
    case Peek => Set(s, p, q.(pc := Returned, seen := Contents(s)))
    case Crash => Set(Unlocked(s, p), p, q.(pc := Crashed))
  }

  ghost predicate Initial(s: State) {
    && s.lock.None? && s.roles.Keys == s.procs.Keys && s.before == Contents(s) && s.owners == [] && s.commits == [Contents(s)]
    && (forall p :: p in s.procs ==>
          s.procs[p].pc.Start? && s.procs[p].taken == {} && s.procs[p].out == [] && !s.procs[p].committed &&
          (s.roles[p].Poster? ==> !s.roles[p].message.read))
  }

  /** The state after the given steps, in any interleaving; None when one of them was not possible. */
  ghost function After(locking: bool, s0: State, steps: seq<(Pid, Action)>): Option<State> {
    if steps == [] then Some(s0)
    else
      var (p, a) := steps[|steps| - 1];
      var m := After(locking, s0, steps[..|steps| - 1]);
      if m.Some? && Can(locking, m.value, p, a) then Some(Do(locking, m.value, p, a)) else None
  }

  ghost predicate Reaches(locking: bool, s0: State, steps: seq<(Pid, Action)>, s: State) {
    After(locking, s0, steps) == Some(s)
  }

  // ---- The invariant ------------------------------------------------------------------------------------------------

  ghost predicate InSection(q: Proc) {
    q.pc.Holding? || q.pc.Loaded? || q.pc.Committed? || q.pc.Aborted?
  }

  /** Only the lock holder is in the critical section, and what it read is still what the file holds. */
  ghost predicate LockHeld(s: State) {
    && (s.lock.Some? ==> s.lock.value in s.procs)
    && (forall p :: p in s.procs ==> (InSection(s.procs[p]) <==> s.lock == Some(p)))
    && (forall p :: p in s.procs && s.procs[p].pc.Loaded? ==> s.procs[p].pc.list == Contents(s))
  }

  /** Nothing is taken, returned or committed before the replace. */
  ghost predicate Uncommitted(q: Proc) {
    q.taken == {} && q.out == [] && !q.committed
  }

  /** A message is read if and only if it was read at the start or some drain took it; no two drains took the same
      one. */
  ghost predicate TakenOnce(s: State)
    requires s.roles.Keys == s.procs.Keys
  {
    && (forall p: Pid, i: nat :: Took(s, p, i) ==>
          s.roles[p].Drainer? && i < |Contents(s)| && !InitiallyRead(s, i) && Contents(s)[i].read)
    && (forall i :: 0 <= i < |Contents(s)| && Contents(s)[i].read && !InitiallyRead(s, i) ==> exists p :: Took(s, p, i))
    && (forall p: Pid, q: Pid, i: nat :: Took(s, p, i) && Took(s, q, i) ==> p == q)
  }

  ghost predicate Took(s: State, p: Pid, i: nat) {
    p in s.procs && i in s.procs[p].taken
  }

  ghost predicate InitiallyRead(s: State, i: nat) {
    i < |s.before| && s.before[i].read
  }

  /** The messages at the taken positions, in file order. */
  ghost function Picked(list: seq<Message>, taken: set<nat>): seq<Message> {
    if list == [] then []
    else Picked(list[..|list| - 1], taken) + if |list| - 1 in taken then [list[|list| - 1]] else []
  }

  /** What a drain holds to return is exactly what it took. */
  ghost predicate ReturnsTaken(s: State) {
    forall p :: p in s.procs ==> s.procs[p].out == Picked(Contents(s), s.procs[p].taken)
  }

  /** The messages posted by `owners`, in that order. */
  ghost function Posts(roles: map<Pid, Role>, owners: seq<Pid>): (r: seq<Message>) {
    if owners == [] then []
    else
      var p := owners[|owners| - 1];
      Posts(roles, owners[..|owners| - 1]) + if p in roles && roles[p].Poster? then [roles[p].message] else []
  }

  /** Apart from read marks, the file holds the messages it started with, then the posted ones in the order of their
      commits. */
  ghost predicate HoldsPosts(s: State) {
    MarkRead(Contents(s)) == MarkRead(s.before + Posts(s.roles, s.owners))
  }

  ghost predicate StaysRead(s: State) {
    forall i :: 0 <= i < |s.before| && s.before[i].read ==> i < |Contents(s)| && Contents(s)[i].read
  }

  /** A poster has committed exactly when its message is there, and then once. */
  ghost predicate OwnersCommitted(s: State)
    requires s.roles.Keys == s.procs.Keys
  {
    && (forall j, k :: 0 <= j < k < |s.owners| ==> s.owners[j] != s.owners[k])
    && (forall p :: p in s.procs ==> (p in s.owners <==> s.roles[p].Poster? && s.procs[p].committed))
    && (forall p :: p in s.owners ==> p in s.procs)
  }

  ghost predicate Appended(s: State)
    requires s.roles.Keys == s.procs.Keys
  {
    HoldsPosts(s) && StaysRead(s) && OwnersCommitted(s)
  }

  /** What is done and held where a call stands. */
  ghost predicate InPhase(q: Proc, role: Role, commits: seq<seq<Message>>) {
    && (q.pc.Start? || q.pc.Holding? || q.pc.Loaded? || q.pc.Aborted? || q.pc.Raised? ==> Uncommitted(q))
    && (role.Poster? && (q.pc.Committed? || q.pc.Returned? || q.pc.UnlockFailed?) ==> q.committed)
    && (!q.committed ==> Uncommitted(q))
    && (role.Poster? ==> !role.message.read)
    && (role.Peeker? ==> q.pc.Start? || q.pc.Crashed? || (q.pc.Returned? && q.seen in commits))
  }

  ghost predicate Phases(s: State)
    requires s.roles.Keys == s.procs.Keys
  {
    forall p :: p in s.procs ==> InPhase(s.procs[p], s.roles[p], s.commits)
  }

  ghost predicate Inv(s: State) {
    && s.roles.Keys == s.procs.Keys && LockHeld(s) && TakenOnce(s) && ReturnsTaken(s) && Appended(s) && Phases(s)
    && s.commits != [] && s.commits[|s.commits| - 1] == Contents(s)
  }

  // ---- Every step keeps it ------------------------------------------------------------------------------------------

  lemma InitialInv(s: State)
    requires Initial(s)
    ensures Inv(s)
  {
    forall p | p in s.procs ensures s.procs[p].out == Picked(Contents(s), s.procs[p].taken) {
      NonePicked(Contents(s));
    }
  }

  lemma {:induction false} NonePicked(list: seq<Message>)
    ensures Picked(list, {}) == []
  {
    if list != [] {
      NonePicked(list[..|list| - 1]);
    }
  }

  /** `t` differs from `s` in where processes stand and in the lock only. */
  ghost predicate SameButStanding(s: State, t: State) {
    && t.file == s.file && t.before == s.before && t.owners == s.owners && t.commits == s.commits
    && t.roles == s.roles && t.procs.Keys == s.procs.Keys
    && forall r :: r in s.procs ==>
         && t.procs[r].taken == s.procs[r].taken
         && t.procs[r].out == s.procs[r].out && t.procs[r].committed == s.procs[r].committed
  }

  lemma QuietTaken(s: State, t: State)
    requires s.roles.Keys == s.procs.Keys && SameButStanding(s, t) && TakenOnce(s)
    ensures TakenOnce(t)
  {
    assert forall r, i :: Took(t, r, i) <==> Took(s, r, i);
    assert forall i :: InitiallyRead(t, i) <==> InitiallyRead(s, i);
  }

  lemma QuietStep(s: State, t: State)
    requires Inv(s) && SameButStanding(s, t)
    ensures TakenOnce(t) && ReturnsTaken(t) && Appended(t)
  {
    hide Picked, LockHeld, Phases, TakenOnce;
    QuietTaken(s, t);
  }

  lemma QuietStepKeepsInv(s: State, p: Pid, a: Action)
    requires Inv(s) && Can(true, s, p, a) && !a.Replace?
    ensures Inv(Do(true, s, p, a))
  {
    hide TakenOnce, ReturnsTaken, Appended, LockHeld, Phases;
    QuietStep(s, Do(true, s, p, a));
    QuietLock(s, p, a);
    QuietPhases(s, p, a);
  }

  lemma QuietLock(s: State, p: Pid, a: Action)
    requires s.roles.Keys == s.procs.Keys && LockHeld(s) && Can(true, s, p, a) && !a.Replace?
    ensures LockHeld(Do(true, s, p, a))
  {
  }

  lemma QuietPhase(s: State, p: Pid, a: Action)
    requires s.roles.Keys == s.procs.Keys && Can(true, s, p, a) && !a.Replace? && InPhase(s.procs[p], s.roles[p], s.commits)
    requires s.commits != [] && s.commits[|s.commits| - 1] == Contents(s)
    ensures InPhase(Do(true, s, p, a).procs[p], s.roles[p], s.commits)
  {
    hide Unread, Contents;
  }

  lemma QuietLeavesOthers(s: State, p: Pid, a: Action)
    requires s.roles.Keys == s.procs.Keys && Can(true, s, p, a) && !a.Replace?
    ensures var t := Do(true, s, p, a);
      && t.roles == s.roles && t.commits == s.commits && t.procs.Keys == s.procs.Keys
      && forall r :: r in s.procs && r != p ==> t.procs[r] == s.procs[r]
  {
    hide Unread, Contents;
  }

  lemma QuietPhases(s: State, p: Pid, a: Action)
    requires s.roles.Keys == s.procs.Keys && Phases(s) && s.commits != [] && s.commits[|s.commits| - 1] == Contents(s) && Can(true, s, p, a) && !a.Replace?
    ensures Phases(Do(true, s, p, a))
  {
    QuietPhase(s, p, a);
    QuietLeavesOthers(s, p, a);
    hide Do, Can, InPhase, Contents;
  }

  /** The list a drain writes back, and what it returns, as positions. */
  lemma {:induction false} PickedUnread(list: seq<Message>, n: nat)
    requires n <= |list|
    ensures MarkRead(Unread(list[..n])) == Picked(MarkRead(list)[..n], UnreadPositions(list))
    ensures Unread(list[..n]) == [] <==> forall i :: 0 <= i < n ==> list[i].read
  {
    if n > 0 {
      PickedUnread(list, n - 1);
      assert list[..n][..n - 1] == list[..n - 1];
      assert MarkRead(list)[..n][..n - 1] == MarkRead(list)[..n - 1];
      var shorter := Unread(list[..n - 1]);
      assert MarkRead(shorter + [list[n - 1]]) == MarkRead(shorter) + [list[n - 1].(read := true)];
    }
  }

  /** What was picked stays picked while the picked messages keep their content and the list only grows. */
  lemma {:induction false} PickedStable(earlier: seq<Message>, later: seq<Message>, taken: set<nat>, n: nat)
    requires n <= |later| && |earlier| <= |later|
    requires forall i :: i in taken ==> i < |earlier| && later[i] == earlier[i]
    ensures Picked(later[..n], taken) == Picked(earlier[..if n <= |earlier| then n else |earlier|], taken)
  {
    if n > 0 {
      PickedStable(earlier, later, taken, n - 1);
      assert later[..n][..n - 1] == later[..n - 1];
      if n <= |earlier| {
        assert earlier[..n][..n - 1] == earlier[..n - 1];
      }
    }
  }

  lemma PickedStillPicked(earlier: seq<Message>, later: seq<Message>, taken: set<nat>)
    requires |earlier| <= |later| && forall i :: i in taken ==> i < |earlier| && later[i] == earlier[i]
    ensures Picked(later, taken) == Picked(earlier, taken)
  {
    PickedStable(earlier, later, taken, |later|);
    assert later[..|later|] == later && earlier[..|earlier|] == earlier;
  }

  lemma PostReturns(s: State, t: State, message: Message)
    requires s.roles.Keys == s.procs.Keys && TakenOnce(s) && ReturnsTaken(s) && Contents(t) == Contents(s) + [message] && t.procs.Keys == s.procs.Keys
    requires forall r :: r in s.procs ==> t.procs[r].taken == s.procs[r].taken && t.procs[r].out == s.procs[r].out
    ensures ReturnsTaken(t)
  {
    hide Picked;
    forall r | r in t.procs ensures t.procs[r].out == Picked(Contents(t), t.procs[r].taken) {
      forall i | i in s.procs[r].taken ensures i < |Contents(s)| && Contents(t)[i] == Contents(s)[i] {
        assert Took(s, r, i);
      }
      PickedStillPicked(Contents(s), Contents(t), s.procs[r].taken);
    }
  }

  lemma PostTaken(s: State, t: State, message: Message)
    requires s.roles.Keys == s.procs.Keys && TakenOnce(s)
    requires Contents(t) == Contents(s) + [message] && !message.read && t.before == s.before
    requires t.procs.Keys == s.procs.Keys && t.roles == s.roles
    requires forall r :: r in s.procs ==> t.procs[r].taken == s.procs[r].taken
    ensures TakenOnce(t)
  {
    assert forall r, i :: Took(t, r, i) <==> Took(s, r, i);
    assert forall i :: InitiallyRead(t, i) <==> InitiallyRead(s, i);
  }

  lemma PostedText(before: seq<Message>, list: seq<Message>, posts: seq<Message>, m: Message)
    requires MarkRead(list) == MarkRead(before + posts)
    ensures MarkRead(list + [m]) == MarkRead(before + (posts + [m]))
  {
    MarkReadAppend(list, [m]);
    MarkReadAppend(before + posts, [m]);
    assert before + (posts + [m]) == (before + posts) + [m];
    hide MarkRead;
  }

  lemma PostsGrow(roles: map<Pid, Role>, owners: seq<Pid>, p: Pid)
    requires p in roles && roles[p].Poster?
    ensures Posts(roles, owners + [p]) == Posts(roles, owners) + [roles[p].message]
  {
    assert (owners + [p])[..|owners|] == owners;
  }

  lemma PostHolds(s: State, t: State, p: Pid)
    requires HoldsPosts(s) && p in s.roles && s.roles[p].Poster? && t.roles == s.roles
    requires t.before == s.before && t.owners == s.owners + [p] && Contents(t) == Contents(s) + [s.roles[p].message]
    ensures HoldsPosts(t)
  {
    hide MarkRead, Posts, Contents;
    PostsGrow(s.roles, s.owners, p);
    PostedText(s.before, Contents(s), Posts(s.roles, s.owners), s.roles[p].message);
  }

  lemma PostStays(s: State, t: State, m: Message)
    requires StaysRead(s) && t.before == s.before && Contents(t) == Contents(s) + [m]
    ensures StaysRead(t)
  {
    hide Contents;
  }

  lemma PostOwners(s: State, t: State, p: Pid)
    requires s.roles.Keys == s.procs.Keys && OwnersCommitted(s) && p in s.procs && s.roles[p].Poster? && !s.procs[p].committed
    requires t.owners == s.owners + [p] && t.procs.Keys == s.procs.Keys && t.roles == s.roles && t.procs[p].committed
    requires forall r :: r in s.procs && r != p ==> t.procs[r] == s.procs[r]
    ensures OwnersCommitted(t)
  {
    assert p !in s.owners;
    assert forall r :: r in t.owners <==> r in s.owners || r == p;
  }

  lemma PostAppended(s: State, t: State, p: Pid)
    requires s.roles.Keys == s.procs.Keys && Appended(s) && p in s.procs && s.roles[p].Poster? && !s.procs[p].committed
    requires t.before == s.before && t.owners == s.owners + [p] && Contents(t) == Contents(s) + [s.roles[p].message]
    requires t.procs.Keys == s.procs.Keys && t.roles == s.roles && t.procs[p].committed
    requires forall r :: r in s.procs && r != p ==> t.procs[r] == s.procs[r]
    ensures Appended(t)
  {
    hide HoldsPosts, StaysRead, OwnersCommitted, Contents;
    PostHolds(s, t, p);
    PostStays(s, t, s.roles[p].message);
    PostOwners(s, t, p);
  }

  lemma MarkReadAppend(a: seq<Message>, b: seq<Message>)
    ensures MarkRead(a + b) == MarkRead(a) + MarkRead(b)
  {
  }

  lemma PostKeepsInv(s: State, p: Pid)
    requires Inv(s) && Can(true, s, p, Replace) && s.roles[p].Poster?
    ensures Inv(Do(true, s, p, Replace))
  {
    var t := Do(true, s, p, Replace);
    ReplaceStanding(s, p);
    hide TakenOnce, ReturnsTaken, Appended, LockHeld;
    PostReturns(s, t, s.roles[p].message);
    PostTaken(s, t, s.roles[p].message);
    PostAppended(s, t, p);
  }

  lemma DrainReturns(s: State, t: State, p: Pid)
    requires s.roles.Keys == s.procs.Keys && TakenOnce(s) && ReturnsTaken(s) && p in s.procs && t.procs.Keys == s.procs.Keys
    requires Contents(t) == MarkRead(Contents(s))
    requires t.procs[p].out == MarkRead(Unread(Contents(s))) && t.procs[p].taken == UnreadPositions(Contents(s))
    requires forall r :: r in s.procs && r != p ==> t.procs[r] == s.procs[r]
    ensures ReturnsTaken(t)
  {
    var list := Contents(s);
    PickedUnread(list, |list|);
    assert list[..|list|] == list && MarkRead(list)[..|list|] == MarkRead(list);
    hide Picked, Unread;
    forall r | r in t.procs ensures t.procs[r].out == Picked(Contents(t), t.procs[r].taken) {
      if r != p {
        forall i | i in s.procs[r].taken ensures i < |list| && Contents(t)[i] == list[i] {
          assert Took(s, r, i);
        }
        PickedStillPicked(list, Contents(t), s.procs[r].taken);
      }
    }
  }

  lemma DrainTaken(s: State, t: State, p: Pid)
    requires s.roles.Keys == s.procs.Keys && TakenOnce(s) && Appended(s) && p in s.procs
    requires t.procs.Keys == s.procs.Keys && t.roles == s.roles && t.before == s.before
    requires Contents(t) == MarkRead(Contents(s))
    requires s.procs[p].taken == {} && t.procs[p].taken == UnreadPositions(Contents(s)) && t.roles[p].Drainer?
    requires forall r :: r in s.procs && r != p ==> t.procs[r] == s.procs[r]
    ensures TakenOnce(t)
  {
    var list := Contents(s);
    assert forall r, i :: Took(t, r, i) <==> if r == p then i in UnreadPositions(list) else Took(s, r, i);
    assert forall i :: InitiallyRead(t, i) <==> InitiallyRead(s, i);
    assert forall i: nat :: InitiallyRead(s, i) ==> i < |list| && list[i].read by { assert StaysRead(s); }
    forall i | 0 <= i < |list| && !InitiallyRead(t, i) ensures exists r :: Took(t, r, i) {
      if list[i].read {
        var r :| Took(s, r, i);
        assert Took(t, r, i);
      } else {
        assert Took(t, p, i);
      }
    }
  }

  lemma DrainAppended(s: State, t: State, p: Pid)
    requires s.roles.Keys == s.procs.Keys && Appended(s) && p in s.procs && s.roles[p].Drainer?
    requires t.procs.Keys == s.procs.Keys && t.roles == s.roles
    requires t.before == s.before && t.owners == s.owners && Contents(t) == MarkRead(Contents(s))
    requires forall r :: r in s.procs && r != p ==> t.procs[r] == s.procs[r]
    ensures Appended(t)
  {
    assert MarkRead(Contents(t)) == MarkRead(Contents(s));
    assert |Contents(s)| == |MarkRead(Contents(s))| == |s.before| + |Posts(s.roles, s.owners)|;
  }

  lemma ReplaceStanding(s: State, p: Pid)
    requires Inv(s) && Can(true, s, p, Replace)
    ensures LockHeld(Do(true, s, p, Replace)) && Phases(Do(true, s, p, Replace))
    ensures s.procs[p].pc.list == Contents(s) && Uncommitted(s.procs[p])
  {
    hide TakenOnce, ReturnsTaken, Appended, Unread, MarkRead;
  }

  lemma NothingToWrite(s: State, p: Pid)
    requires Can(true, s, p, Replace) && s.roles[p].Drainer? && Unread(s.procs[p].pc.list) == []
    ensures Do(true, s, p, Replace) == Set(s, p, s.procs[p].(pc := Committed))
  {
    hide Unread, MarkRead, UnreadPositions;
  }

  lemma DrainNothing(s: State, p: Pid)
    requires Inv(s) && Can(true, s, p, Replace) && s.roles[p].Drainer? && Unread(s.procs[p].pc.list) == []
    ensures Inv(Do(true, s, p, Replace))
  {
    hide TakenOnce, ReturnsTaken, Appended, Unread, LockHeld, Phases, MarkRead, UnreadPositions, Do, Can, Uncommitted;
    ReplaceStanding(s, p);
    NothingToWrite(s, p);
    assert p in s.procs by { CanIsKnown(s, p); }
    var t := Set(s, p, s.procs[p].(pc := Committed));
    assert SameButStanding(s, t);
    hide SameButStanding;
    QuietStep(s, t);
  }

  lemma CanIsKnown(s: State, p: Pid)
    requires Can(true, s, p, Replace)
    ensures p in s.procs && p in s.roles && s.procs[p].pc.Loaded?
  {
  }

  lemma DrainSome(s: State, p: Pid)
    requires Inv(s) && Can(true, s, p, Replace) && s.roles[p].Drainer? && Unread(s.procs[p].pc.list) != []
    ensures Inv(Do(true, s, p, Replace))
  {
    var t := Do(true, s, p, Replace);
    ReplaceStanding(s, p);
    hide TakenOnce, ReturnsTaken, Appended, Unread, LockHeld, Phases, MarkRead, UnreadPositions;
    DrainReturns(s, t, p);
    DrainTaken(s, t, p);
    DrainAppended(s, t, p);
  }

  lemma DrainKeepsInv(s: State, p: Pid)
    requires Inv(s) && Can(true, s, p, Replace) && s.roles[p].Drainer?
    ensures Inv(Do(true, s, p, Replace))
  {
    hide Inv, Do, Unread;
    if Unread(s.procs[p].pc.list) == [] { DrainNothing(s, p); } else { DrainSome(s, p); }
  }

  // ---- Every run ------------------------------------------------------------------------------------------------------

  lemma PeekerNeverLoads(s: State, p: Pid)
    requires Inv(s) && Can(true, s, p, Replace)
    ensures !s.roles[p].Peeker?
  {
  }

  lemma {:induction false} RunKeepsInv(s0: State, steps: seq<(Pid, Action)>, s: State)
    requires Initial(s0) && Reaches(true, s0, steps, s)
    ensures Inv(s)
  {
    if steps == [] {
      InitialInv(s0);
    } else {
      var (p, a) := steps[|steps| - 1];
      var m := After(true, s0, steps[..|steps| - 1]).value;
      RunKeepsInv(s0, steps[..|steps| - 1], m);
      if !a.Replace? {
        QuietStepKeepsInv(m, p, a);
      } else if m.roles[p].Poster? {
        PostKeepsInv(m, p);
      } else {
        PeekerNeverLoads(m, p);
        DrainKeepsInv(m, p);
      }
    }
  }

  /** Posts that raise leave nothing behind; posts that return, and those whose unlock failed afterwards, have appended
      their message, once. */
  lemma PostedExactlyOnce(s0: State, steps: seq<(Pid, Action)>, s: State, p: Pid)
    requires Initial(s0) && Reaches(true, s0, steps, s)
    requires p in s.procs && p in s.roles && s.roles[p].Poster?
    ensures s.procs[p].pc.Returned? || s.procs[p].pc.UnlockFailed? ==> p in s.owners
    ensures s.procs[p].pc.Raised? ==> p !in s.owners
    ensures forall j, k :: 0 <= j < k < |s.owners| ==> s.owners[j] != s.owners[k]
    ensures MarkRead(Contents(s)) == MarkRead(s.before + Posts(s.roles, s.owners))
  {
    RunKeepsInv(s0, steps, s);
  }

  /** Under any interleaving, each message that was unread or posted is either unread in the file and taken by nobody, or
      marked read and taken by exactly one drain. */
  lemma TakenExactlyOnce(s0: State, steps: seq<(Pid, Action)>, s: State, i: nat)
    requires Initial(s0) && Reaches(true, s0, steps, s) && i < |Contents(s)| && !InitiallyRead(s, i)
    ensures !Contents(s)[i].read <==> forall p :: !Took(s, p, i)
    ensures forall p, q :: Took(s, p, i) && Took(s, q, i) ==> p == q
  {
    RunKeepsInv(s0, steps, s);
  }

  /** Drain `p` has returned the message at position `i`: the call returned, with the messages it took, that one among
      them. */
  ghost predicate Delivers(s: State, p: Pid, i: nat) {
    && p in s.procs && s.procs[p].pc.Returned? && i < |Contents(s)| && i in s.procs[p].taken
    && Answer(s.procs[p]) == Picked(Contents(s), s.procs[p].taken) && Contents(s)[i] in Answer(s.procs[p])
  }

  /** The drain that took the message ended without returning it. */
  ghost predicate Lost(s: State, i: nat) {
    exists p :: Took(s, p, i) && (s.procs[p].pc.Crashed? || s.procs[p].pc.UnlockFailed?)
  }

  /** Returned exactly once: still unread and returned by nobody, or read and returned by exactly one drain. */
  ghost predicate OnceOnly(s: State, i: nat)
    requires i < |Contents(s)|
  {
    if Contents(s)[i].read then exists p :: Delivers(s, p, i) && forall q :: Delivers(s, q, i) ==> q == p
    else forall p :: !Delivers(s, p, i)
  }

  lemma {:induction false} PickedHas(list: seq<Message>, taken: set<nat>, i: nat)
    requires i < |list| && i in taken
    ensures list[i] in Picked(list, taken)
  {
    if i < |list| - 1 {
      PickedHas(list[..|list| - 1], taken, i);
    }
  }

  lemma DeliversIff(s: State, p: Pid, i: nat)
    requires Inv(s) && i < |Contents(s)|
    ensures Delivers(s, p, i) <==> Took(s, p, i) && s.procs[p].pc.Returned?
  {
    if Took(s, p, i) {
      PickedHas(Contents(s), s.procs[p].taken, i);
    }
  }

  /** Exactly-once delivery: when every call is over, each message that was unread or posted is still unread and was returned
      by nobody, or was returned by exactly one drain, if and only if the drain that marked it read (if any) was neither
      killed nor unable to unlock after the replace. */
  lemma DeliveredExactlyOnceIff(s0: State, steps: seq<(Pid, Action)>, s: State, i: nat)
    requires Initial(s0) && Reaches(true, s0, steps, s) && i < |Contents(s)| && !InitiallyRead(s, i)
    requires forall p :: p in s.procs ==> Over(s.procs[p])
    ensures OnceOnly(s, i) <==> !Lost(s, i)
  {
    RunKeepsInv(s0, steps, s);
    forall p ensures Delivers(s, p, i) <==> Took(s, p, i) && s.procs[p].pc.Returned? {
      DeliversIff(s, p, i);
    }
    TakenExactlyOnce(s0, steps, s, i);
    hide Delivers, Inv, Reaches, Initial, Contents, InitiallyRead;
    if p :| Took(s, p, i) {
      TookIsOver(s0, steps, s, p, i);
    }
  }

  lemma TookIsOver(s0: State, steps: seq<(Pid, Action)>, s: State, p: Pid, i: nat)
    requires Initial(s0) && Reaches(true, s0, steps, s) && Took(s, p, i) && Over(s.procs[p])
    ensures s.procs[p].pc.Returned? || s.procs[p].pc.Crashed? || s.procs[p].pc.UnlockFailed?
  {
    RunKeepsInv(s0, steps, s);
  }

  /** At any moment of a run: no message is returned twice, and one that nobody is still about to return is unread, or
      returned, or lost. */
  lemma NeverReturnedTwice(s0: State, steps: seq<(Pid, Action)>, s: State, i: nat)
    requires Initial(s0) && Reaches(true, s0, steps, s) && i < |Contents(s)| && !InitiallyRead(s, i)
    ensures forall p, q :: Delivers(s, p, i) && Delivers(s, q, i) ==> p == q
    ensures Contents(s)[i].read ==>
      exists p :: Took(s, p, i) && (s.procs[p].pc.Committed? || Delivers(s, p, i) || Lost(s, i))
  {
    RunKeepsInv(s0, steps, s);
    forall p ensures Delivers(s, p, i) <==> Took(s, p, i) && s.procs[p].pc.Returned? {
      DeliversIff(s, p, i);
    }
    if p :| Took(s, p, i) {
      assert !s.procs[p].pc.Start? && !s.procs[p].pc.Holding? && !s.procs[p].pc.Loaded?;
    }
  }

  /** Step `k` kills the drain that holds the message at `i`, or fails its unlock, between replace and return. */
  ghost predicate LossStep(s0: State, steps: seq<(Pid, Action)>, k: int, i: nat) {
    && 0 <= k < |steps| && (steps[k].1.Crash? || steps[k].1.FailUnlock?)
    && var m := After(true, s0, steps[..k]);
       m.Some? && Took(m.value, steps[k].0, i) && m.value.procs[steps[k].0].pc.Committed?
  }

  ghost predicate HasLossStep(s0: State, steps: seq<(Pid, Action)>, i: nat) {
    exists k :: LossStep(s0, steps, k, i)
  }

  /** A message is lost if and only if the schedule has such a step. */
  lemma {:induction false} LostIffLossStep(s0: State, steps: seq<(Pid, Action)>, s: State, i: nat)
    requires Initial(s0) && Reaches(true, s0, steps, s)
    ensures Lost(s, i) <==> HasLossStep(s0, steps, i)
  {
    if steps == [] {
      assert forall p :: !Took(s, p, i);
    } else {
      var shorter := steps[..|steps| - 1];
      var (p, a) := steps[|steps| - 1];
      var m := After(true, s0, shorter).value;
      LostIffLossStep(s0, shorter, m, i);
      RunKeepsInv(s0, shorter, m);
      LossGrows(m, p, a, i);
      assert steps == shorter + [(p, a)];
      LossStepAtEnd(s0, shorter, m, p, a, i);
      hide HasLossStep, LossStep, Lost, Took, Inv, Can, Do, Initial;
      LossStepsGrow(s0, shorter, (p, a), i);
    }
  }

  lemma LossStepsGrow(s0: State, steps: seq<(Pid, Action)>, step: (Pid, Action), i: nat)
    ensures HasLossStep(s0, steps + [step], i) <==> HasLossStep(s0, steps, i) || LossStep(s0, steps + [step], |steps|, i)
  {
    forall k | 0 <= k < |steps| ensures LossStep(s0, steps + [step], k, i) <==> LossStep(s0, steps, k, i) {
      LossStepBefore(s0, steps, step, k, i);
    }
    if k :| LossStep(s0, steps, k, i) {
      assert LossStep(s0, steps + [step], k, i);
    }
  }

  lemma LossStepBefore(s0: State, steps: seq<(Pid, Action)>, step: (Pid, Action), k: nat, i: nat)
    requires k < |steps|
    ensures LossStep(s0, steps + [step], k, i) <==> LossStep(s0, steps, k, i)
  {
    assert (steps + [step])[..k] == steps[..k];
  }

  lemma LossStepAtEnd(s0: State, steps: seq<(Pid, Action)>, m: State, p: Pid, a: Action, i: nat)
    requires Reaches(true, s0, steps, m)
    ensures LossStep(s0, steps + [(p, a)], |steps|, i) <==>
      (a.Crash? || a.FailUnlock?) && Took(m, p, i) && m.procs[p].pc.Committed?
  {
    assert (steps + [(p, a)])[..|steps|] == steps;
  }

  lemma LossGrows(m: State, p: Pid, a: Action, i: nat)
    requires Inv(m) && Can(true, m, p, a)
    ensures Lost(Do(true, m, p, a), i) <==>
      Lost(m, i) || ((a.Crash? || a.FailUnlock?) && Took(m, p, i) && m.procs[p].pc.Committed?)
  {
    hide Unread, MarkRead, UnreadPositions, TakenOnce, ReturnsTaken, Appended;
    var t := Do(true, m, p, a);
    assert forall q :: q != p ==> (Took(t, q, i) <==> Took(m, q, i)) && (q in m.procs ==> t.procs[q] == m.procs[q]);
    if Lost(m, i) {
      var q :| Took(m, q, i) && (m.procs[q].pc.Crashed? || m.procs[q].pc.UnlockFailed?);
      assert Took(t, q, i);
    }
    if Lost(t, i) {
      var q :| Took(t, q, i) && (t.procs[q].pc.Crashed? || t.procs[q].pc.UnlockFailed?);
      assert q != p ==> Took(m, q, i);
    }
    if (a.Crash? || a.FailUnlock?) && Took(m, p, i) && m.procs[p].pc.Committed? {
      assert Took(t, p, i);
    }
  }

  /** A drain that returned has returned exactly the messages it took, in file order, all of them marked read; a
      drain that gave up (no file, lock timeout, failed read or write) returned none and took none. */
  lemma ReturnedIsTaken(s0: State, steps: seq<(Pid, Action)>, s: State, p: Pid)
    requires Initial(s0) && Reaches(true, s0, steps, s) && p in s.procs && s.procs[p].pc.Returned?
    ensures s.procs[p].out == Picked(Contents(s), s.procs[p].taken)
    ensures forall i :: i in s.procs[p].taken ==> i < |Contents(s)| && Contents(s)[i].read && !InitiallyRead(s, i)
    ensures !s.procs[p].committed && p in s.roles && s.roles[p].Drainer? ==> s.procs[p].out == []
  {
    RunKeepsInv(s0, steps, s);
    forall i | i in s.procs[p].taken ensures i < |Contents(s)| && Contents(s)[i].read && !InitiallyRead(s, i) {
      assert Took(s, p, i);
    }
  }

  // ---- No call is stuck, and no drain raises ---------------------------------------------------------------------------------------

  lemma StepKeepsRoles(locking: bool, s: State, p: Pid, a: Action)
    requires Can(locking, s, p, a)
    ensures var t := Do(locking, s, p, a); t.roles == s.roles && t.procs.Keys == s.procs.Keys
    ensures var t := Do(locking, s, p, a); forall q :: q in s.procs && q != p ==> t.procs[q] == s.procs[q]
    ensures s.roles[p].Drainer? ==> !Do(locking, s, p, a).procs[p].pc.Raised?
  {
    hide MarkRead, Unread, UnreadPositions, Contents;
  }

  /** A drain never raises, whatever fails around it: it returns nothing instead. */
  lemma {:induction false} DrainNeverRaises(locking: bool, s0: State, steps: seq<(Pid, Action)>, s: State, p: Pid)
    requires Initial(s0) && Reaches(locking, s0, steps, s) && p in s.procs
    ensures p in s0.procs && p in s.roles && s.roles == s0.roles && (s.roles[p].Drainer? ==> !s.procs[p].pc.Raised?)
  {
    if steps != [] {
      var (q, a) := steps[|steps| - 1];
      var m := After(locking, s0, steps[..|steps| - 1]).value;
      StepKeepsRoles(locking, m, q, a);
      DrainNeverRaises(locking, s0, steps[..|steps| - 1], m, p);
    }
  }

  /** While a call is not over, some call can go on without a failure: the lock cannot be held for good. */
  lemma NeverStuck(s0: State, steps: seq<(Pid, Action)>, s: State, p: Pid) returns (q: Pid, a: Action)
    requires Initial(s0) && Reaches(true, s0, steps, s) && p in s.procs && !Over(s.procs[p])
    ensures Can(true, s, q, a) && (a.SeeNoFile? || a.Acquire? || a.Load? || a.Replace? || a.Release? || a.Peek?)
  {
    RunKeepsInv(s0, steps, s);
    hide Reaches, Initial, TakenOnce, ReturnsTaken, Appended, Phases;
    q := if s.lock.Some? then s.lock.value else p;
    var at, role := s.procs[q].pc, s.roles[q];
    a := match at
      case Start => if role.Peeker? then Peek else if role.Drainer? && s.file.None? then SeeNoFile else Acquire
      case Holding => Load
      case Loaded(_) => Replace
      case _ => Release;
  }

  /** How far a call has come. */
  function Stage(q: Proc): (n: nat)
    ensures n <= 4
  {
    match q.pc
    case Start => 0
    case Holding => 1
    case Loaded(_) => 2
    case Committed => 3
    case Aborted => 3
    case _ => 4
  }

  ghost function Stages(procs: map<Pid, Proc>): nat {
    if procs == map[] then 0
    else
      var p :| p in procs;
      Stage(procs[p]) + Stages(procs - {p})
  }

  lemma {:induction false} StagesTake(procs: map<Pid, Proc>, p: Pid)
    requires p in procs
    ensures Stages(procs) == Stage(procs[p]) + Stages(procs - {p})
    decreases |procs|
  {
    var q :| q in procs && Stages(procs) == Stage(procs[q]) + Stages(procs - {q});
    if p != q {
      StagesTake(procs - {q}, p);
      StagesTake(procs - {p}, q);
      assert procs - {q} - {p} == procs - {p} - {q};
    }
  }

  lemma {:induction false} StagesAtMost(procs: map<Pid, Proc>)
    ensures Stages(procs) <= 4 * |procs|
    decreases |procs|
  {
    if procs != map[] {
      var p :| p in procs;
      StagesTake(procs, p);
      StagesAtMost(procs - {p});
    }
  }

  lemma StepGoesOn(locking: bool, s: State, p: Pid, a: Action)
    requires Can(locking, s, p, a)
    ensures Stages(Do(locking, s, p, a).procs) > Stages(s.procs)
  {
    StepKeepsRoles(locking, s, p, a);
    var t := Do(locking, s, p, a);
    assert Stage(t.procs[p]) > Stage(s.procs[p]);
    StagesTake(s.procs, p);
    StagesTake(t.procs, p);
    assert t.procs - {p} == s.procs - {p};
  }

  /** Every run is short: at most four steps for each call. */
  lemma {:induction false} RunIsShort(locking: bool, s0: State, steps: seq<(Pid, Action)>, s: State)
    requires Reaches(locking, s0, steps, s)
    ensures |steps| <= Stages(s.procs) <= 4 * |s.procs|
  {
    StagesAtMost(s.procs);
    if steps != [] {
      var (p, a) := steps[|steps| - 1];
      var m := After(locking, s0, steps[..|steps| - 1]).value;
      RunIsShort(locking, s0, steps[..|steps| - 1], m);
      StepGoesOn(locking, m, p, a);
    }
  }

  /** A step at which nothing fails. */
  predicate Plain(a: Action) {
    a.SeeNoFile? || a.Acquire? || a.Load? || a.Replace? || a.Release? || a.Peek?
  }

  /** So from wherever a run has come, kills and failures included, it can be carried to its end without another failure. */
  lemma {:induction false} RunCanEnd(s0: State, steps: seq<(Pid, Action)>, s: State) returns (more: seq<(Pid, Action)>, t: State)
    requires Initial(s0) && Reaches(true, s0, steps, s)
    ensures Reaches(true, s0, steps + more, t) && forall k :: 0 <= k < |more| ==> Plain(more[k].1)
    ensures forall p :: p in t.procs ==> Over(t.procs[p])
    decreases 4 * |s.procs| - Stages(s.procs)
  {
    more, t := [], s;
    assert steps + [] == steps;
    hide Initial;
    if p :| p in s.procs && !Over(s.procs[p]) {
      var q, a := NeverStuck(s0, steps, s, p);
      var longer, next := steps + [(q, a)], Do(true, s, q, a);
      assert longer[..|steps|] == steps;
      StepKeepsRoles(true, s, q, a);
      StepGoesOn(true, s, q, a);
      StagesAtMost(next.procs);
      hide Do, Can, Over, Stages;
      more, t := RunCanEnd(s0, longer, next);
      assert longer + more == steps + ([(q, a)] + more);
      more := [(q, a)] + more;
    }
  }

  /** A lock-free `has_pending` sees a list that was the committed content of the file at some moment. */
  lemma PeekSeesACommittedList(s0: State, steps: seq<(Pid, Action)>, s: State, p: Pid)
    requires Initial(s0) && Reaches(true, s0, steps, s)
    requires p in s.procs && p in s.roles && s.roles[p].Peeker? && s.procs[p].pc.Returned?
    ensures s.procs[p].seen in s.commits
  {
    RunKeepsInv(s0, steps, s);
  }

  // ---- Where exactly-once delivery ends --------------------------------------------------------------------------------

  const M := Message("user", "hello", false)
  const DONE := Message("user", "hello", true)
  const BEGAN := Proc(Start, [], {}, false, [])
  const HOLDING := Proc(Holding, [], {}, false, [])
  const LOADED := Proc(Loaded([M]), [], {}, false, [])
  const TOOK := Proc(Committed, [DONE], {0}, true, [])
  const RETURNED := Proc(Returned, [DONE], {0}, true, [])

  ghost function OneDrain(q: Proc): State {
    State(Some([M]), None, map[0 := Drainer], map[0 := q], [M], [], [[M]])
  }

  /** Under the lock: a drain killed, or unable to unlock, between replace and return leaves its message read in the file,
      and no call has returned it. */
  lemma LossAfterReplace(a: Action) returns (steps: seq<(Pid, Action)>, s: State)
    requires a == Crash || a == FailUnlock
    ensures Initial(OneDrain(BEGAN)) && Reaches(true, OneDrain(BEGAN), steps, s)
    ensures (forall p :: p in s.procs ==> Over(s.procs[p]) && Answer(s.procs[p]) == [])
    ensures Contents(s) == [DONE] && !InitiallyRead(s, 0) && !OnceOnly(s, 0)
  {
    var s0 := OneDrain(BEGAN);
    OneUnread(M, DONE);
    var s1 := Then(true, s0, [], s0, 0, Acquire);
    assert s1 == OneDrain(HOLDING).(lock := Some(0));
    steps := [(0, Acquire)];
    var s2 := Then(true, s0, steps, s1, 0, Load);
    assert s2 == OneDrain(LOADED).(lock := Some(0));
    steps := steps + [(0, Load)];
    var s3 := Then(true, s0, steps, s2, 0, Replace);
    assert s3 == OneDrain(TOOK).(lock := Some(0), file := Some([DONE]), commits := [[M], [DONE]]);
    steps := steps + [(0, Replace)];
    s := Then(true, s0, steps, s3, 0, a);
    steps := steps + [(0, a)];
  }

  ghost function TwoDrains(first: Proc, second: Proc): State {
    State(Some([M]), None, map[0 := Drainer, 1 := Drainer], map[0 := first, 1 := second], [M], [], [[M]])
  }

  /** Without a lock both drains are in the critical section, holding the same list. */
  lemma BothLoaded() returns (steps: seq<(Pid, Action)>)
    ensures Initial(TwoDrains(BEGAN, BEGAN)) && Reaches(false, TwoDrains(BEGAN, BEGAN), steps, TwoDrains(LOADED, LOADED))
  {
    var s0 := TwoDrains(BEGAN, BEGAN);
    var s1 := Then(false, s0, [], s0, 0, Acquire);
    assert s1 == TwoDrains(HOLDING, BEGAN);
    steps := [(0, Acquire)];
    var s2 := Then(false, s0, steps, s1, 1, Acquire);
    assert s2 == TwoDrains(HOLDING, HOLDING);
    steps := steps + [(1, Acquire)];
    var s3 := Then(false, s0, steps, s2, 0, Load);
    assert s3 == TwoDrains(LOADED, HOLDING);
    steps := steps + [(0, Load)];
    var s4 := Then(false, s0, steps, s3, 1, Load);
    assert s4 == TwoDrains(LOADED, LOADED);
    steps := steps + [(1, Load)];
  }

  lemma BothTook() returns (steps: seq<(Pid, Action)>, s: State)
    ensures Initial(TwoDrains(BEGAN, BEGAN)) && Reaches(false, TwoDrains(BEGAN, BEGAN), steps, s)
    ensures s == TwoDrains(TOOK, TOOK).(file := Some([DONE]), commits := [[M], [DONE], [DONE]])
  {
    var s0 := TwoDrains(BEGAN, BEGAN);
    steps := BothLoaded();
    OneUnread(M, DONE);
    var s4 := TwoDrains(LOADED, LOADED);
    var s5 := Then(false, s0, steps, s4, 0, Replace);
    assert s5 == TwoDrains(TOOK, LOADED).(file := Some([DONE]), commits := [[M], [DONE]]);
    steps := steps + [(0, Replace)];
    s := Then(false, s0, steps, s5, 1, Replace);
    steps := steps + [(1, Replace)];
  }

  /** On a platform without `flock` two drains can return the same message. */
  lemma WithoutLockDeliveredTwice() returns (s0: State, steps: seq<(Pid, Action)>, s: State)
    ensures Initial(s0) && Reaches(false, s0, steps, s)
    ensures |Contents(s)| == 1 && !InitiallyRead(s, 0) && Delivers(s, 0, 0) && Delivers(s, 1, 0)
  {
    s0 := TwoDrains(BEGAN, BEGAN);
    steps, s := BothTook();
    var t := Then(false, s0, steps, s, 0, Release);
    assert t == s.(procs := map[0 := RETURNED, 1 := TOOK]);
    steps := steps + [(0, Release)];
    s := Then(false, s0, steps, t, 1, Release);
    assert s == t.(procs := map[0 := RETURNED, 1 := RETURNED]);
    steps := steps + [(1, Release)];
    assert [DONE][..0] == [];
    assert Picked([DONE], {0}) == [DONE];
  }

  lemma OneUnread(m: Message, done: Message)
    requires !m.read && done == m.(read := true)
    ensures Unread([m]) == [m] && MarkRead([m]) == [done] && UnreadPositions([m]) == {0}
  {
    assert [m][..0] == [];
  }

  lemma Then(locking: bool, s0: State, steps: seq<(Pid, Action)>, m: State, p: Pid, a: Action) returns (s: State)
    requires Reaches(locking, s0, steps, m) && Can(locking, m, p, a)
    ensures Reaches(locking, s0, steps + [(p, a)], s) && s == Do(locking, m, p, a)
  {
    hide Can, Do;
    s := Do(locking, m, p, a);
    assert (steps + [(p, a)])[..|steps|] == steps;
  }
}
