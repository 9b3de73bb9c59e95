/** The completeness checklist of a handed-off plan (trusted_plan.py, `check_plan_completeness`), and what a plan
    that passes it can expect of the wave runner. */
module PlanCompleteness {
  import opened ImplementationPlan
  import DependencyGraph
  import WaveRun
  import WaveLaws

  /** A subtask record as parsed. A missing or empty id reads as "". */
  datatype SubtaskDoc = NotAnObject | SubtaskDoc(id: Id, hasDescription: bool, dependsOn: seq<Id>, files: set<Path>, status: Status)

  /** A phase record; a missing, non-list or empty `subtasks` reads as []. */
  datatype PhaseDoc = NotAPhase | PhaseDoc(subtasks: seq<SubtaskDoc>)

  /** `phases` is Absent, or present but not a list, or a list. */
  datatype Phases = Absent | NotAList | List(phases: seq<PhaseDoc>)

  datatype PlanDoc = PlanDoc(hasFeature: bool, hasWorkflowType: bool, phases: Phases)

  datatype Reason =
    | MissingField(field: string) | NoPhases | PhaseNotAnObject(phase: nat) | PhaseWithoutSubtasks(phase: nat)
    | SubtaskNotAnObject(phase: nat, subtask: nat) | MissingId(phase: nat, subtask: nat) | DuplicateId(id: Id)
    | MissingDescription(phase: nat, subtask: nat) | NoSubtasks | SelfDependency(id: Id)
    | UnknownDependency(id: Id, dependency: Id) | DependencyCycle

  // ---- What the checklist promises --------------------------------------------------------------------------------

  predicate GoodSubtask(d: SubtaskDoc) {
    d.SubtaskDoc? && d.id != "" && d.hasDescription
  }

  predicate GoodPhase(p: PhaseDoc) {
    p.PhaseDoc? && p.subtasks != [] && forall i :: 0 <= i < |p.subtasks| ==> GoodSubtask(p.subtasks[i])
  }

  function Docs(phases: seq<PhaseDoc>): seq<SubtaskDoc> {
    if phases == [] then []
    else Docs(phases[..|phases| - 1]) + if phases[|phases| - 1].PhaseDoc? then phases[|phases| - 1].subtasks else []
  }

  ghost predicate DistinctIds(docs: seq<SubtaskDoc>) {
    forall i, j :: 0 <= i < j < |docs| && docs[i].SubtaskDoc? && docs[j].SubtaskDoc? ==> docs[i].id != docs[j].id
  }

  /** The dependency graph of the identified subtasks; on a duplicate id the last record wins. */
  function DepsOf(docs: seq<SubtaskDoc>): (g: DependencyGraph.Graph)
    ensures forall id :: id in g <==> exists d :: d in docs && d.SubtaskDoc? && d.id == id && id != ""
  {
    if docs == [] then map[]
    else
      var d := docs[|docs| - 1];
      assert docs == docs[..|docs| - 1] + [d];
      if d.SubtaskDoc? && d.id != "" then DepsOf(docs[..|docs| - 1])[d.id := d.dependsOn] else DepsOf(docs[..|docs| - 1])
  }

  ghost predicate KnownDependencies(g: DependencyGraph.Graph) {
    forall id, d :: id in g && d in g[id] ==> d in g && d != id
  }

  /** Everything the wave executor needs. */
  ghost predicate Complete(plan: PlanDoc) {
    && plan.hasFeature && plan.hasWorkflowType
    && plan.phases.List? && CompletePhases(plan.phases.phases)
  }

  ghost predicate CompletePhases(phases: seq<PhaseDoc>) {
    && phases != []
    && (forall p :: p in phases ==> GoodPhase(p))
    && DistinctIds(Docs(phases))
    && KnownDependencies(DepsOf(Docs(phases)))
    && DependencyGraph.Acyclic(DepsOf(Docs(phases)))
  }

  // ---- The check ------------------------------------------------------------------------------------------------------

  /** Sound so far: every record seen is good and no id was seen twice. */
  ghost predicate SoundRecords(docs: seq<SubtaskDoc>) {
    (forall d :: d in docs ==> GoodSubtask(d)) && DistinctIds(docs)
  }

  ghost function Ids(docs: seq<SubtaskDoc>): set<Id> {
    DepsOf(docs).Keys
  }

  lemma AddRecord(docs: seq<SubtaskDoc>, d: SubtaskDoc)
    ensures SoundRecords(docs + [d]) <==> SoundRecords(docs) && GoodSubtask(d) && d.id !in Ids(docs)
    ensures DepsOf(docs + [d]) == if d.SubtaskDoc? && d.id != "" then DepsOf(docs)[d.id := d.dependsOn] else DepsOf(docs)
  {
    var longer := docs + [d];
    assert longer[..|docs|] == docs && longer[|docs|] == d;
    if SoundRecords(longer) {
      assert forall i :: 0 <= i < |docs| ==> docs[i] == longer[i];
      assert d in longer;
      forall e | e in docs ensures GoodSubtask(e) && e.id != d.id {
        var i :| 0 <= i < |docs| && docs[i] == e;
        assert longer[i] in longer;
      }
    }
    if SoundRecords(docs) && GoodSubtask(d) && d.id !in Ids(docs) {
      forall i, j | 0 <= i < j < |longer| ensures longer[i].SubtaskDoc? && longer[j].SubtaskDoc? && longer[i].id != longer[j].id {
        assert longer[i] in docs && (longer[j] in docs || longer[j] == d);
      }
    }
  }

  // ---- The reasons ---------------------------------------------------------------------------------------------------------

  /** The reasons one record gives, after the records `docs`. */
  function RecordReasons(d: SubtaskDoc, pi: nat, si: nat, seen: set<Id>): seq<Reason> {
    if d.NotAnObject? then [SubtaskNotAnObject(pi, si)]
    else
      (if d.id == "" then [MissingId(pi, si)] else if d.id in seen then [DuplicateId(d.id)] else [])
      + if d.hasDescription then [] else [MissingDescription(pi, si)]
  }

  ghost function PhaseReasons(subtasks: seq<SubtaskDoc>, pi: nat, docs: seq<SubtaskDoc>): seq<Reason> {
    if subtasks == [] then []
    else
      var front := subtasks[..|subtasks| - 1];
      PhaseReasons(front, pi, docs) + RecordReasons(subtasks[|subtasks| - 1], pi, |subtasks|, Ids(docs + front))
  }

  ghost function PlanReasons(phases: seq<PhaseDoc>): seq<Reason> {
    if phases == [] then []
    else
      var front, p := phases[..|phases| - 1], phases[|phases| - 1];
      PlanReasons(front) + match p
        case NotAPhase => [PhaseNotAnObject(|phases|)]
        case PhaseDoc(subtasks) => if subtasks == [] then [PhaseWithoutSubtasks(|phases|)] else PhaseReasons(subtasks, |phases|, Docs(front))
  }

  /** The keys of the dependency dictionary, in the order of their first insertion. */
  function KeysOf(docs: seq<SubtaskDoc>): (keys: seq<Id>)
    ensures forall id :: id in keys <==> id in DepsOf(docs)
  {
    if docs == [] then []
    else
      var keys, d := KeysOf(docs[..|docs| - 1]), docs[|docs| - 1];
      if d.SubtaskDoc? && d.id != "" && d.id !in keys then keys + [d.id] else keys
  }

  function DependencyReason(id: Id, d: Id, known: set<Id>): seq<Reason> {
    if d == id then [SelfDependency(id)] else if d !in known then [UnknownDependency(id, d)] else []
  }

  function DependencyReasons(id: Id, ds: seq<Id>, known: set<Id>): seq<Reason> {
    if ds == [] then [] else DependencyReasons(id, ds[..|ds| - 1], known) + DependencyReason(id, ds[|ds| - 1], known)
  }

  function GraphReasons(deps: DependencyGraph.Graph, keys: seq<Id>): seq<Reason>
    requires forall id :: id in keys ==> id in deps
  {
    if keys == [] then []
    else
      var id := keys[|keys| - 1];
      GraphReasons(deps, keys[..|keys| - 1]) + DependencyReasons(id, deps[id], deps.Keys)
  }

  lemma RecordReasonsIff(d: SubtaskDoc, pi: nat, si: nat, seen: set<Id>)
    ensures RecordReasons(d, pi, si, seen) == [] <==> GoodSubtask(d) && d.id !in seen
  {
  }

  lemma {:induction false} PhaseReasonsIff(subtasks: seq<SubtaskDoc>, pi: nat, docs: seq<SubtaskDoc>)
    requires SoundRecords(docs)
    ensures PhaseReasons(subtasks, pi, docs) == [] <==> SoundRecords(docs + subtasks)
  {
    hide SoundRecords, Ids, RecordReasons, GoodSubtask, DepsOf;
    if subtasks == [] {
      assert docs + subtasks == docs;
    } else {
      var front, d := subtasks[..|subtasks| - 1], subtasks[|subtasks| - 1];
      PhaseReasonsIff(front, pi, docs);
      assert docs + subtasks == docs + front + [d];
      AddRecord(docs + front, d);
      RecordReasonsIff(d, pi, |subtasks|, Ids(docs + front));
    }
  }

  lemma {:induction false} PlanReasonsIff(phases: seq<PhaseDoc>)
    ensures PlanReasons(phases) == [] <==> (forall p :: p in phases ==> HasSubtasks(p)) && SoundRecords(Docs(phases))
  {
    if phases == [] {
      NoRecords();
    } else {
      var front, p := phases[..|phases| - 1], phases[|phases| - 1];
      PlanReasonsIff(front);
      assert forall q :: q in phases <==> q in front || q == p;
      if HasSubtasks(p) {
        if SoundRecords(Docs(front)) {
          PhaseReasonsIff(p.subtasks, |phases|, Docs(front));
        } else if SoundRecords(Docs(front) + p.subtasks) {
          SoundPrefix(Docs(front), p.subtasks);
        }
      }
      hide SoundRecords, PhaseReasons;
    }
  }

  lemma {:induction false} DependencyReasonsIff(id: Id, ds: seq<Id>, known: set<Id>)
    ensures DependencyReasons(id, ds, known) == [] <==> forall d :: d in ds ==> d in known && d != id
  {
    if ds != [] {
      DependencyReasonsIff(id, ds[..|ds| - 1], known);
      assert ds == ds[..|ds| - 1] + [ds[|ds| - 1]];
    }
  }

  lemma {:induction false} GraphReasonsIff(deps: DependencyGraph.Graph, keys: seq<Id>)
    requires forall id :: id in keys ==> id in deps
    ensures GraphReasons(deps, keys) == [] <==> forall id, d :: id in keys && d in deps[id] ==> d in deps && d != id
  {
    if keys != [] {
      var front, id := keys[..|keys| - 1], keys[|keys| - 1];
      GraphReasonsIff(deps, front);
      DependencyReasonsIff(id, deps[id], deps.Keys);
      assert keys == front + [id];
      hide DependencyReasons;
    }
  }

  /** One subtask record: what the inner loop does with it. */
  method CheckSubtask(d: SubtaskDoc, pi: nat, si: nat, before: seq<Reason>, seen: set<Id>, ghost docs: seq<SubtaskDoc>)
    returns (reasons: seq<Reason>, seenAfter: set<Id>)
    requires seen == Ids(docs)
    ensures reasons == before + RecordReasons(d, pi, si, seen)
    ensures seenAfter == Ids(docs + [d])
  {
    AddRecord(docs, d);
    reasons, seenAfter := before, seen;
    if d.NotAnObject? {
      reasons := reasons + [SubtaskNotAnObject(pi, si)];
      return;
    }
    if d.id == "" {
      reasons := reasons + [MissingId(pi, si)];
    } else if d.id in seen {
      reasons := reasons + [DuplicateId(d.id)];
    } else {
      seenAfter := seen + {d.id};
    }
    if !d.hasDescription {
      reasons := reasons + [MissingDescription(pi, si)];
    }
  }

  /** The inner loop: the subtasks of one phase. */
  method CollectPhase(subtasks: seq<SubtaskDoc>, pi: nat, before: seq<Reason>, seenBefore: set<Id>,
                      depsBefore: DependencyGraph.Graph, keysBefore: seq<Id>, ghost docs: seq<SubtaskDoc>)
    returns (reasons: seq<Reason>, seen: set<Id>, deps: DependencyGraph.Graph, keys: seq<Id>)
    requires seenBefore == Ids(docs) && depsBefore == DepsOf(docs) && keysBefore == KeysOf(docs)
    ensures reasons == before + PhaseReasons(subtasks, pi, docs)
    ensures seen == Ids(docs + subtasks) && deps == DepsOf(docs + subtasks) && keys == KeysOf(docs + subtasks)
  {
    reasons, seen, deps, keys := before, seenBefore, depsBefore, keysBefore;
    ghost var soFar := docs;
    assert docs + subtasks[..0] == docs;
    NoneCollected(docs, pi);
    hide *;
    for si := 0 to |subtasks|
      invariant soFar == docs + subtasks[..si]
      invariant reasons == before + PhaseReasons(subtasks[..si], pi, docs)
      invariant seen == Ids(soFar) && deps == DepsOf(soFar) && keys == KeysOf(soFar)
    {
      var d := subtasks[si];
      OneMoreRecord(docs, subtasks, pi, si);
      Regroup(before, PhaseReasons(subtasks[..si], pi, docs), RecordReasons(d, pi, si + 1, seen), [], []);
      reasons, seen := CheckSubtask(d, pi, si + 1, reasons, seen, soFar);
      assert reasons == before + PhaseReasons(subtasks[..si + 1], pi, docs);
      if d.SubtaskDoc? && d.id != "" {
        keys := if d.id in deps then keys else keys + [d.id];
        deps := deps[d.id := d.dependsOn];
      }
      soFar := soFar + [d];
    }
    assert subtasks[..|subtasks|] == subtasks;
  }

  lemma NoneCollected(docs: seq<SubtaskDoc>, pi: nat)
    ensures PhaseReasons([], pi, docs) == []
  {
  }

  lemma OneMoreRecord(docs: seq<SubtaskDoc>, subtasks: seq<SubtaskDoc>, pi: nat, si: nat)
    requires si < |subtasks|
    ensures var d, soFar := subtasks[si], docs + subtasks[..si];
      && docs + subtasks[..si + 1] == soFar + [d]
      && PhaseReasons(subtasks[..si + 1], pi, docs) == PhaseReasons(subtasks[..si], pi, docs) + RecordReasons(d, pi, si + 1, Ids(soFar))
      && DepsOf(soFar + [d]) == (if d.SubtaskDoc? && d.id != "" then DepsOf(soFar)[d.id := d.dependsOn] else DepsOf(soFar))
      && KeysOf(soFar + [d]) == if d.SubtaskDoc? && d.id != "" && d.id !in DepsOf(soFar) then KeysOf(soFar) + [d.id] else KeysOf(soFar)
  {
    var d, soFar := subtasks[si], docs + subtasks[..si];
    assert subtasks[..si + 1][..si] == subtasks[..si];
    assert docs + subtasks[..si + 1] == soFar + [d];
    assert (soFar + [d])[..|soFar|] == soFar;
    AddRecord(soFar, d);
    hide RecordReasons, Ids;
  }

  lemma OneMore<T>(a: seq<T>, b: seq<T>, i: nat)
    requires i < |b|
    ensures a + b[..i + 1] == a + b[..i] + [b[i]]
  {
  }

  predicate HasSubtasks(p: PhaseDoc) {
    p.PhaseDoc? && p.subtasks != []
  }

  lemma {:induction false} SoundPrefix(docs: seq<SubtaskDoc>, more: seq<SubtaskDoc>)
    requires SoundRecords(docs + more)
    ensures SoundRecords(docs)
  {
    forall d | d in docs ensures GoodSubtask(d) { assert d in docs + more; }
    assert forall i :: 0 <= i < |docs| ==> (docs + more)[i] == docs[i];
  }

  /** The record-collecting part: phases and subtasks, ids and dependency lists. */
  method CollectRecords(phases: seq<PhaseDoc>, before: seq<Reason>)
    returns (reasons: seq<Reason>, total: nat, seen: set<Id>, deps: DependencyGraph.Graph, keys: seq<Id>)
    ensures reasons == before + PlanReasons(phases)
    ensures total == |Docs(phases)| && deps == DepsOf(Docs(phases)) && keys == KeysOf(Docs(phases)) && seen == deps.Keys
  {
    hide DepsOf, PhaseReasons, PlanReasons, Docs, KeysOf, Ids;
    reasons, total, seen, deps, keys := before, 0, {}, map[], [];
    NoRecords();
    for pi := 0 to |phases|
      invariant reasons == before + PlanReasons(phases[..pi])
      invariant total == |Docs(phases[..pi])| && deps == DepsOf(Docs(phases[..pi])) && keys == KeysOf(Docs(phases[..pi]))
      invariant seen == Ids(Docs(phases[..pi]))
    {
      var phase := phases[pi];
      ghost var docs := Docs(phases[..pi]);
      OneMorePhase(phases, pi);
      if phase.NotAPhase? {
        reasons := reasons + [PhaseNotAnObject(pi + 1)];
      } else if phase.subtasks == [] {
        reasons := reasons + [PhaseWithoutSubtasks(pi + 1)];
      } else {
        reasons, seen, deps, keys := CollectPhase(phase.subtasks, pi + 1, reasons, seen, deps, keys, docs);
        total := total + |phase.subtasks|;
      }
    }
    assert phases[..|phases|] == phases;
    assert seen == deps.Keys by { IdsAreKeys(Docs(phases)); }
  }

  lemma IdsAreKeys(docs: seq<SubtaskDoc>)
    ensures Ids(docs) == DepsOf(docs).Keys
  {
  }

  lemma OneMorePhase(phases: seq<PhaseDoc>, pi: nat)
    requires pi < |phases|
    ensures var docs, p := Docs(phases[..pi]), phases[pi];
      && Docs(phases[..pi + 1]) == (if HasSubtasks(p) then docs + p.subtasks else docs)
      && PlanReasons(phases[..pi + 1]) == PlanReasons(phases[..pi]) + match p
           case NotAPhase => [PhaseNotAnObject(pi + 1)]
           case PhaseDoc(subtasks) => if subtasks == [] then [PhaseWithoutSubtasks(pi + 1)] else PhaseReasons(subtasks, pi + 1, docs)
  {
    assert phases[..pi + 1][..pi] == phases[..pi];
    hide PhaseReasons;
  }

  lemma NoRecords()
    ensures SoundRecords([]) && DepsOf([]) == map[] && Ids([]) == {} && KeysOf([]) == [] && Docs([]) == [] && PlanReasons([]) == []
  {
  }

  /** The dependency part: every dependency is another known subtask, and there is no cycle. */
  method CheckDependencies(deps: DependencyGraph.Graph, keys: seq<Id>, known: set<Id>, before: seq<Reason>)
    returns (reasons: seq<Reason>)
    requires (forall id :: id in keys <==> id in deps) && known == deps.Keys
    ensures var cycle := if DependencyGraph.Acyclic(deps) then [] else [DependencyCycle];
      reasons == before + GraphReasons(deps, keys) + cycle
  {
    reasons := before;
    hide DependencyReasons, DependencyGraph.Acyclic;
    for k := 0 to |keys|
      invariant reasons == before + GraphReasons(deps, keys[..k])
    {
      assert keys[..k + 1][..k] == keys[..k];
      reasons := CheckDependenciesOf(keys[k], deps[keys[k]], known, reasons);
    }
    assert keys[..|keys|] == keys;
    hide GraphReasons;
    var acyclic, _, _ := DependencyGraph.IsAcyclic(deps, keys);
    if !acyclic {
      reasons := reasons + [DependencyCycle];
    }
  }

  /** The inner loop: the dependencies of one subtask. */
  method CheckDependenciesOf(id: Id, ds: seq<Id>, known: set<Id>, before: seq<Reason>) returns (reasons: seq<Reason>)
    ensures reasons == before + DependencyReasons(id, ds, known)
  {
    reasons := before;
    for i := 0 to |ds|
      invariant reasons == before + DependencyReasons(id, ds[..i], known)
    {
      assert ds[..i + 1][..i] == ds[..i];
      if ds[i] == id {
        reasons := reasons + [SelfDependency(id)];
      } else if ds[i] !in known {
        reasons := reasons + [UnknownDependency(id, ds[i])];
      }
    }
    assert ds[..|ds|] == ds;
  }

  /** Everything the check complains of, in order. */
  ghost function Complaints(plan: PlanDoc): seq<Reason> {
    FieldReasons(plan) + if !plan.phases.List? || plan.phases.phases == [] then [NoPhases] else Shortcomings(plan.phases.phases)
  }

  function FieldReasons(plan: PlanDoc): seq<Reason> {
    (if plan.hasFeature then [] else [MissingField("feature")])
    + (if plan.hasWorkflowType then [] else [MissingField("workflow_type")])
    + if plan.phases.Absent? then [MissingField("phases")] else []
  }

  ghost function Shortcomings(phases: seq<PhaseDoc>): seq<Reason> {
    PlanReasons(phases) + (if Docs(phases) == [] then [NoSubtasks] else [])
    + GraphReasons(DepsOf(Docs(phases)), KeysOf(Docs(phases)))
    + if DependencyGraph.Acyclic(DepsOf(Docs(phases))) then [] else [DependencyCycle]
  }

  method CheckPlanCompleteness(plan: PlanDoc) returns (ok: bool, reasons: seq<Reason>)
    ensures ok <==> reasons == []
    ensures ok <==> Complete(plan)
    ensures reasons == Complaints(plan)
  {
    reasons := CheckFields(plan);
    hide Shortcomings;
    if !plan.phases.List? || plan.phases.phases == [] {
      reasons := reasons + [NoPhases];
      return false, reasons;
    }
    hide PlanReasons, GraphReasons, DepsOf, KeysOf, Docs, DependencyGraph.Acyclic, CompletePhases;
    reasons := CheckPhases(plan.phases.phases, reasons);
    ok := reasons == [];
    NoShortcomingsIff(plan.phases.phases);
  }

  method CheckFields(plan: PlanDoc) returns (reasons: seq<Reason>)
    ensures reasons == FieldReasons(plan)
  {
    reasons := [];
    if !plan.hasFeature { reasons := reasons + [MissingField("feature")]; }
    if !plan.hasWorkflowType { reasons := reasons + [MissingField("workflow_type")]; }
    if plan.phases.Absent? { reasons := reasons + [MissingField("phases")]; }
  }

  /** The part of the check that looks at the phases. */
  method CheckPhases(phases: seq<PhaseDoc>, before: seq<Reason>) returns (reasons: seq<Reason>)
    ensures reasons == before + Shortcomings(phases)
  {
    hide PlanReasons, GraphReasons, DepsOf, KeysOf, Docs, DependencyGraph.Acyclic;
    var total, seen, deps, keys;
    reasons, total, seen, deps, keys := CollectRecords(phases, before);
    if total == 0 {
      reasons := reasons + [NoSubtasks];
    }
    reasons := CheckDependencies(deps, keys, seen, reasons);
    Regroup(before, PlanReasons(phases), if Docs(phases) == [] then [NoSubtasks] else [], GraphReasons(deps, keys),
            if DependencyGraph.Acyclic(deps) then [] else [DependencyCycle]);
  }

  lemma Regroup<T>(a: seq<T>, b: seq<T>, c: seq<T>, d: seq<T>, e: seq<T>)
    ensures a + b + c + d + e == a + (b + c + d + e)
    ensures a + b + [] == a + b && a + b + c == a + (b + c)
  {
  }

  lemma NoShortcomingsIff(phases: seq<PhaseDoc>)
    ensures Shortcomings(phases) == [] && phases != [] <==> CompletePhases(phases)
  {
    PlanReasonsIff(phases);
    GoodPhasesAreGood(phases);
    GraphReasonsIff(DepsOf(Docs(phases)), KeysOf(Docs(phases)));
    if phases != [] && forall p :: p in phases ==> HasSubtasks(p) {
      SomeRecord(phases);
    }
    hide PlanReasons, GraphReasons, DepsOf, KeysOf, Docs, GoodPhase, HasSubtasks, SoundRecords, DistinctIds, DependencyGraph.Acyclic;
    assert KnownDependencies(DepsOf(Docs(phases))) <==> GraphReasons(DepsOf(Docs(phases)), KeysOf(Docs(phases))) == [];
  }

  lemma {:induction false} DocsOf(phases: seq<PhaseDoc>, d: SubtaskDoc)
    ensures d in Docs(phases) <==> exists k :: 0 <= k < |phases| && phases[k].PhaseDoc? && d in phases[k].subtasks
  {
    if phases != [] {
      DocsOf(phases[..|phases| - 1], d);
    }
  }

  lemma GoodPhasesAreGood(phases: seq<PhaseDoc>)
    ensures (forall p :: p in phases ==> GoodPhase(p)) && DistinctIds(Docs(phases)) <==>
            (forall p :: p in phases ==> HasSubtasks(p)) && SoundRecords(Docs(phases))
  {
    if forall p :: p in phases ==> GoodPhase(p) {
      forall d | d in Docs(phases) ensures GoodSubtask(d) {
        DocsOf(phases, d);
        var k :| 0 <= k < |phases| && phases[k].PhaseDoc? && d in phases[k].subtasks;
        assert GoodPhase(phases[k]);
      }
    }
    if (forall p :: p in phases ==> HasSubtasks(p)) && SoundRecords(Docs(phases)) {
      forall p | p in phases ensures GoodPhase(p) {
        forall i | 0 <= i < |p.subtasks| ensures GoodSubtask(p.subtasks[i]) {
          DocsOf(phases, p.subtasks[i]);
        }
      }
    }
  }

  // ---- The checklist, said of the records alone -----------------------------------------------------------------------------

  /** Records of the plan, each depending on the next, and the last on the first. */
  ghost predicate RecordCycle(docs: seq<SubtaskDoc>, c: seq<SubtaskDoc>) {
    && c != [] && (forall n :: 0 <= n < |c| ==> c[n] in docs && c[n].SubtaskDoc?)
    && (forall n :: 0 < n < |c| ==> c[n].id in c[n - 1].dependsOn) && c[0].id in c[|c| - 1].dependsOn
  }

  lemma DepsOfRecord(docs: seq<SubtaskDoc>, d: SubtaskDoc)
    requires SoundRecords(docs) && d in docs
    ensures d.SubtaskDoc? && d.id in DepsOf(docs) && DepsOf(docs)[d.id] == d.dependsOn
  {
    var i :| 0 <= i < |docs| && docs[i] == d;
    DepsAt(docs, i);
  }

  lemma RecordOf(docs: seq<SubtaskDoc>, id: Id) returns (d: SubtaskDoc)
    requires SoundRecords(docs) && id in DepsOf(docs)
    ensures d in docs && d.SubtaskDoc? && d.id == id && DepsOf(docs)[id] == d.dependsOn
  {
    d :| d in docs && d.SubtaskDoc? && d.id == id;
    DepsOfRecord(docs, d);
  }

  lemma RecordEdge(docs: seq<SubtaskDoc>, a: SubtaskDoc, b: SubtaskDoc)
    requires SoundRecords(docs) && a in docs && b in docs && a.SubtaskDoc? && b.SubtaskDoc? && b.id in a.dependsOn
    ensures DependencyGraph.Edge(DepsOf(docs), a.id, b.id)
  {
    DepsOfRecord(docs, a);
    DepsOfRecord(docs, b);
  }

  lemma RecordCycleIsCycle(docs: seq<SubtaskDoc>, c: seq<SubtaskDoc>)
    requires SoundRecords(docs) && RecordCycle(docs, c)
    ensures !DependencyGraph.Acyclic(DepsOf(docs))
  {
    var g := DepsOf(docs);
    hide DepsOf, SoundRecords, DependencyGraph.Edge;
    var ids := seq(|c|, n requires 0 <= n < |c| => c[n].id);
    forall n | 0 <= n < |ids| - 1 ensures DependencyGraph.Edge(g, ids[n], ids[n + 1]) {
      var m := n + 1;
      assert c[m].id in c[m - 1].dependsOn;
      RecordEdge(docs, c[n], c[n + 1]);
    }
    RecordEdge(docs, c[|c| - 1], c[0]);
    assert DependencyGraph.IsCycle(g, ids);
  }

  lemma {:induction false} RecordsAlong(docs: seq<SubtaskDoc>, ids: seq<Id>) returns (c: seq<SubtaskDoc>)
    requires SoundRecords(docs) && forall n :: 0 <= n < |ids| ==> ids[n] in DepsOf(docs)
    ensures |c| == |ids| && forall n :: 0 <= n < |c| ==>
      c[n] in docs && c[n].SubtaskDoc? && c[n].id == ids[n] && DepsOf(docs)[ids[n]] == c[n].dependsOn
  {
    c := [];
    hide DepsOf, SoundRecords;
    if ids != [] {
      var front := RecordsAlong(docs, ids[..|ids| - 1]);
      var last := RecordOf(docs, ids[|ids| - 1]);
      c := front + [last];
    }
  }

  lemma CycleIsRecordCycle(docs: seq<SubtaskDoc>, ids: seq<Id>) returns (c: seq<SubtaskDoc>)
    requires SoundRecords(docs) && DependencyGraph.IsCycle(DepsOf(docs), ids)
    ensures RecordCycle(docs, c)
  {
    var g := DepsOf(docs);
    hide DepsOf, SoundRecords;
    forall n | 0 <= n < |ids| ensures ids[n] in g {
      if n < |ids| - 1 {
        assert DependencyGraph.Edge(g, ids[n], ids[n + 1]);
      }
    }
    c := RecordsAlong(docs, ids);
    forall n | 0 < n < |c| ensures c[n].id in c[n - 1].dependsOn {
      var m := n - 1;
      assert DependencyGraph.Edge(g, ids[m], ids[m + 1]);
    }
  }

  /** Each dependency names another record. */
  ghost predicate NamesRecords(docs: seq<SubtaskDoc>) {
    forall d, dep :: d in docs && d.SubtaskDoc? && dep in d.dependsOn ==>
      dep != d.id && exists e :: e in docs && e.SubtaskDoc? && e.id == dep
  }

  lemma KnownIff(docs: seq<SubtaskDoc>)
    requires SoundRecords(docs)
    ensures KnownDependencies(DepsOf(docs)) <==> NamesRecords(docs)
  {
    var g := DepsOf(docs);
    hide SoundRecords;
    if KnownDependencies(g) {
      forall d, dep | d in docs && d.SubtaskDoc? && dep in d.dependsOn
        ensures dep != d.id && exists e :: e in docs && e.SubtaskDoc? && e.id == dep
      {
        DepsOfRecord(docs, d);
        hide DepsOf;
        assert dep in g;
      }
    }
    if NamesRecords(docs) {
      hide DepsOf;
      forall id, dep | id in g && dep in g[id] ensures dep in g && dep != id {
        var d := RecordOf(docs, id);
        var e :| e in docs && e.SubtaskDoc? && e.id == dep;
        DepsOfRecord(docs, e);
      }
    }
  }

  lemma AcyclicIff(docs: seq<SubtaskDoc>)
    requires SoundRecords(docs)
    ensures DependencyGraph.Acyclic(DepsOf(docs)) <==> forall c :: !RecordCycle(docs, c)
  {
    var g := DepsOf(docs);
    hide DepsOf, SoundRecords, RecordCycle, DependencyGraph.IsCycle;
    forall c | RecordCycle(docs, c) ensures !DependencyGraph.Acyclic(g) {
      RecordCycleIsCycle(docs, c);
    }
    if !DependencyGraph.Acyclic(g) {
      var ids :| DependencyGraph.IsCycle(g, ids);
      var c := CycleIsRecordCycle(docs, ids);
    }
  }

  /** A plan passes the checklist if and only if it has a feature, a workflow type and a non-empty list of phases; each phase is
      an object with subtasks, each subtask an object with an id and a description; no two of the subtasks of the plan share
      an id; each dependency names another of them; and none depend on each other in a circle. Footprints are optional. */
  lemma ChecklistIff(plan: PlanDoc, phases: seq<PhaseDoc>)
    requires plan.phases == List(phases)
    ensures Complete(plan) <==>
      && plan.hasFeature && plan.hasWorkflowType && phases != []
      && (forall p :: p in phases ==> p.PhaseDoc? && p.subtasks != [] && forall d :: d in p.subtasks ==> d.SubtaskDoc? && d.id != "" && d.hasDescription)
      && var docs := Docs(phases);
         && (forall i, j :: 0 <= i < j < |docs| && docs[i].SubtaskDoc? && docs[j].SubtaskDoc? ==> docs[i].id != docs[j].id)
         && (forall d, dep :: d in docs && d.SubtaskDoc? && dep in d.dependsOn ==>
               dep != d.id && exists e :: e in docs && e.SubtaskDoc? && e.id == dep)
         && forall c :: !RecordCycle(docs, c)
  {
    var docs := Docs(phases);
    forall p | p in phases
      ensures GoodPhase(p) <==> p.PhaseDoc? && p.subtasks != [] && forall d :: d in p.subtasks ==> d.SubtaskDoc? && d.id != "" && d.hasDescription
    {
    }
    GoodPhasesAreGood(phases);
    hide RecordCycle, KnownDependencies, DepsOf, DependencyGraph.Acyclic, GoodPhase, Docs;
    if SoundRecords(docs) {
      KnownIff(docs);
      AcyclicIff(docs);
    }
  }

  // ---- What each reason says ------------------------------------------------------------------------------------------------

  /** Two records share the id. */
  ghost predicate Twice(docs: seq<SubtaskDoc>, id: Id) {
    exists i, j :: 0 <= i < j < |docs| && docs[i].SubtaskDoc? && docs[j].SubtaskDoc? && docs[i].id == id && docs[j].id == id
  }

  lemma TwiceGrows(docs: seq<SubtaskDoc>, d: SubtaskDoc, id: Id)
    requires id != ""
    ensures Twice(docs + [d], id) <==> Twice(docs, id) || (d.SubtaskDoc? && d.id == id && id in Ids(docs))
  {
    var longer := docs + [d];
    assert longer[|docs|] == d && forall i :: 0 <= i < |docs| ==> longer[i] == docs[i];
    hide DepsOf;
    if Twice(docs, id) {
      var i, j :| 0 <= i < j < |docs| && docs[i].SubtaskDoc? && docs[j].SubtaskDoc? && docs[i].id == id && docs[j].id == id;
      assert longer[i].id == id && longer[j].id == id;
    }
    if d.SubtaskDoc? && d.id == id && id in Ids(docs) {
      var e :| e in docs && e.SubtaskDoc? && e.id == id;
      var i :| 0 <= i < |docs| && docs[i] == e;
      assert longer[i].id == id && longer[|docs|].id == id;
    }
    if Twice(longer, id) {
      var i, j :| 0 <= i < j < |longer| && longer[i].SubtaskDoc? && longer[j].SubtaskDoc? && longer[i].id == id && longer[j].id == id;
      assert docs[i] in docs;
      if j < |docs| {
        assert docs[i].id == id && docs[j].id == id;
      }
    }
  }

  /** The record at place `m` of the phase, counted from one, if the reason is about one of this kind. */
  predicate AboutRecord(subtasks: seq<SubtaskDoc>, pi: nat, r: Reason) {
    match r
    case SubtaskNotAnObject(n, m) => n == pi && 1 <= m <= |subtasks| && subtasks[m - 1].NotAnObject?
    case MissingId(n, m) => n == pi && 1 <= m <= |subtasks| && subtasks[m - 1].SubtaskDoc? && subtasks[m - 1].id == ""
    case MissingDescription(n, m) =>
      n == pi && 1 <= m <= |subtasks| && subtasks[m - 1].SubtaskDoc? && !subtasks[m - 1].hasDescription
    case _ => false
  }

  /** The reason is about the record `d` at place `m`. */
  predicate AboutOne(d: SubtaskDoc, pi: nat, m: nat, r: Reason) {
    || (r == SubtaskNotAnObject(pi, m) && d.NotAnObject?)
    || (r == MissingId(pi, m) && d.SubtaskDoc? && d.id == "")
    || (r == MissingDescription(pi, m) && d.SubtaskDoc? && !d.hasDescription)
  }

  lemma OneRecordIff(d: SubtaskDoc, pi: nat, m: nat, seen: set<Id>, r: Reason)
    requires !r.DuplicateId?
    ensures r in RecordReasons(d, pi, m, seen) <==> AboutOne(d, pi, m, r)
  {
  }

  lemma AboutOneMore(front: seq<SubtaskDoc>, d: SubtaskDoc, pi: nat, r: Reason)
    ensures AboutRecord(front + [d], pi, r) <==> AboutRecord(front, pi, r) || AboutOne(d, pi, |front| + 1, r)
  {
    assert (front + [d])[|front|] == d && forall k :: 0 <= k < |front| ==> (front + [d])[k] == front[k];
  }

  lemma {:induction false} RecordReasonIff(subtasks: seq<SubtaskDoc>, pi: nat, docs: seq<SubtaskDoc>, r: Reason)
    requires !r.DuplicateId?
    ensures r in PhaseReasons(subtasks, pi, docs) <==> AboutRecord(subtasks, pi, r)
  {
    hide AboutRecord, RecordReasons, AboutOne, Ids;
    if subtasks == [] {
      NothingIsAbout(pi, r);
    } else {
      var front, d := subtasks[..|subtasks| - 1], subtasks[|subtasks| - 1];
      RecordReasonIff(front, pi, docs, r);
      OneRecordIff(d, pi, |subtasks|, Ids(docs + front), r);
      assert subtasks == front + [d];
      AboutOneMore(front, d, pi, r);
    }
  }

  lemma {:induction false} DuplicateReasonIff(subtasks: seq<SubtaskDoc>, pi: nat, docs: seq<SubtaskDoc>, id: Id)
    ensures id == "" ==> DuplicateId(id) !in PhaseReasons(subtasks, pi, docs)
    ensures id != "" ==>
      (DuplicateId(id) in PhaseReasons(subtasks, pi, docs) || Twice(docs, id) <==> Twice(docs + subtasks, id))
  {
    hide Ids, Twice;
    if subtasks == [] {
      assert docs + subtasks == docs;
    } else {
      var front, d := subtasks[..|subtasks| - 1], subtasks[|subtasks| - 1];
      DuplicateReasonIff(front, pi, docs, id);
      assert docs + subtasks == docs + front + [d];
      if id != "" {
        TwiceGrows(docs + front, d, id);
      }
    }
  }

  /** A phase that is no object or has no subtasks; or a record that is no object, or has no id or no description. */
  predicate AboutPhases(phases: seq<PhaseDoc>, r: Reason) {
    match r
    case PhaseNotAnObject(n) => 1 <= n <= |phases| && phases[n - 1].NotAPhase?
    case PhaseWithoutSubtasks(n) => 1 <= n <= |phases| && phases[n - 1] == PhaseDoc([])
    case SubtaskNotAnObject(n, _) => 1 <= n <= |phases| && phases[n - 1].PhaseDoc? && AboutRecord(phases[n - 1].subtasks, n, r)
    case MissingId(n, _) => 1 <= n <= |phases| && phases[n - 1].PhaseDoc? && AboutRecord(phases[n - 1].subtasks, n, r)
    case MissingDescription(n, _) => 1 <= n <= |phases| && phases[n - 1].PhaseDoc? && AboutRecord(phases[n - 1].subtasks, n, r)
    case _ => false
  }

  lemma {:induction false} PlanReasonIff(phases: seq<PhaseDoc>, r: Reason)
    ensures !r.DuplicateId? ==> (r in PlanReasons(phases) <==> AboutPhases(phases, r))
    ensures r.DuplicateId? ==> (r in PlanReasons(phases) <==> r.id != "" && Twice(Docs(phases), r.id))
  {
    hide PhaseReasons, AboutRecord, Twice, AboutPhases;
    if phases == [] {
      NeverTwice(r);
      assert !AboutPhases(phases, r) by { NoPhasesToBeAbout(r); }
    } else {
      var front, p := phases[..|phases| - 1], phases[|phases| - 1];
      PlanReasonIff(front, r);
      assert phases == front + [p];
      AboutOneMorePhase(front, p, r);
      assert Docs(front) + [] == Docs(front);
      if p.PhaseDoc? {
        if r.DuplicateId? {
          DuplicateReasonIff(p.subtasks, |phases|, Docs(front), r.id);
        } else {
          RecordReasonIff(p.subtasks, |phases|, Docs(front), r);
        }
        OnlyOfItsPhase(p.subtasks, |phases|, r);
        assert p.subtasks == [] ==> Docs(front) + p.subtasks == Docs(front);
      }
    }
  }

  lemma NoPhasesToBeAbout(r: Reason)
    ensures !AboutPhases([], r)
  {
  }

  lemma AboutOneMorePhase(front: seq<PhaseDoc>, p: PhaseDoc, r: Reason)
    ensures AboutPhases(front + [p], r) <==> AboutPhases(front, r) || match p
      case NotAPhase => r == PhaseNotAnObject(|front| + 1)
      case PhaseDoc(subtasks) => if subtasks == [] then r == PhaseWithoutSubtasks(|front| + 1) else AboutRecord(subtasks, |front| + 1, r)
  {
    var phases := front + [p];
    assert phases[|front|] == p && forall k :: 0 <= k < |front| ==> phases[k] == front[k];
    if p.PhaseDoc? {
      OnlyOfItsPhase(p.subtasks, |front| + 1, r);
    }
    hide AboutRecord;
  }

  lemma NothingIsAbout(pi: nat, r: Reason)
    ensures !AboutRecord([], pi, r)
  {
  }

  lemma NeverTwice(r: Reason)
    ensures r.DuplicateId? ==> !Twice([], r.id)
  {
  }

  lemma OnlyOfItsPhase(subtasks: seq<SubtaskDoc>, pi: nat, r: Reason)
    ensures AboutRecord(subtasks, pi, r) ==>
      || (r.SubtaskNotAnObject? && r.phase == pi) || (r.MissingId? && r.phase == pi) || (r.MissingDescription? && r.phase == pi)
    ensures AboutRecord(subtasks, pi, r) ==> subtasks != []
  {
  }

  lemma {:induction false} DependencyReasonIff(id: Id, ds: seq<Id>, known: set<Id>, r: Reason)
    ensures r in DependencyReasons(id, ds, known) <==>
      || (r == SelfDependency(id) && id in ds)
      || (r.UnknownDependency? && r.id == id && r.dependency in ds && r.dependency != id && r.dependency !in known)
  {
    if ds != [] {
      DependencyReasonIff(id, ds[..|ds| - 1], known, r);
      assert ds == ds[..|ds| - 1] + [ds[|ds| - 1]];
    }
  }

  lemma {:induction false} GraphReasonIff(deps: DependencyGraph.Graph, keys: seq<Id>, r: Reason)
    requires forall id :: id in keys ==> id in deps
    ensures r in GraphReasons(deps, keys) <==>
      || (r.SelfDependency? && r.id in keys && r.id in deps[r.id])
      || (r.UnknownDependency? && r.id in keys && r.dependency in deps[r.id] && r.dependency != r.id && r.dependency !in deps)
  {
    if keys != [] {
      var front, id := keys[..|keys| - 1], keys[|keys| - 1];
      GraphReasonIff(deps, front, r);
      DependencyReasonIff(id, deps[id], deps.Keys, r);
      assert keys == front + [id];
      hide DependencyReasons;
    }
  }

  /** Where a complaint comes from. */
  lemma ComplaintFrom(plan: PlanDoc, phases: seq<PhaseDoc>, r: Reason)
    requires plan.phases == List(phases) && phases != []
    ensures var docs := Docs(phases); var deps := DepsOf(docs);
      r in Complaints(plan) <==>
        || (r == MissingField("feature") && !plan.hasFeature) || (r == MissingField("workflow_type") && !plan.hasWorkflowType)
        || r in PlanReasons(phases) || (r == NoSubtasks && docs == [])
        || r in GraphReasons(deps, KeysOf(docs)) || (r == DependencyCycle && !DependencyGraph.Acyclic(deps))
  {
    var docs := Docs(phases);
    var deps := DepsOf(docs);
    hide PlanReasons, GraphReasons, DepsOf, KeysOf, Docs, DependencyGraph.Acyclic;
    assert r in FieldReasons(plan) <==>
      (r == MissingField("feature") && !plan.hasFeature) || (r == MissingField("workflow_type") && !plan.hasWorkflowType);
    hide FieldReasons;
    var none := if docs == [] then [NoSubtasks] else [];
    var cycle := if DependencyGraph.Acyclic(deps) then [] else [DependencyCycle];
    assert Complaints(plan) == FieldReasons(plan) + (PlanReasons(phases) + none + GraphReasons(deps, KeysOf(docs)) + cycle);
  }

  /** What the check complains of, for a plan with phases. Phases and records are counted from one; where an id comes twice,
      the dependencies of the last record count. */
  lemma ComplaintIff(plan: PlanDoc, phases: seq<PhaseDoc>, r: Reason)
    requires plan.phases == List(phases) && phases != []
    ensures var docs := Docs(phases); var deps := DepsOf(docs);
      r in Complaints(plan) <==> match r
        case MissingField(f) => (f == "feature" && !plan.hasFeature) || (f == "workflow_type" && !plan.hasWorkflowType)
        case NoPhases => false
        case PhaseNotAnObject(n) => 1 <= n <= |phases| && phases[n - 1].NotAPhase?
        case PhaseWithoutSubtasks(n) => 1 <= n <= |phases| && phases[n - 1] == PhaseDoc([])
        case SubtaskNotAnObject(n, m) =>
          1 <= n <= |phases| && phases[n - 1].PhaseDoc? && 1 <= m <= |phases[n - 1].subtasks| && phases[n - 1].subtasks[m - 1].NotAnObject?
        case MissingId(n, m) =>
          && 1 <= n <= |phases| && phases[n - 1].PhaseDoc? && 1 <= m <= |phases[n - 1].subtasks|
          && phases[n - 1].subtasks[m - 1].SubtaskDoc? && phases[n - 1].subtasks[m - 1].id == ""
        case MissingDescription(n, m) =>
          && 1 <= n <= |phases| && phases[n - 1].PhaseDoc? && 1 <= m <= |phases[n - 1].subtasks|
          && phases[n - 1].subtasks[m - 1].SubtaskDoc? && !phases[n - 1].subtasks[m - 1].hasDescription
        case DuplicateId(id) => id != "" && Twice(docs, id)
        case NoSubtasks => docs == []
        case SelfDependency(id) => id in deps && id in deps[id]
        case UnknownDependency(id, d) => id in deps && d in deps[id] && d != id && d !in deps
        case DependencyCycle => exists c :: DependencyGraph.IsCycle(deps, c)
  {
    var docs := Docs(phases);
    ComplaintFrom(plan, phases, r);
    PlanReasonIff(phases, r);
    GraphReasonIff(DepsOf(docs), KeysOf(docs), r);
    hide Complaints, PlanReasons, GraphReasons, DepsOf, KeysOf, Docs, Twice, DependencyGraph.IsCycle;
  }

  lemma SomeRecord(phases: seq<PhaseDoc>)
    requires phases != [] && forall p :: p in phases ==> HasSubtasks(p)
    ensures Docs(phases) != []
  {
    assert phases[|phases| - 1] in phases;
  }

  // ---- What a complete plan can expect of the wave runner ----------------------------------------------------------------

  /** A phase of a complete plan, as the wave runner is given it. */
  function TaskOf(d: SubtaskDoc): Task
    requires d.SubtaskDoc?
  {
    Task(d.id, d.dependsOn, d.files, d.status)
  }

  function TasksOf(p: PhaseDoc): (tasks: seq<Task>)
    requires GoodPhase(p)
    ensures |tasks| == |p.subtasks| && forall i :: 0 <= i < |tasks| ==> tasks[i] == TaskOf(p.subtasks[i])
  {
    seq(|p.subtasks|, i requires 0 <= i < |p.subtasks| => TaskOf(p.subtasks[i]))
  }

  /** Where the subtasks of phase `k` stand among all subtasks of the plan. */
  lemma {:induction false} PhaseWithin(phases: seq<PhaseDoc>, k: nat) returns (offset: nat)
    requires k < |phases| && phases[k].PhaseDoc?
    ensures offset + |phases[k].subtasks| <= |Docs(phases)|
    ensures Docs(phases)[offset..offset + |phases[k].subtasks|] == phases[k].subtasks
  {
    var shorter := phases[..|phases| - 1];
    if k == |shorter| {
      offset := |Docs(shorter)|;
    } else {
      assert shorter[k] == phases[k];
      offset := PhaseWithin(shorter, k);
    }
  }

  lemma {:induction false} DepsAt(docs: seq<SubtaskDoc>, i: nat)
    requires i < |docs| && SoundRecords(docs)
    ensures docs[i].SubtaskDoc? && docs[i].id in DepsOf(docs) && DepsOf(docs)[docs[i].id] == docs[i].dependsOn
  {
    var shorter, last := docs[..|docs| - 1], docs[|docs| - 1];
    assert docs == shorter + [last];
    AddRecord(shorter, last);
    if i < |shorter| {
      DepsAt(shorter, i);
      assert docs[i].id != last.id;
    }
  }

  /** Every dependency of an unfinished subtask of the phase is a subtask of the same phase. */
  ghost predicate SelfContained(tasks: seq<Task>) {
    forall i, d :: 0 <= i < |tasks| && !tasks[i].status.Completed? && d in tasks[i].dependsOn ==>
      exists n :: 0 <= n < |tasks| && tasks[n].id == d
  }

  /** In a complete plan the records of a phase are good, and each is in the dependency graph under its own id. */
  lemma RecordsOfPhase(phases: seq<PhaseDoc>, k: nat) returns (offset: nat)
    requires CompletePhases(phases) && k < |phases|
    ensures var docs, phase := Docs(phases), phases[k];
      && SoundRecords(docs) && GoodPhase(phase)
      && offset + |phase.subtasks| <= |docs| && docs[offset..offset + |phase.subtasks|] == phase.subtasks
  {
    assert phases[k] in phases;
    GoodPhasesAreGood(phases);
    offset := PhaseWithin(phases, k);
  }

  lemma RecordOfTask(phases: seq<PhaseDoc>, k: nat, i: nat)
    requires CompletePhases(phases) && k < |phases| && GoodPhase(phases[k])
    requires i < |phases[k].subtasks|
    ensures var graph, t := DepsOf(Docs(phases)), TasksOf(phases[k])[i];
      t.id in graph && graph[t.id] == t.dependsOn
  {
    hide CompletePhases, SoundRecords, DepsOf;
    var docs, phase := Docs(phases), phases[k];
    var offset := RecordsOfPhase(phases, k);
    assert docs[offset..offset + |phase.subtasks|][i] == docs[offset + i];
    DepsAt(docs, offset + i);
  }

  lemma PhaseIdsAreUnique(phases: seq<PhaseDoc>, k: nat)
    requires CompletePhases(phases) && k < |phases|
    ensures GoodPhase(phases[k]) && UniqueIds(TasksOf(phases[k]))
  {
    var docs, phase := Docs(phases), phases[k];
    var offset := RecordsOfPhase(phases, k);
    var part := docs[offset..offset + |phase.subtasks|];
    assert forall i :: 0 <= i < |part| ==> part[i] == docs[offset + i];
  }

  /** The plan's topological order ranks the subtasks of a self-contained phase. */
  lemma RankAlong(phases: seq<PhaseDoc>, k: nat, p: WaveRun.Phase, order: seq<Id>) returns (rank: seq<nat>)
    requires CompletePhases(phases) && k < |phases| && GoodPhase(phases[k])
    requires p.tasks == TasksOf(phases[k]) && SelfContained(p.tasks)
    requires DependencyGraph.TopologicalOrder(DepsOf(Docs(phases)), order)
    ensures WaveLaws.Schedulable(p, rank)
  {
    hide CompletePhases, DepsOf;
    var graph := DepsOf(Docs(phases));
    forall i | 0 <= i < |p.tasks| ensures p.tasks[i].id in graph && graph[p.tasks[i].id] == p.tasks[i].dependsOn {
      RecordOfTask(phases, k, i);
    }
    rank := seq(|p.tasks|, i requires 0 <= i < |p.tasks| => DependencyGraph.IndexIn(order, p.tasks[i].id));
    forall i, d | i in WaveLaws.Unfinished(p) && d in p.tasks[i].dependsOn
      ensures exists n :: 0 <= n < |p.tasks| && p.tasks[n].id == d && (p.tasks[n].status.Completed? || rank[n] < rank[i])
    {
      var n :| 0 <= n < |p.tasks| && p.tasks[n].id == d;
      DependencyGraph.EdgeDescends(graph, order, p.tasks[i].id, d);
    }
  }

  lemma OrderOf(phases: seq<PhaseDoc>) returns (order: seq<Id>)
    requires CompletePhases(phases)
    ensures DependencyGraph.TopologicalOrder(DepsOf(Docs(phases)), order)
  {
    hide DepsOf;
    DependencyGraph.AcyclicIffOrdered(DepsOf(Docs(phases)));
    order :| DependencyGraph.TopologicalOrder(DepsOf(Docs(phases)), order);
  }

  /** Every subtask can be started or is complete. */
  ghost predicate PendingOrDone(tasks: seq<Task>) {
    forall i :: 0 <= i < |tasks| ==> tasks[i].status.Pending? || tasks[i].status.Completed?
  }

  /** When every session, merge and gate succeeds, a phase of a complete plan runs to ok if and only if its unfinished
      subtasks are pending and none of them depends on a subtask of another phase. */
  lemma CompletePhaseSucceedsIff(phases: seq<PhaseDoc>, k: nat, p: WaveRun.Phase, h: WaveRun.History, e: WaveRun.Ending,
                                 r: WaveRun.PhaseRunResult)
    requires CompletePhases(phases) && k < |phases| && GoodPhase(phases[k])
    requires p.tasks == TasksOf(phases[k]) && |p.fate| == |p.tasks|
    ensures WaveRun.Valid(p)
    ensures WaveLaws.NothingFails(p) && WaveRun.Ends(p, h, e) && WaveRun.Reports(p, h, e, r) ==>
      (r.Ok() <==> PendingOrDone(p.tasks) && SelfContained(p.tasks))
  {
    PhaseIdsAreUnique(phases, k);
    if WaveLaws.NothingFails(p) && WaveRun.Ends(p, h, e) && WaveRun.Reports(p, h, e, r) {
      hide CompletePhases, WaveRun.Ends, WaveRun.Reports, DependencyGraph.TopologicalOrder;
      WaveLaws.SucceedsIffSchedulable(p, h, e, r);
      assert PendingOrDone(p.tasks) <==> forall i :: i in WaveLaws.Unfinished(p) ==> p.tasks[i].status.Pending?;
      if SelfContained(p.tasks) {
        var order := OrderOf(phases);
        var rank := RankAlong(phases, k, p, order);
      }
      if r.Ok() {
        var some :| WaveLaws.Schedulable(p, some);
        SchedulableIsSelfContained(p, some);
      }
    }
  }

  lemma SchedulableIsSelfContained(p: WaveRun.Phase, rank: seq<nat>)
    requires WaveLaws.Schedulable(p, rank)
    ensures SelfContained(p.tasks)
  {
    forall i, d | 0 <= i < |p.tasks| && !p.tasks[i].status.Completed? && d in p.tasks[i].dependsOn
      ensures exists n :: 0 <= n < |p.tasks| && p.tasks[n].id == d
    {
      assert i in WaveLaws.Unfinished(p);
    }
  }

  /** A plan of one phase that passes the checklist runs to ok, when nothing fails, if and only if its unfinished subtasks
      are pending. */
  lemma SinglePhasePlanSucceeds(phases: seq<PhaseDoc>, p: WaveRun.Phase, h: WaveRun.History, e: WaveRun.Ending,
                                r: WaveRun.PhaseRunResult)
    requires CompletePhases(phases) && |phases| == 1 && GoodPhase(phases[0])
    requires p.tasks == TasksOf(phases[0]) && |p.fate| == |p.tasks|
    ensures WaveRun.Valid(p)
    ensures WaveLaws.NothingFails(p) && WaveRun.Ends(p, h, e) && WaveRun.Reports(p, h, e, r) ==>
      (r.Ok() <==> PendingOrDone(p.tasks))
  {
    hide CompletePhases, WaveRun.Ends, WaveRun.Reports;
    CompletePhaseSucceedsIff(phases, 0, p, h, e, r);
    SinglePhaseIsSelfContained(phases);
  }

  // ---- An accepted plan that stalls -----------------------------------------------------------------------------------------

  /** Two phases of one pending subtask each, the second depending on the first. */
  function TwoPhases(first: Id, second: Id): seq<PhaseDoc> {
    [PhaseDoc([SubtaskDoc(first, true, [], {}, Pending)]), PhaseDoc([SubtaskDoc(second, true, [first], {}, Pending)])]
  }

  lemma TwoPhasesAreComplete(first: Id, second: Id)
    requires first != "" && second != "" && first != second
    ensures CompletePhases(TwoPhases(first, second))
  {
    var phases := TwoPhases(first, second);
    var a, b := phases[0].subtasks[0], phases[1].subtasks[0];
    var graph: DependencyGraph.Graph := map[first := [], second := [first]];
    TwoRecords(phases, a, b);
    var order := [first, second];
    assert order[..1] == [first];
    assert DependencyGraph.TopologicalOrder(graph, order);
    DependencyGraph.TopologicalOrderExcludesCycles(graph, order);
  }

  lemma TwoRecords(phases: seq<PhaseDoc>, a: SubtaskDoc, b: SubtaskDoc)
    requires phases == [PhaseDoc([a]), PhaseDoc([b])] && a.SubtaskDoc? && b.SubtaskDoc? && a.id != "" && b.id != ""
    ensures Docs(phases) == [a, b] && DepsOf([a, b]) == map[a.id := a.dependsOn][b.id := b.dependsOn]
  {
    hide DepsOf;
    assert phases[..1] == [phases[0]] && phases[..1][..0] == [];
    assert Docs(phases[..1]) == [] + [a];
    assert Docs(phases) == Docs(phases[..1]) + [b];
    TwoDependencies(a, b);
  }

  lemma TwoDependencies(a: SubtaskDoc, b: SubtaskDoc)
    requires a.SubtaskDoc? && b.SubtaskDoc? && a.id != "" && b.id != ""
    ensures DepsOf([a, b]) == map[a.id := a.dependsOn][b.id := b.dependsOn]
  {
    assert [] + [a] == [a] && [a] + [b] == [a, b];
    AddRecord([], a);
    AddRecord([a], b);
  }

  /** The plan is accepted and nothing fails, yet its second phase is left at once, stalled: the dependency is no subtask of
      the phase, so it never counts as complete. */
  lemma AcceptedPlanStalls(first: Id, second: Id, p: WaveRun.Phase) returns (r: WaveRun.PhaseRunResult)
    requires first != "" && second != "" && first != second
    requires p.tasks == TasksOf(TwoPhases(first, second)[1]) && p.fate == [WaveRun.Accepted(true)]
    ensures CompletePhases(TwoPhases(first, second)) && WaveRun.Valid(p) && WaveLaws.NothingFails(p)
    ensures WaveRun.Ends(p, [], WaveRun.Starved) && WaveRun.Reports(p, [], WaveRun.Starved, r) && r.stalled && !r.Ok()
  {
    TwoPhasesAreComplete(first, second);
    hide CompletePhases;
    assert WaveRun.IsRemaining(p, [], 0);
    forall i: nat ensures !WaveLaws.Startable(p, [], i) {
      if i == 0 {
        assert first in p.tasks[0].dependsOn;
      }
    }
    WaveLaws.EmptySelection(p, []);
    r := WaveRun.PhaseRunResult(WaveRun.CompletedIds(p, []), WaveRun.FailedIds(p, []), true,
                                WaveRun.ListedIds(p, [], WaveRun.Starved, 1), 0);
  }

  lemma DependencyIsARecord(docs: seq<SubtaskDoc>, i: nat, d: Id) returns (n: nat)
    requires SoundRecords(docs) && KnownDependencies(DepsOf(docs)) && i < |docs|
    requires docs[i].SubtaskDoc? && d in docs[i].dependsOn
    ensures n < |docs| && docs[n].SubtaskDoc? && docs[n].id == d
  {
    hide SoundRecords;
    DepsAt(docs, i);
    assert d in DepsOf(docs);
    var other :| other in docs && other.SubtaskDoc? && other.id == d;
    n :| 0 <= n < |docs| && docs[n] == other;
  }

  lemma SinglePhaseIsSelfContained(phases: seq<PhaseDoc>)
    requires CompletePhases(phases) && |phases| == 1 && GoodPhase(phases[0])
    ensures SelfContained(TasksOf(phases[0]))
  {
    OnlyPhase(phases);
    GoodPhasesAreGood(phases);
    var docs, tasks := phases[0].subtasks, TasksOf(phases[0]);
    assert SoundRecords(docs) && KnownDependencies(DepsOf(docs));
    hide SoundRecords, KnownDependencies, Docs, DepsOf, CompletePhases;
    forall i, d | 0 <= i < |tasks| && d in tasks[i].dependsOn
      ensures exists n :: 0 <= n < |tasks| && tasks[n].id == d
    {
      var n := DependencyIsARecord(docs, i, d);
      assert tasks[n].id == d;
    }
  }

  lemma OnlyPhase(phases: seq<PhaseDoc>)
    requires |phases| == 1 && GoodPhase(phases[0])
    ensures Docs(phases) == phases[0].subtasks && HasSubtasks(phases[0]) && phases == [phases[0]]
  {
    assert phases[..0] == [];
    assert Docs(phases) == [] + phases[0].subtasks;
  }
}
