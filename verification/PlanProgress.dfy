/** The part of a plan that an approval binds, without its progress keys (plan_progress.py). */
module PlanProgress {
  import opened Basics

  datatype Json =
    | Null
    | Bool(b: bool)
    | Num(n: real)
    | Str(s: string)
    | List(items: seq<Json>)
    | Obj(fields: map<string, Json>)

  type Fields = map<string, Json>

  const PLAN_PROGRESS_KEYS: set<string> := {
    "status", "planStatus", "reviewReason", "recoveryNote", "contractHold", "qa_signoff", "qa_iteration_history",
    "qa_stats", "last_updated", "created_at", "updated_at", "phase"
  }

  const SUBTASK_PROGRESS_KEYS: set<string> := {
    "status", "notes", "updated_at", "started_at", "completed_at", "actual_output", "critique_result"
  }

  predicate HasList(fields: Fields, key: string) {
    key in fields && fields[key].List?
  }

  // ---- The projection -----------------------------------------------------------------------------------------------------

  function StripSubtask(st: Json): Json {
    if st.Obj? then Obj(st.fields - SUBTASK_PROGRESS_KEYS) else st
  }

  function StripAll(items: seq<Json>): (r: seq<Json>)
    ensures |r| == |items| && forall k :: 0 <= k < |items| ==> r[k] == StripSubtask(items[k])
  {
    seq(|items|, k requires 0 <= k < |items| => StripSubtask(items[k]))
  }

  function StripTasks(fields: Fields, key: string): Fields {
    if HasList(fields, key) then fields[key := List(StripAll(fields[key].items))] else fields
  }

  function WithoutCopy(fields: Fields): Fields {
    if HasList(fields, "subtasks") then fields - {"chunks"} else fields
  }

  function StripPhase(phase: Json): Json {
    if phase.Obj? then Obj(StripTasks(StripTasks(WithoutCopy(phase.fields), "subtasks"), "chunks")) else phase
  }

  function StripPhases(phases: seq<Json>): (r: seq<Json>)
    ensures |r| == |phases| && forall k :: 0 <= k < |phases| ==> r[k] == StripPhase(phases[k])
  {
    seq(|phases|, k requires 0 <= k < |phases| => StripPhase(phases[k]))
  }

  function Strip(plan: Fields): Fields {
    var content := plan - PLAN_PROGRESS_KEYS;
    if HasList(content, "phases") then content["phases" := List(StripPhases(content["phases"].items))] else content
  }

  method StripPlanProgress(plan: Fields) returns (content: Fields)
    ensures content == Strip(plan)
  {
    content := plan - PLAN_PROGRESS_KEYS;
    if "phases" !in content || !content["phases"].List? {
      return;
    }
    var phases := content["phases"].items;
    var stripped: seq<Json> := [];
    for i := 0 to |phases|
      invariant stripped == StripPhases(phases)[..i]
    {
      if !phases[i].Obj? {
        stripped := stripped + [phases[i]];
        continue;
      }
      var phase := phases[i].fields;
      if HasList(phase, "subtasks") {
        phase := phase - {"chunks"};
      }
      if HasList(phase, "subtasks") {
        phase := phase["subtasks" := List(StripAll(phase["subtasks"].items))];
      }
      if HasList(phase, "chunks") {
        phase := phase["chunks" := List(StripAll(phase["chunks"].items))];
      }
      stripped := stripped + [Obj(phase)];
    }
    assert StripPhases(phases)[..|phases|] == StripPhases(phases);
    content := content["phases" := List(stripped)];
  }

  // ---- What two plans must share ----------------------------------------------------------------------------------------------

  /** Two objects agree outside some keys. */
  ghost predicate AgreeOutside(a: Fields, b: Fields, keys: set<string>) {
    forall k :: k !in keys ==> (k in a <==> k in b) && (k in a ==> a[k] == b[k])
  }

  ghost predicate SameSubtask(a: Json, b: Json) {
    if a.Obj? && b.Obj? then AgreeOutside(a.fields, b.fields, SUBTASK_PROGRESS_KEYS) else a == b
  }

  ghost predicate SameTasks(a: Fields, b: Fields, key: string) {
    if HasList(a, key) && HasList(b, key) then
      var s, t := a[key].items, b[key].items;
      |s| == |t| && forall k :: 0 <= k < |s| ==> SameSubtask(s[k], t[k])
    else (key in a <==> key in b) && (key in a ==> a[key] == b[key])
  }

  /** `chunks` matters only where there is no `subtasks` list. */
  ghost predicate SamePhase(a: Json, b: Json) {
    if a.Obj? && b.Obj? then
      && AgreeOutside(a.fields, b.fields, {"subtasks", "chunks"})
      && SameTasks(a.fields, b.fields, "subtasks")
      && (HasList(a.fields, "subtasks") || SameTasks(a.fields, b.fields, "chunks"))
    else a == b
  }

  /** The plans differ only in progress keys, at plan or subtask level, or in `chunks` beside a `subtasks` list. */
  ghost predicate SameContent(p: Fields, q: Fields) {
    && AgreeOutside(p, q, PLAN_PROGRESS_KEYS + {"phases"})
    && if HasList(p, "phases") && HasList(q, "phases") then
         var s, t := p["phases"].items, q["phases"].items;
         |s| == |t| && forall k :: 0 <= k < |s| ==> SamePhase(s[k], t[k])
       else ("phases" in p <==> "phases" in q) && ("phases" in p ==> p["phases"] == q["phases"])
  }

  // ---- Equal projections are equal contents --------------------------------------------------------------------------------------

  lemma AgreeIffRestrictionsEqual(a: Fields, b: Fields, keys: set<string>)
    ensures AgreeOutside(a, b, keys) <==> a - keys == b - keys
  {
    if a - keys == b - keys {
      forall k | k !in keys ensures (k in a <==> k in b) && (k in a ==> a[k] == b[k]) {
        assert k in a <==> k in a - keys;
        assert k in b <==> k in b - keys;
        assert k in a ==> (a - keys)[k] == a[k];
        assert k in b ==> (b - keys)[k] == b[k];
      }
    }
  }

  lemma SubtaskIff(a: Json, b: Json)
    ensures StripSubtask(a) == StripSubtask(b) <==> SameSubtask(a, b)
  {
    if a.Obj? && b.Obj? {
      AgreeIffRestrictionsEqual(a.fields, b.fields, SUBTASK_PROGRESS_KEYS);
    }
  }

  lemma AllSubtasksIff(s: seq<Json>, t: seq<Json>)
    ensures StripAll(s) == StripAll(t) <==> |s| == |t| && forall k :: 0 <= k < |s| ==> SameSubtask(s[k], t[k])
  {
    hide SameSubtask, StripSubtask;
    forall k | 0 <= k < |s| && k < |t| ensures StripAll(s)[k] == StripAll(t)[k] <==> SameSubtask(s[k], t[k]) {
      SubtaskIff(s[k], t[k]);
    }
    if StripAll(s) == StripAll(t) {
      assert |s| == |StripAll(s)| == |StripAll(t)| == |t|;
    }
  }

  /** The value a phase shows under one of its task keys after stripping. */
  function Shown(fields: Fields, key: string): (r: seq<Json>)
    ensures |r| <= 1
  {
    if HasList(fields, key) then [List(StripAll(fields[key].items))] else if key in fields then [fields[key]] else []
  }

  lemma ShownIff(a: Fields, b: Fields, key: string)
    ensures Shown(a, key) == Shown(b, key) <==> SameTasks(a, b, key)
    ensures Shown(a, key) == Shown(b, key) ==> (HasList(a, key) <==> HasList(b, key))
  {
    if HasList(a, key) && HasList(b, key) {
      AllSubtasksIff(a[key].items, b[key].items);
    }
  }

  /** A stripped phase, key by key. */
  lemma StrippedPhaseIs(fields: Fields)
    ensures var r := StripPhase(Obj(fields)).fields;
      && r - {"subtasks", "chunks"} == fields - {"subtasks", "chunks"}
      && ("subtasks" in r <==> Shown(fields, "subtasks") != []) && ("subtasks" in r ==> [r["subtasks"]] == Shown(fields, "subtasks"))
      && (HasList(fields, "subtasks") ==> "chunks" !in r)
      && (!HasList(fields, "subtasks") ==>
            && ("chunks" in r <==> Shown(fields, "chunks") != [])
            && ("chunks" in r ==> [r["chunks"]] == Shown(fields, "chunks")))
  {
    hide StripAll;
  }

  lemma EqualByParts(a: Fields, b: Fields, keys: set<string>)
    requires a - keys == b - keys && forall k :: k in keys ==> (k in a <==> k in b) && (k in a ==> a[k] == b[k])
    ensures a == b
  {
    AgreeIffRestrictionsEqual(a, b, keys);
  }

  lemma PhaseIff(a: Json, b: Json)
    ensures StripPhase(a) == StripPhase(b) <==> SamePhase(a, b)
  {
    if a.Obj? && b.Obj? {
      var r, s := StripPhase(a).fields, StripPhase(b).fields;
      StrippedPhaseIs(a.fields);
      StrippedPhaseIs(b.fields);
      ShownIff(a.fields, b.fields, "subtasks");
      ShownIff(a.fields, b.fields, "chunks");
      AgreeIffRestrictionsEqual(a.fields, b.fields, {"subtasks", "chunks"});
      hide StripPhase, SameTasks, Shown, AgreeOutside;
      if SamePhase(a, b) {
        EqualByParts(r, s, {"subtasks", "chunks"});
      }
    }
  }

  lemma AllPhasesIff(s: seq<Json>, t: seq<Json>)
    ensures StripPhases(s) == StripPhases(t) <==> |s| == |t| && forall k :: 0 <= k < |s| ==> SamePhase(s[k], t[k])
  {
    hide SamePhase, StripPhase;
    forall k | 0 <= k < |s| && k < |t| ensures StripPhases(s)[k] == StripPhases(t)[k] <==> SamePhase(s[k], t[k]) {
      PhaseIff(s[k], t[k]);
    }
    if StripPhases(s) == StripPhases(t) {
      assert |s| == |StripPhases(s)| == |StripPhases(t)| == |t|;
    }
  }

  /** A stripped plan, key by key. */
  lemma StrippedPlanIs(plan: Fields)
    ensures Strip(plan) - {"phases"} == plan - (PLAN_PROGRESS_KEYS + {"phases"})
    ensures "phases" in Strip(plan) <==> "phases" in plan
    ensures "phases" in plan ==>
              Strip(plan)["phases"] == if plan["phases"].List? then List(StripPhases(plan["phases"].items)) else plan["phases"]
  {
    hide StripPhases;
    assert "phases" !in PLAN_PROGRESS_KEYS;
    var content := plan - PLAN_PROGRESS_KEYS;
    assert "phases" in plan <==> "phases" in content;
    assert Strip(plan) - {"phases"} == content - {"phases"};
  }

  /** Two plans have equal projections if and only if they differ only in progress. */
  lemma EqualProjectionsIffSameContent(p: Fields, q: Fields)
    ensures Strip(p) == Strip(q) <==> SameContent(p, q)
  {
    StrippedPlanIs(p);
    StrippedPlanIs(q);
    AgreeIffRestrictionsEqual(p, q, PLAN_PROGRESS_KEYS + {"phases"});
    if HasList(p, "phases") && HasList(q, "phases") {
      AllPhasesIff(p["phases"].items, q["phases"].items);
    }
    hide Strip, StripPhases, AgreeOutside, PLAN_PROGRESS_KEYS;
    if SameContent(p, q) {
      EqualByParts(Strip(p), Strip(q), {"phases"});
    }
  }

  lemma StrippedPhaseSame(phase: Json)
    ensures SamePhase(StripPhase(phase), phase)
  {
    if phase.Obj? {
      var a, b := StripPhase(phase).fields, phase.fields;
      StrippedPhaseIs(b);
      AgreeIffRestrictionsEqual(a, b, {"subtasks", "chunks"});
      StrippedTasksSame(a, b, "subtasks");
      if !HasList(b, "subtasks") {
        StrippedTasksSame(a, b, "chunks");
      }
    }
  }

  lemma StrippedTasksSame(a: Fields, b: Fields, key: string)
    requires (key in a <==> Shown(b, key) != []) && (key in a ==> [a[key]] == Shown(b, key))
    ensures SameTasks(a, b, key) && (HasList(a, key) <==> HasList(b, key))
  {
    if HasList(b, key) {
      var s := b[key].items;
      assert a[key] == [a[key]][0] == Shown(b, key)[0] == List(StripAll(s));
      forall k | 0 <= k < |s| ensures SameSubtask(StripAll(s)[k], s[k]) {
        if s[k].Obj? {
          AgreeIffRestrictionsEqual(StripSubtask(s[k]).fields, s[k].fields, SUBTASK_PROGRESS_KEYS);
        }
      }
    } else if key in b {
      assert a[key] == [a[key]][0] == Shown(b, key)[0] == b[key];
    }
  }

  /** Stripping twice strips no more. */
  lemma StripIsIdempotent(plan: Fields)
    ensures Strip(Strip(plan)) == Strip(plan)
  {
    StrippedPlanIs(plan);
    AgreeIffRestrictionsEqual(Strip(plan), plan, PLAN_PROGRESS_KEYS + {"phases"});
    assert Strip(plan) - (PLAN_PROGRESS_KEYS + {"phases"}) == plan - (PLAN_PROGRESS_KEYS + {"phases"}) by {
      assert Strip(plan) - (PLAN_PROGRESS_KEYS + {"phases"}) == (Strip(plan) - {"phases"}) - PLAN_PROGRESS_KEYS;
    }
    if HasList(plan, "phases") {
      var s := plan["phases"].items;
      forall k | 0 <= k < |s| ensures SamePhase(StripPhases(s)[k], s[k]) {
        StrippedPhaseSame(s[k]);
      }
    }
    EqualProjectionsIffSameContent(Strip(plan), plan);
  }

  /** A new key of a plan, other than `phases`, leaves the projection as it was if and only if it is one of twelve. */
  lemma PlanKeyIsFreeIff(plan: Fields, key: string, value: Json)
    requires key !in plan && key != "phases"
    ensures Strip(plan[key := value]) == Strip(plan) <==>
      key in {"status", "planStatus", "reviewReason", "recoveryNote", "contractHold", "qa_signoff", "qa_iteration_history",
              "qa_stats", "last_updated", "created_at", "updated_at", "phase"}
  {
    var more := plan[key := value];
    if key in PLAN_PROGRESS_KEYS {
      PlanKeyKeeps(plan, key, Some(value));
    } else {
      assert key in Strip(more) && key !in Strip(plan);
    }
  }

  /** A new key of a subtask leaves its projection as it was if and only if it is one of seven. */
  lemma SubtaskKeyIsFreeIff(subtask: Fields, key: string, value: Json)
    requires key !in subtask
    ensures StripSubtask(Obj(subtask[key := value])) == StripSubtask(Obj(subtask)) <==>
      key in {"status", "notes", "updated_at", "started_at", "completed_at", "actual_output", "critique_result"}
  {
    var more := subtask[key := value];
    if key in SUBTASK_PROGRESS_KEYS {
      assert more - SUBTASK_PROGRESS_KEYS == subtask - SUBTASK_PROGRESS_KEYS;
    } else {
      assert key in more - SUBTASK_PROGRESS_KEYS && key !in subtask - SUBTASK_PROGRESS_KEYS;
    }
  }

  // ---- Progress writes -------------------------------------------------------------------------------------------------------------

  /** What the approve route, the coder, QA and recovery do to a plan: set or remove a progress key of the plan; set or remove
      a progress key of a subtask, in the list a phase keeps under `subtasks` or `chunks`; and set or remove `chunks` beside a
      `subtasks` list, as every save does. */
  datatype Write =
    | PlanKey(key: string, value: Option<Json>)
    | SubtaskKey(phase: nat, list: string, index: nat, key: string, value: Option<Json>)
    | Chunks(phase: nat, value: Option<Json>)

  function Put(fields: Fields, key: string, value: Option<Json>): Fields {
    if value.Some? then fields[key := value.value] else fields - {key}
  }

  /** Phase `i` is an object with a list under the key. */
  predicate HasTasks(plan: Fields, i: nat, list: string) {
    && HasList(plan, "phases") && i < |plan["phases"].items|
    && plan["phases"].items[i].Obj? && HasList(plan["phases"].items[i].fields, list)
  }

  predicate Possible(plan: Fields, w: Write) {
    match w
    case PlanKey(key, _) => key in PLAN_PROGRESS_KEYS
    case SubtaskKey(i, list, j, key, _) =>
      && (list == "subtasks" || list == "chunks") && key in SUBTASK_PROGRESS_KEYS && HasTasks(plan, i, list)
      && var tasks := plan["phases"].items[i].fields[list].items; j < |tasks| && tasks[j].Obj?
    case Chunks(i, _) => HasTasks(plan, i, "subtasks")
  }

  function SetPhase(plan: Fields, i: nat, fields: Fields): Fields
    requires HasList(plan, "phases") && i < |plan["phases"].items|
  {
    plan["phases" := List(plan["phases"].items[i := Obj(fields)])]
  }

  function SetTask(fields: Fields, list: string, j: nat, key: string, value: Option<Json>): Fields
    requires HasList(fields, list) && j < |fields[list].items| && fields[list].items[j].Obj?
  {
    var tasks := fields[list].items;
    fields[list := List(tasks[j := Obj(Put(tasks[j].fields, key, value))])]
  }

  function Do(plan: Fields, w: Write): Fields
    requires Possible(plan, w)
  {
    match w
    case PlanKey(key, value) => Put(plan, key, value)
    case SubtaskKey(i, list, j, key, value) => SetPhase(plan, i, SetTask(plan["phases"].items[i].fields, list, j, key, value))
    case Chunks(i, value) => SetPhase(plan, i, Put(plan["phases"].items[i].fields, "chunks", value))
  }

  ghost predicate AreWrites(plan: Fields, ws: seq<Write>, plan': Fields)
    decreases |ws|
  {
    if ws == [] then plan' == plan else Possible(plan, ws[0]) && AreWrites(Do(plan, ws[0]), ws[1..], plan')
  }

  lemma SamePhaseRefl(p: Json)
    ensures SamePhase(p, p)
  {
    PhaseIff(p, p);
  }

  lemma SetPhaseKeeps(plan: Fields, i: nat, fields: Fields)
    requires HasList(plan, "phases") && i < |plan["phases"].items| && SamePhase(Obj(fields), plan["phases"].items[i])
    ensures SameContent(SetPhase(plan, i, fields), plan)
  {
    forall p: Json ensures SamePhase(p, p) {
      SamePhaseRefl(p);
    }
    hide SamePhase;
  }

  lemma SetTaskKeeps(fields: Fields, list: string, j: nat, key: string, value: Option<Json>)
    requires HasList(fields, list) && j < |fields[list].items| && fields[list].items[j].Obj?
    requires (list == "subtasks" || list == "chunks") && key in SUBTASK_PROGRESS_KEYS
    ensures SamePhase(Obj(SetTask(fields, list, j, key, value)), Obj(fields))
  {
    var changed := SetTask(fields, list, j, key, value);
    var s, t := changed[list].items, fields[list].items;
    forall k | 0 <= k < |s| ensures SameSubtask(s[k], t[k]) {
      SubtaskIff(s[k], t[k]);
      assert k != j ==> s[k] == t[k];
    }
    assert SameTasks(changed, fields, list);
    var other := if list == "subtasks" then "chunks" else "subtasks";
    UnchangedTasks(changed, fields, other);
    hide SUBTASK_PROGRESS_KEYS, SameTasks, SameSubtask;
  }

  lemma UnchangedTasks(a: Fields, b: Fields, key: string)
    requires (key in a <==> key in b) && (key in a ==> a[key] == b[key])
    ensures SameTasks(a, b, key)
  {
    ShownIff(a, b, key);
  }

  lemma PutChunksKeeps(fields: Fields, value: Option<Json>)
    requires HasList(fields, "subtasks")
    ensures SamePhase(Obj(Put(fields, "chunks", value)), Obj(fields))
  {
    UnchangedTasks(Put(fields, "chunks", value), fields, "subtasks");
  }

  lemma WriteKeepsProjection(plan: Fields, w: Write)
    requires Possible(plan, w)
    ensures Strip(Do(plan, w)) == Strip(plan)
  {
    EqualProjectionsIffSameContent(Do(plan, w), plan);
    match w
    case PlanKey(key, value) =>
      PlanKeyKeeps(plan, key, value);
    case SubtaskKey(i, list, j, key, value) =>
      var fields := plan["phases"].items[i].fields;
      SetTaskKeeps(fields, list, j, key, value);
      SetPhaseKeeps(plan, i, SetTask(fields, list, j, key, value));
    case Chunks(i, value) =>
      var fields := plan["phases"].items[i].fields;
      PutChunksKeeps(fields, value);
      SetPhaseKeeps(plan, i, Put(fields, "chunks", value));
  }

  lemma PlanKeyKeeps(plan: Fields, key: string, value: Option<Json>)
    requires key in PLAN_PROGRESS_KEYS
    ensures Strip(Put(plan, key, value)) == Strip(plan)
  {
    assert Put(plan, key, value) - PLAN_PROGRESS_KEYS == plan - PLAN_PROGRESS_KEYS;
  }

  /** No sequence of progress writes changes what the approval was given for. */
  lemma {:induction false} ProgressKeepsApproval(plan: Fields, ws: seq<Write>, plan': Fields)
    requires AreWrites(plan, ws, plan')
    ensures Strip(plan') == Strip(plan)
    decreases |ws|
  {
    if ws != [] {
      WriteKeepsProjection(plan, ws[0]);
      ProgressKeepsApproval(Do(plan, ws[0]), ws[1..], plan');
    }
  }
}
