/** Gate results as a printed summary, and the summary read back (gate_runner.py). */
module GateRunner {
  import opened Basics
  import opened Text

  datatype GateResult = GateResult(name: string, passed: bool, skipped: bool)

  datatype Gate = Gate(name: string, skipCode: Option<int>)

  predicate Skips(gate: Gate, exit: Option<int>) {
    exit.None? || exit == gate.skipCode
  }

  function ResultOf(gate: Gate, exit: Option<int>): (r: GateResult)
    ensures r.name == gate.name
    ensures Status(r) == if Skips(gate, exit) then "skipped" else if exit == Some(0) then "passed" else "failed"
  {
    if Skips(gate, exit) then GateResult(gate.name, true, true) else GateResult(gate.name, exit == Some(0), false)
  }

  function ResultsOf(gates: seq<Gate>, exits: seq<Option<int>>): (rs: seq<GateResult>)
    requires |exits| == |gates|
    ensures |rs| == |gates| && forall k :: 0 <= k < |gates| ==> rs[k] == ResultOf(gates[k], exits[k])
  {
    seq(|gates|, k requires 0 <= k < |gates| => ResultOf(gates[k], exits[k]))
  }

  lemma ResultsAre(gates: seq<Gate>, exits: seq<Option<int>>)
    requires |exits| == |gates|
    ensures var results := ResultsOf(gates, exits); forall k :: 0 <= k < |gates| ==>
      && results[k].name == gates[k].name
      && (results[k].skipped <==> exits[k] == None || exits[k] == gates[k].skipCode)
      && (results[k].passed <==> results[k].skipped || exits[k] == Some(0))
  {
  }

  /** Runs every gate once and in order; `exits` are the runner's answers, with no exit code when the tool is missing. */
  method RunGates(gates: seq<Gate>, exits: seq<Option<int>>) returns (results: seq<GateResult>)
    requires |exits| == |gates|
    ensures results == ResultsOf(gates, exits) && |results| == |gates|
    ensures forall k :: 0 <= k < |gates| ==>
      && results[k].name == gates[k].name
      && (results[k].skipped <==> exits[k] == None || exits[k] == gates[k].skipCode)
      && (results[k].passed <==> results[k].skipped || exits[k] == Some(0))
  {
    ResultsAre(gates, exits);
    results := [];
    for i := 0 to |gates|
      invariant results == ResultsOf(gates, exits)[..i]
    {
      if exits[i].None? || exits[i] == gates[i].skipCode {
        results := results + [GateResult(gates[i].name, true, true)];
      } else {
        results := results + [GateResult(gates[i].name, exits[i] == Some(0), false)];
      }
    }
  }

  /** A linter of the project's CI is covered by any result of its name; eslint runs under the name "lint". */
  predicate Covered(results: seq<GateResult>, tool: string) {
    exists k :: 0 <= k < |results| && results[k].name == if tool == "eslint" then "lint" else tool
  }

  function SkippedLinters(results: seq<GateResult>, linters: seq<string>): seq<GateResult> {
    if linters == [] then []
    else SkippedLinter(results, linters[0]) + SkippedLinters(results, linters[1..])
  }

  function SkippedLinter(results: seq<GateResult>, tool: string): seq<GateResult> {
    if Covered(results, tool) then [] else [GateResult(tool, true, true)]
  }

  /** `at` lists, in order, the places of the linters that are not covered. */
  ghost predicate Uncovered(results: seq<GateResult>, linters: seq<string>, at: seq<nat>) {
    && (forall j, k :: 0 <= j < k < |at| ==> at[j] < at[k])
    && (forall k :: 0 <= k < |at| ==> at[k] < |linters|)
    && (forall i: nat :: i < |linters| ==> (i in at <==> !Covered(results, linters[i])))
  }

  lemma UncoveredGrows(results: seq<GateResult>, linters: seq<string>, later: seq<nat>, shifted: seq<nat>) returns (at: seq<nat>)
    requires linters != [] && Uncovered(results, linters[1..], later)
    requires |shifted| == |later| && forall k :: 0 <= k < |later| ==> shifted[k] == later[k] + 1
    ensures Uncovered(results, linters, at)
    ensures at == (if Covered(results, linters[0]) then [] else [0]) + shifted
  {
    at := (if Covered(results, linters[0]) then [] else [0]) + shifted;
    hide Covered;
    ShiftedIn(later, shifted, 1);
    forall i: nat | i < |linters| ensures i in at <==> !Covered(results, linters[i]) {
      if i > 0 {
        ShiftedIn(later, shifted, i);
        assert linters[i] == linters[1..][i - 1];
      }
    }
  }

  lemma UncoveredWithin(results: seq<GateResult>, linters: seq<string>, at: seq<nat>)
    requires Uncovered(results, linters, at)
    ensures forall k :: 0 <= k < |at| ==> at[k] < |linters|
  {
  }

  lemma {:induction false} SkippedAt(results: seq<GateResult>, linters: seq<string>) returns (at: seq<nat>)
    ensures Uncovered(results, linters, at) && |at| == |SkippedLinters(results, linters)|
    ensures forall k :: 0 <= k < |at| ==> SkippedLinters(results, linters)[k] == GateResult(linters[at[k]], true, true)
  {
    at := [];
    if linters != [] {
      var later := SkippedAt(results, linters[1..]);
      var shifted := seq(|later|, k requires 0 <= k < |later| => later[k] + 1);
      UncoveredWithin(results, linters[1..], later);
      at := UncoveredGrows(results, linters, later, shifted);
      hide Covered, Uncovered;
      var first, rest := SkippedLinter(results, linters[0]), SkippedLinters(results, linters[1..]);
      assert SkippedLinters(results, linters) == first + rest && |first| == |at| - |later|;
      forall k | 0 <= k < |at| ensures (first + rest)[k] == GateResult(linters[at[k]], true, true) {
        if k >= |first| {
          assert at[k] == shifted[k - |first|] && linters[1..][later[k - |first|]] == linters[shifted[k - |first|]];
        }
      }
    }
  }

  /** The linters that no gate ran for are listed as skipped, each as often as CI names it and in CI's order; nothing else is. */
  lemma SkippedLintersAre(results: seq<GateResult>, linters: seq<string>) returns (at: seq<nat>)
    ensures |at| == |SkippedLinters(results, linters)| && forall j, k :: 0 <= j < k < |at| ==> at[j] < at[k]
    ensures forall k :: 0 <= k < |at| ==>
      at[k] < |linters| && SkippedLinters(results, linters)[k] == GateResult(linters[at[k]], true, true)
    ensures forall i: nat :: i < |linters| ==>
      (i in at <==> forall r :: r in results ==> r.name != if linters[i] == "eslint" then "lint" else linters[i])
  {
    at := SkippedAt(results, linters);
    hide Covered, SkippedLinters;
    forall i: nat | i < |linters|
      ensures i in at <==> forall r :: r in results ==> r.name != if linters[i] == "eslint" then "lint" else linters[i]
    {
      CoveredIff(results, linters[i]);
    }
  }

  lemma ShiftedIn(at: seq<nat>, shifted: seq<nat>, i: nat)
    requires |shifted| == |at| && i > 0 && forall k :: 0 <= k < |at| ==> shifted[k] == at[k] + 1
    ensures i in shifted <==> i - 1 in at
    ensures 0 !in shifted
  {
    if i - 1 in at {
      var k :| 0 <= k < |at| && at[k] == i - 1;
      assert shifted[k] == i;
    }
  }

  lemma CoveredIff(results: seq<GateResult>, tool: string)
    ensures Covered(results, tool) <==> exists r :: r in results && r.name == if tool == "eslint" then "lint" else tool
  {
    if r :| r in results && r.name == if tool == "eslint" then "lint" else tool {
      var k :| 0 <= k < |results| && results[k] == r;
    }
  }

  lemma SkippedStep(results: seq<GateResult>, linters: seq<string>, i: nat, listed: seq<GateResult>)
    requires i < |linters|
    ensures listed + SkippedLinters(results, linters[i..])
         == (listed + SkippedLinter(results, linters[i])) + SkippedLinters(results, linters[i + 1..])
  {
    hide SkippedLinter;
    assert linters[i..][0] == linters[i] && linters[i..][1..] == linters[i + 1..];
  }

  method ListSkippedLinters(results: seq<GateResult>, linters: seq<string>) returns (skipped: seq<GateResult>)
    ensures skipped == SkippedLinters(results, linters)
  {
    skipped := [];
    assert linters[0..] == linters && SkippedLinters(results, linters[|linters|..]) == [];
    hide SkippedLinters, Covered;
    for i := 0 to |linters|
      invariant skipped + SkippedLinters(results, linters[i..]) == SkippedLinters(results, linters)
    {
      SkippedStep(results, linters, i, skipped);
      if !Covered(results, linters[i]) {
        skipped := skipped + [GateResult(linters[i], true, true)];
      }
    }
  }

  function Status(r: GateResult): (s: string)
    ensures s != "" && Stripped(s) && ':' !in s && ',' !in s
    ensures (s == "failed" <==> !r.passed && !r.skipped) && (s == "skipped" <==> r.skipped)
    ensures s == "passed" <==> r.passed && !r.skipped
  {
    if r.skipped then "skipped" else if r.passed then "passed" else "failed"
  }

  function Statuses(rs: seq<GateResult>): (statuses: seq<string>)
    ensures |statuses| == |rs|
  {
    if rs == [] then [] else [Status(rs[0])] + Statuses(rs[1..])
  }

  function Entry(r: GateResult): string {
    r.name + (": " + Status(r))
  }

  function JoinEntries(rs: seq<GateResult>): string
    requires rs != []
  {
    if |rs| == 1 then Entry(rs[0]) else Entry(rs[0]) + "," + (" " + JoinEntries(rs[1..]))
  }

  const NO_GATES := "no gates detected"

  function SummarizeGates(rs: seq<GateResult>): string {
    if rs == [] then NO_GATES else JoinEntries(rs)
  }

  function FailingGates(rs: seq<GateResult>): seq<GateResult> {
    if rs == [] then []
    else (if !rs[0].passed && !rs[0].skipped then [rs[0]] else []) + FailingGates(rs[1..])
  }

  // ---- Reading a summary -------------------------------------------------------------------------------------------------

  /** `part.split(":", 1)[1]` */
  function AfterColon(part: string): string
    requires ':' in part
  {
    if part[0] == ':' then part[1..] else AfterColon(part[1..])
  }

  function OutcomesOf(parts: seq<string>): seq<string> {
    if parts == [] then []
    else (if ':' in parts[0] then [Strip(AfterColon(parts[0]))] else []) + OutcomesOf(parts[1..])
  }

  function GateOutcomes(evidence: string): seq<string> {
    OutcomesOf(Split(evidence))
  }

  const KNOWN_OUTCOMES: set<string> := {"passed", "failed", "skipped"}

  predicate ShowsAnExecutedGate(evidence: string) {
    && evidence != "" && !(NO_GATES <= evidence)
    && GateOutcomes(evidence) != []
    && (forall o :: o in GateOutcomes(evidence) ==> o in KNOWN_OUTCOMES)
    && (exists o :: o in GateOutcomes(evidence) && o != "skipped")
  }

  predicate IncludesAFailure(evidence: string) {
    evidence != "" && "failed" in GateOutcomes(evidence)
  }

  // ---- Lemmas about splitting ----------------------------------------------------------------------------------------------

  function AppendToLast(parts: seq<string>, t: string): seq<string>
    requires parts != []
  {
    if |parts| == 1 then [parts[0] + t] else [parts[0]] + AppendToLast(parts[1..], t)
  }

  lemma {:induction false} AppendToLastIs(parts: seq<string>, t: string)
    requires parts != []
    ensures AppendToLast(parts, t) == parts[..|parts| - 1] + [parts[|parts| - 1] + t]
  {
    if |parts| > 1 {
      AppendToLastIs(parts[1..], t);
      assert parts[..|parts| - 1] == [parts[0]] + parts[1..][..|parts| - 2];
    }
  }

  /** Text without a comma belongs to the last part. */
  lemma {:induction false} SplitAppend(a: string, t: string)
    requires ',' !in t
    ensures Split(a + t) == AppendToLast(Split(a), t)
  {
    if a == "" {
      assert a + t == t;
      SplitPlain(t);
    } else {
      assert (a + t)[1..] == a[1..] + t && (a + t)[0] == a[0];
      SplitAppend(a[1..], t);
      assert [a[0]] + (Split(a[1..])[0] + t) == ([a[0]] + Split(a[1..])[0]) + t;
    }
  }

  lemma {:induction false} OutcomesConcat(a: seq<string>, b: seq<string>)
    ensures OutcomesOf(a + b) == OutcomesOf(a) + OutcomesOf(b)
  {
    if a == [] {
      assert a + b == b;
    } else {
      assert (a + b)[1..] == a[1..] + b;
      OutcomesConcat(a[1..], b);
    }
  }

  /** A space in front of a summary changes nothing. */
  lemma LeadingSpace(s: string)
    ensures GateOutcomes(" " + s) == GateOutcomes(s)
  {
    assert (" " + s)[1..] == s;
    var parts := Split(s);
    var spaced := Split(" " + s);
    assert spaced == [" " + parts[0]] + parts[1..];
    assert ':' in " " + parts[0] <==> ':' in parts[0];
    assert (" " + parts[0])[1..] == parts[0];
    assert spaced[1..] == parts[1..];
  }

  lemma {:induction false} AfterColonAppend(a: string, t: string)
    ensures ':' in a ==> AfterColon(a + t) == AfterColon(a) + t
    ensures ':' !in a && t != "" && t[0] == ':' ==> AfterColon(a + t) == t[1..]
  {
    if a == "" {
      assert a + t == t;
    } else {
      assert (a + t)[1..] == a[1..] + t && (a + t)[0] == a[0];
      AfterColonAppend(a[1..], t);
    }
  }

  lemma {:induction false} ColonInSomePart(s: string)
    ensures ':' in s <==> exists k :: 0 <= k < |Split(s)| && ':' in Split(s)[k]
  {
    if s != "" {
      ColonInSomePart(s[1..]);
      var rest := Split(s[1..]);
      if s[0] == ',' {
        assert forall k :: 0 <= k < |rest| ==> Split(s)[k + 1] == rest[k];
      } else {
        assert Split(s)[0] == [s[0]] + rest[0];
        assert forall k :: 1 <= k < |rest| ==> Split(s)[k] == rest[k];
      }
    }
  }

  lemma {:induction false} NoColonNoOutcome(parts: seq<string>)
    ensures OutcomesOf(parts) == [] <==> forall k :: 0 <= k < |parts| ==> ':' !in parts[k]
  {
    if parts != [] {
      NoColonNoOutcome(parts[1..]);
      assert forall k :: 1 <= k < |parts| ==> parts[k] == parts[1..][k - 1];
    }
  }

  lemma {:induction false} RStripKeepsColon(s: string)
    ensures ':' in s ==> ':' in RStrip(s)
  {
    if s != "" && IsSpace(s[|s| - 1]) {
      RStripKeepsColon(s[..|s| - 1]);
      assert s == s[..|s| - 1] + [s[|s| - 1]];
    }
  }

  lemma {:induction false} StripKeepsColon(s: string)
    ensures ':' in s ==> ':' in Strip(s)
  {
    LStripKeepsColon(s);
    RStripKeepsColon(LStrip(s));
  }

  lemma {:induction false} LStripKeepsColon(s: string)
    ensures ':' in s ==> ':' in LStrip(s)
  {
    if s != "" && IsSpace(s[0]) {
      LStripKeepsColon(s[1..]);
      assert s == [s[0]] + s[1..];
    }
  }

  // ---- The summary of one gate ------------------------------------------------------------------------------------------------

  lemma SpacedStatus(r: GateResult)
    ensures Strip(" " + Status(r)) == Status(r)
  {
    var s := Status(r);
    assert (" " + s)[1..] == s;
    assert LStrip(" " + s) == LStrip(s) == s;
  }

  /** The outcome read from the last comma-separated part of a printed entry. */
  function LastOutcome(r: GateResult): string {
    var last := Split(r.name)[|Split(r.name)| - 1];
    Strip(AfterColon(last + (": " + Status(r))))
  }

  lemma EntryOutcomes(r: GateResult)
    ensures var parts := Split(r.name);
            GateOutcomes(Entry(r)) == OutcomesOf(parts[..|parts| - 1]) + [LastOutcome(r)]
  {
    var t := ": " + Status(r);
    var parts := Split(r.name);
    var last := parts[|parts| - 1] + t;
    SplitAppend(r.name, t);
    AppendToLastIs(parts, t);
    OutcomesConcat(parts[..|parts| - 1], [last]);
    assert last[|parts[|parts| - 1]|] == ':';
    assert OutcomesOf([last]) == [LastOutcome(r)];
  }

  lemma LastOutcomeIs(r: GateResult)
    ensures var last := Split(r.name)[|Split(r.name)| - 1];
            if ':' in last then ':' in LastOutcome(r) else LastOutcome(r) == Status(r)
  {
    var t := ": " + Status(r);
    var last := Split(r.name)[|Split(r.name)| - 1];
    AfterColonAppend(last, t);
    assert t[1..] == " " + Status(r);
    SpacedStatus(r);
    if ':' in last {
      assert (AfterColon(last) + t)[|AfterColon(last)|] == ':';
      StripKeepsColon(AfterColon(last) + t);
    }
  }

  /** No outcome stands before the last part if and only if no earlier part has a colon. */
  lemma FrontOutcomes(s: string)
    ensures var parts := Split(s);
      && (':' !in s <==> OutcomesOf(parts[..|parts| - 1]) == [] && ':' !in parts[|parts| - 1])
  {
    var parts := Split(s);
    ColonInSomePart(s);
    NoColonNoOutcome(parts[..|parts| - 1]);
    hide Split, OutcomesOf;
  }

  /** One entry reads back as its status if and only if the gate's name has no colon; it always reads as something. */
  lemma EntryReadsBackIff(r: GateResult)
    ensures GateOutcomes(Entry(r)) == [Status(r)] <==> ':' !in r.name
    ensures |GateOutcomes(Entry(r))| >= 1
  {
    var parts := Split(r.name);
    EntryOutcomes(r);
    LastOutcomeIs(r);
    FrontOutcomes(r.name);
    hide GateOutcomes, Entry, LastOutcome, OutcomesOf, Split, Status;
    OneOutcome(OutcomesOf(parts[..|parts| - 1]), LastOutcome(r), Status(r));
  }

  lemma OneOutcome(front: seq<string>, last: string, s: string)
    ensures front + [last] == [s] <==> front == [] && last == s
  {
    if front + [last] == [s] {
      assert |front| == 0;
      assert (front + [last])[0] == last;
    }
  }

  lemma JoinedOutcomes(rs: seq<GateResult>)
    requires |rs| > 1
    ensures GateOutcomes(JoinEntries(rs)) == GateOutcomes(Entry(rs[0])) + GateOutcomes(JoinEntries(rs[1..]))
  {
    var rest := JoinEntries(rs[1..]);
    SplitAtComma(Entry(rs[0]), " " + rest);
    OutcomesConcat(Split(Entry(rs[0])), Split(" " + rest));
    LeadingSpace(rest);
  }

  /** Parsing the printed entries gives back the statuses of the gates, in order, if and only if no gate's name contains
      a colon. Commas in names do no harm. */
  lemma {:induction false} EntriesReadBackIff(rs: seq<GateResult>)
    requires rs != []
    ensures GateOutcomes(JoinEntries(rs)) == Statuses(rs) <==> forall k :: 0 <= k < |rs| ==> ':' !in rs[k].name
    ensures |GateOutcomes(JoinEntries(rs))| >= |rs|
  {
    EntryReadsBackIff(rs[0]);
    var rest := rs[1..];
    assert forall k :: 1 <= k < |rs| ==> rs[k] == rest[k - 1];
    if |rs| == 1 {
      assert Statuses(rest) == [];
    } else {
      EntriesReadBackIff(rest);
      JoinedOutcomes(rs);
      assert Statuses(rs) == [Status(rs[0])] + Statuses(rest);
      hide GateOutcomes, JoinEntries, Entry, Statuses, Status;
      SameParts([Status(rs[0])], Statuses(rest), GateOutcomes(Entry(rs[0])), GateOutcomes(JoinEntries(rest)));
    }
  }

  lemma PlainTextHasNoOutcome(s: string)
    requires ',' !in s && ':' !in s
    ensures GateOutcomes(s) == []
  {
    SplitPlain(s);
    NoColonNoOutcome([s]);
  }

  lemma NoGatesNoOutcome()
    ensures GateOutcomes(NO_GATES) == []
  {
    hide GateOutcomes;
    PlainTextHasNoOutcome(NO_GATES);
  }

  /** Parsing a printed summary, including the "no gates" sentence, gives back the statuses of the gates, in order, if
      and only if no gate's name contains a colon. */
  lemma SummaryReadsBackIff(rs: seq<GateResult>)
    ensures GateOutcomes(SummarizeGates(rs)) == Statuses(rs) <==> forall k :: 0 <= k < |rs| ==> ':' !in rs[k].name
  {
    if rs == [] {
      hide GateOutcomes;
      NoGatesNoOutcome();
    } else {
      EntriesReadBackIff(rs);
      assert SummarizeGates(rs) == JoinEntries(rs);
    }
  }

  // ---- What the evidence predicates mean for a printed summary -------------------------------------------------------------------

  lemma {:induction false} StatusIn(rs: seq<GateResult>, s: string)
    ensures s in Statuses(rs) <==> exists k :: 0 <= k < |rs| && Status(rs[k]) == s
  {
    if rs != [] {
      StatusIn(rs[1..], s);
      assert forall k :: 1 <= k < |rs| ==> rs[k] == rs[1..][k - 1];
    }
  }

  lemma {:induction false} FailingIff(rs: seq<GateResult>)
    ensures FailingGates(rs) != [] <==> "failed" in Statuses(rs)
  {
    if rs != [] {
      FailingIff(rs[1..]);
    }
  }

  lemma PrefixIsShort(a: string, b: string, t: string)
    requires a <= b + t && t != "" && t[0] == ':'
    ensures a <= b || ':' in a
  {
    if |a| > |b| {
      assert a[|b|] == (b + t)[|b|] == t[0];
    } else {
      assert a == (b + t)[..|a|] == b[..|a|];
    }
  }

  lemma SummaryShape(rs: seq<GateResult>) returns (t: string)
    requires rs != []
    ensures SummarizeGates(rs) == rs[0].name + t && t != "" && t[0] == ':'
  {
    t := ": " + Status(rs[0]);
    if |rs| > 1 {
      var tail := "," + (" " + JoinEntries(rs[1..]));
      assert SummarizeGates(rs) == (rs[0].name + t) + tail == rs[0].name + (t + tail);
      t := t + tail;
    }
  }

  /** The summary begins like the "no gates" sentence only if there are none, or the first gate's name does. */
  lemma NoGatesPrefix(rs: seq<GateResult>)
    ensures NO_GATES <= SummarizeGates(rs) <==> rs == [] || NO_GATES <= rs[0].name
  {
    if rs != [] {
      var t := SummaryShape(rs);
      if NO_GATES <= SummarizeGates(rs) {
        PrefixIsShort(NO_GATES, rs[0].name, t);
      }
      if NO_GATES <= rs[0].name {
        assert SummarizeGates(rs)[..|NO_GATES|] == rs[0].name[..|NO_GATES|];
      }
    }
  }

  /** "Failure" holds of a printed summary if and only if some gate failed, for names without a colon. */
  lemma FailureMeansAFailingGate(rs: seq<GateResult>)
    requires forall k :: 0 <= k < |rs| ==> ':' !in rs[k].name
    ensures IncludesAFailure(SummarizeGates(rs)) <==> FailingGates(rs) != []
  {
    SummaryReadsBackIff(rs);
    FailingIff(rs);
    if rs != [] {
      var t := SummaryShape(rs);
    }
  }

  /** "Executed" holds of a printed summary if and only if some gate was not skipped and the first name does not begin
      like the "no gates" sentence, for names without a colon. */
  lemma ExecutedMeansNotAllSkipped(rs: seq<GateResult>)
    requires forall k :: 0 <= k < |rs| ==> ':' !in rs[k].name
    ensures ShowsAnExecutedGate(SummarizeGates(rs))
       <==> (exists k :: 0 <= k < |rs| && !rs[k].skipped) && !(NO_GATES <= rs[0].name)
  {
    var summary := SummarizeGates(rs);
    SummaryReadsBackIff(rs);
    NoGatesPrefix(rs);
    if rs != [] {
      var t := SummaryShape(rs);
      assert summary != "";
      hide GateOutcomes, SummarizeGates, Statuses;
      forall o ensures o in Statuses(rs) <==> exists k :: 0 <= k < |rs| && Status(rs[k]) == o {
        StatusIn(rs, o);
      }
      forall k | 0 <= k < |rs| ensures Status(rs[k]) in Statuses(rs) {
      }
    }
  }
}
