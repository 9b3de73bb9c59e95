/** The anti-loop guardrail of the Act loop (guardrails.py). */
module Guardrails {
  import opened Basics

  type Tool = string

  /** Tool name and args hash. */
  datatype Signature = Signature(tool: Tool, args: string)

  /** A finished call. `result` is the hash of what it returned. */
  datatype Call = Call(sig: Signature, ok: bool, result: string)

  datatype Decision = Allow | Warn | Block | Halt

  datatype Policy = NoPolicy | Halted | SameToolFailure | RepeatedExactFailure | IdempotentNoProgress

  datatype Verdict = Verdict(decision: Decision, policy: Policy)

  /** The thresholds; the environment can only set them to positive numbers. */
  datatype Limits = Limits(repeatedExactFailure: nat, sameToolFailure: nat, idempotentNoProgress: nat)

  ghost predicate Positive(l: Limits) {
    l.repeatedExactFailure > 0 && l.sameToolFailure > 0 && l.idempotentNoProgress > 0
  }

  const IDEMPOTENT_TOOLS: set<Tool> := {"Read", "Grep", "Glob", "LS", "NotebookRead"}

  // ---- The counters, as history defines them -------------------------------------------------------------------

  type History = seq<Call>

  /** How many of the latest calls with this signature failed in a row. */
  ghost function FailStreak(h: History, sig: Signature): nat {
    if h == [] then 0
    else if Last(h).sig != sig then FailStreak(Front(h), sig)
    else if Last(h).ok then 0
    else FailStreak(Front(h), sig) + 1
  }

  /** Failures of the tool since its last success, whatever the arguments. */
  ghost function ToolFailures(h: History, tool: Tool): nat {
    if h == [] then 0
    else if Last(h).sig.tool != tool then ToolFailures(Front(h), tool)
    else if Last(h).ok then 0
    else ToolFailures(Front(h), tool) + 1
  }

  /** The successful results of this signature, oldest first. */
  ghost function Results(h: History, sig: Signature): seq<string> {
    if h == [] then []
    else if Last(h).sig == sig && Last(h).ok then Results(Front(h), sig) + [Last(h).result]
    else Results(Front(h), sig)
  }

  /** The length of the run of equal values at the end of `r`. */
  ghost function TrailingEqual(r: seq<string>): (n: nat)
    ensures n <= |r| && (r != [] ==> n > 0)
  {
    if |r| <= 1 then |r|
    else if r[|r| - 1] == r[|r| - 2] then TrailingEqual(r[..|r| - 1]) + 1
    else 1
  }

  ghost function SameResults(h: History, sig: Signature): nat {
    TrailingEqual(Results(h, sig))
  }

  /** The turn is halted once some tool has failed `sameToolFailure` times without a success in between. */
  ghost predicate IsHalted(h: History, l: Limits) {
    h != [] && (IsHalted(Front(h), l) || (!Last(h).ok && ToolFailures(h, Last(h).sig.tool) >= l.sameToolFailure))
  }

  /** The verdict before a call, as a function of the calls so far. */
  ghost function BeforeVerdict(h: History, l: Limits, sig: Signature): Verdict {
    if IsHalted(h, l) then Verdict(Halt, Halted)
    else if FailStreak(h, sig) >= l.repeatedExactFailure then Verdict(Block, RepeatedExactFailure)
    else if sig.tool in IDEMPOTENT_TOOLS && SameResults(h, sig) >= l.idempotentNoProgress then Verdict(Block, IdempotentNoProgress)
    else Verdict(Allow, NoPolicy)
  }

  /** The verdict after a call; `h` includes it. */
  ghost function AfterVerdict(h: History, l: Limits): Verdict
    requires h != []
  {
    var c := Last(h);
    if c.ok then
      if c.sig.tool in IDEMPOTENT_TOOLS && SameResults(h, c.sig) >= l.idempotentNoProgress
      then Verdict(Warn, IdempotentNoProgress) else Verdict(Allow, NoPolicy)
    else if ToolFailures(h, c.sig.tool) >= l.sameToolFailure then Verdict(Halt, SameToolFailure)
    else if FailStreak(h, c.sig) >= l.repeatedExactFailure then Verdict(Warn, RepeatedExactFailure)
    else Verdict(Allow, NoPolicy)
  }

  // ---- The controller ----------------------------------------------------------------------------------------------

  /** `lastResult` is "" until a result is recorded; `hasResult` tells the two apart. */
  datatype SigState = SigState(failStreak: nat, hasResult: bool, lastResult: string, sameResultStreak: nat)

  const FRESH := SigState(0, false, "", 0)

  /** The stored counters of a signature are the ones its history defines. */
  ghost predicate SigAgrees(h: History, sig: Signature, st: SigState) {
    && st.failStreak == FailStreak(h, sig)
    && (sig.tool in IDEMPOTENT_TOOLS ==>
          var results := Results(h, sig);
          && st.sameResultStreak == TrailingEqual(results)
          && st.hasResult == (results != [])
          && (results != [] ==> st.lastResult == results[|results| - 1]))
  }

  function Lookup(sigs: map<Signature, SigState>, sig: Signature): SigState {
    if sig in sigs then sigs[sig] else FRESH
  }

  function FailuresIn(toolFail: map<Tool, nat>, tool: Tool): nat {
    if tool in toolFail then toolFail[tool] else 0
  }

  /** Every signature's counters, and every tool's, are the ones the history defines. */
  ghost predicate SigsAgree(h: History, sigs: map<Signature, SigState>) {
    forall sig :: SigAgrees(h, sig, Lookup(sigs, sig))
  }

  ghost predicate ToolsAgree(h: History, fails: map<Tool, nat>) {
    forall tool :: FailuresIn(fails, tool) == ToolFailures(h, tool)
  }

  /** What one finished call does to the counters of its signature. */
  function Counted(st: SigState, c: Call): SigState {
    if !c.ok then st.(failStreak := st.failStreak + 1)
    else if c.sig.tool !in IDEMPOTENT_TOOLS then st.(failStreak := 0)
    else SigState(0, true, c.result, if st.hasResult && c.result == st.lastResult then st.sameResultStreak + 1 else 1)
  }

  lemma CountedAgrees(h: History, c: Call, sig: Signature, st: SigState)
    requires SigAgrees(h, sig, st)
    ensures SigAgrees(h + [c], sig, if sig == c.sig then Counted(st, c) else st)
  {
    assert Front(h + [c]) == h;
    if sig == c.sig {
      CallCounted(h, c);
    }
  }

  class ToolCallGuardrailController {
    const limits: Limits
    var sigs: map<Signature, SigState>
    var toolFail: map<Tool, nat>
    var halted: bool
    ghost var history: History

    /** The counters are what the history says they are. */
    ghost predicate Valid()
      reads this
    {
      && Positive(limits)
      && SigsAgree(history, sigs)
      && ToolsAgree(history, toolFail)
      && halted == IsHalted(history, limits)
    }

    constructor (limits: Limits)
      requires Positive(limits)
      ensures Valid() && history == [] && this.limits == limits
    {
      this.limits := limits;
      sigs, toolFail, halted, history := map[], map[], false, [];
    }

    method BeforeCall(sig: Signature) returns (v: Verdict)
      requires Valid()
      ensures v == BeforeVerdict(history, limits, sig)
    {
      if halted {
        return Verdict(Halt, Halted);
      }
      var st := Lookup(sigs, sig);
      assert SigAgrees(history, sig, st);
      if FailuresIn(toolFail, sig.tool) >= limits.sameToolFailure {
        // Never reached: the call that brings a tool to its threshold has already halted the turn.
        NotHaltedMeansBelow(history, limits, sig.tool);
        assert false;
      }
      if st.failStreak >= limits.repeatedExactFailure {
        return Verdict(Block, RepeatedExactFailure);
      }
      if sig.tool in IDEMPOTENT_TOOLS && st.sameResultStreak >= limits.idempotentNoProgress {
        return Verdict(Block, IdempotentNoProgress);
      }
      return Verdict(Allow, NoPolicy);
    }

    method AfterCall(c: Call) returns (v: Verdict)
      requires Valid()
      modifies this
      ensures Valid() && history == old(history) + [c]
      ensures v == AfterVerdict(history, limits)
    {
      ghost var before, states, fails := history, sigs, toolFail;
      hide FailStreak, ToolFailures, Results, TrailingEqual, SigAgrees, SigsAgree, ToolsAgree, AfterVerdict, IsHalted;
      var st := Counted(Lookup(sigs, c.sig), c);
      sigs := sigs[c.sig := st];
      history := history + [c];
      OneMoreSig(before, c, states, sigs);
      toolFail := toolFail[c.sig.tool := if c.ok then 0 else FailuresIn(toolFail, c.sig.tool) + 1];
      OneMoreTool(before, c, fails, toolFail);
      VerdictFrom(before, c, limits, st, toolFail[c.sig.tool]);
      hide Counted, Lookup, FailuresIn;
      if !c.ok && toolFail[c.sig.tool] >= limits.sameToolFailure {
        halted := true;
      }
      if c.ok {
        return if c.sig.tool in IDEMPOTENT_TOOLS && st.sameResultStreak >= limits.idempotentNoProgress
               then Verdict(Warn, IdempotentNoProgress) else Verdict(Allow, NoPolicy);
      }
      if toolFail[c.sig.tool] >= limits.sameToolFailure {
        return Verdict(Halt, SameToolFailure);
      }
      return if st.failStreak >= limits.repeatedExactFailure then Verdict(Warn, RepeatedExactFailure) else Verdict(Allow, NoPolicy);
    }
  }

  /** The verdict and the halt, read off the counters. */
  lemma VerdictFrom(h: History, c: Call, l: Limits, st: SigState, fails: nat)
    requires SigAgrees(h + [c], c.sig, st) && fails == ToolFailures(h + [c], c.sig.tool)
    ensures IsHalted(h + [c], l) <==> IsHalted(h, l) || (!c.ok && fails >= l.sameToolFailure)
    ensures AfterVerdict(h + [c], l) ==
      if c.ok then
        if c.sig.tool in IDEMPOTENT_TOOLS && st.sameResultStreak >= l.idempotentNoProgress
        then Verdict(Warn, IdempotentNoProgress) else Verdict(Allow, NoPolicy)
      else if fails >= l.sameToolFailure then Verdict(Halt, SameToolFailure)
      else if st.failStreak >= l.repeatedExactFailure then Verdict(Warn, RepeatedExactFailure)
      else Verdict(Allow, NoPolicy)
  {
    assert Front(h + [c]) == h && Last(h + [c]) == c;
    hide FailStreak, ToolFailures, Results, TrailingEqual;
  }

  lemma OneMoreSig(h: History, c: Call, sigs: map<Signature, SigState>, sigs': map<Signature, SigState>)
    requires SigsAgree(h, sigs) && sigs' == sigs[c.sig := Counted(Lookup(sigs, c.sig), c)]
    ensures SigsAgree(h + [c], sigs') && SigAgrees(h + [c], c.sig, sigs'[c.sig])
  {
    hide SigAgrees, Counted;
    forall sig ensures SigAgrees(h + [c], sig, Lookup(sigs', sig)) {
      CountedAgrees(h, c, sig, Lookup(sigs, sig));
    }
    assert Lookup(sigs', c.sig) == sigs'[c.sig];
  }

  lemma OneMoreTool(h: History, c: Call, fails: map<Tool, nat>, fails': map<Tool, nat>)
    requires ToolsAgree(h, fails) && fails' == fails[c.sig.tool := if c.ok then 0 else FailuresIn(fails, c.sig.tool) + 1]
    ensures ToolsAgree(h + [c], fails') && fails'[c.sig.tool] == ToolFailures(h + [c], c.sig.tool)
  {
    assert Front(h + [c]) == h;
    assert FailuresIn(fails', c.sig.tool) == fails'[c.sig.tool];
  }

  lemma TrailingGrows(r: seq<string>, x: string)
    ensures TrailingEqual(r + [x]) == if r != [] && r[|r| - 1] == x then TrailingEqual(r) + 1 else 1
  {
    assert (r + [x])[..|r|] == r;
    if |r| == 1 {
      assert TrailingEqual(r) == 1;
    }
  }

  lemma CallCounted(h: History, c: Call)
    ensures Results(h + [c], c.sig) == if c.ok then Results(h, c.sig) + [c.result] else Results(h, c.sig)
    ensures var r := Results(h, c.sig);
      c.ok ==> SameResults(h + [c], c.sig) == if r != [] && r[|r| - 1] == c.result then SameResults(h, c.sig) + 1 else 1
  {
    ResultsGrow(h, c);
    hide TrailingEqual, Results;
    TrailingGrows(Results(h, c.sig), c.result);
  }

  lemma ResultsGrow(h: History, c: Call)
    ensures Results(h + [c], c.sig) == if c.ok then Results(h, c.sig) + [c.result] else Results(h, c.sig)
  {
    var longer := h + [c];
    assert Front(longer) == h && Last(longer) == c;
    assert Results(longer, c.sig) == if c.ok then Results(Front(longer), c.sig) + [c.result] else Results(Front(longer), c.sig);
    hide Results;
  }

  // ---- What the counters and verdicts mean ------------------------------------------------------------------------------

  /** The calls with this signature, oldest first. */
  ghost function Repeats(h: History, sig: Signature): History {
    if h == [] then [] else Repeats(Front(h), sig) + if Last(h).sig == sig then [Last(h)] else []
  }

  /** The calls of this tool. */
  ghost function CallsOf(h: History, tool: Tool): History {
    if h == [] then [] else CallsOf(Front(h), tool) + if Last(h).sig.tool == tool then [Last(h)] else []
  }

  /** The successful ones. */
  ghost function Successes(h: History): History {
    if h == [] then [] else Successes(Front(h)) + if Last(h).ok then [Last(h)] else []
  }

  /** The last `n` of the calls there are, if there are so many. */
  ghost predicate LastFailed(h: History, n: nat) {
    n <= |h| && forall k :: |h| - n <= k < |h| ==> !h[k].ok
  }

  ghost predicate LastAgree(h: History, n: nat) {
    n <= |h| && forall k :: |h| - n <= k < |h| ==> h[k].result == h[|h| - 1].result
  }

  lemma LastFailedStep(h: History, c: Call, n: nat)
    requires n > 0
    ensures LastFailed(h + [c], n) <==> !c.ok && LastFailed(h, n - 1)
  {
    var longer := h + [c];
    assert longer[|h|] == c && forall k :: 0 <= k < |h| ==> longer[k] == h[k];
    if !c.ok && LastFailed(h, n - 1) {
      assert forall k :: |longer| - n <= k < |longer| ==> !longer[k].ok;
    }
  }

  /** A signature's streak reaches `n` if and only if its last `n` calls all failed. */
  lemma {:induction false} FailStreakIff(h: History, sig: Signature, n: nat)
    ensures FailStreak(h, sig) >= n <==> LastFailed(Repeats(h, sig), n)
  {
    if h != [] && n > 0 {
      FailStreakIff(Front(h), sig, n);
      FailStreakIff(Front(h), sig, n - 1);
      LastFailedStep(Repeats(Front(h), sig), Last(h), n);
      assert Repeats(Front(h), sig) + [] == Repeats(Front(h), sig);
    }
  }

  /** A tool's count reaches `n` if and only if its last `n` calls, whatever their arguments, all failed. */
  lemma {:induction false} ToolFailuresIff(h: History, tool: Tool, n: nat)
    ensures ToolFailures(h, tool) >= n <==> LastFailed(CallsOf(h, tool), n)
  {
    if h != [] && n > 0 {
      ToolFailuresIff(Front(h), tool, n);
      ToolFailuresIff(Front(h), tool, n - 1);
      LastFailedStep(CallsOf(Front(h), tool), Last(h), n);
      assert CallsOf(Front(h), tool) + [] == CallsOf(Front(h), tool);
    }
  }

  /** A signature's count of same results reaches `n` if and only if its last `n` successes all returned the same. */
  lemma SameResultsIff(h: History, sig: Signature, n: nat)
    ensures SameResults(h, sig) >= n <==> LastAgree(Successes(Repeats(h, sig)), n)
  {
    ResultsOfSuccesses(h, sig);
    TrailingEqualIff(Results(h, sig), n);
  }

  lemma SuccessesGrow(h: History, c: Call)
    ensures Successes(h + [c]) == if c.ok then Successes(h) + [c] else Successes(h)
  {
    assert Front(h + [c]) == h && Last(h + [c]) == c;
  }

  lemma {:induction false} ResultsOfSuccesses(h: History, sig: Signature)
    ensures var f := Successes(Repeats(h, sig));
      |f| == |Results(h, sig)| && forall k :: 0 <= k < |f| ==> f[k].result == Results(h, sig)[k]
  {
    if h != [] {
      ResultsOfSuccesses(Front(h), sig);
      SuccessesGrow(Repeats(Front(h), sig), Last(h));
      assert Repeats(Front(h), sig) + [] == Repeats(Front(h), sig);
    }
  }

  lemma {:induction false} TrailingEqualIff(r: seq<string>, n: nat)
    ensures TrailingEqual(r) >= n <==> n <= |r| && forall k :: |r| - n <= k < |r| ==> r[k] == r[|r| - 1]
  {
    if |r| > 1 && n > 1 {
      TrailingEqualIff(r[..|r| - 1], n - 1);
      if r[|r| - 1] == r[|r| - 2] {
        assert forall k :: 0 <= k < |r| - 1 ==> r[..|r| - 1][k] == r[k];
      }
    }
  }

  /** Before a call: HALT if the turn is halted; BLOCK if the last N calls with this signature failed, or if the tool is a pure
      read whose last N successes with these arguments returned the same; otherwise ALLOW. */
  lemma BeforeVerdictIs(h: History, l: Limits, sig: Signature)
    ensures var v := BeforeVerdict(h, l, sig);
            var stuck := LastFailed(Repeats(h, sig), l.repeatedExactFailure);
            var idle := sig.tool in {"Read", "Grep", "Glob", "LS", "NotebookRead"}
                        && LastAgree(Successes(Repeats(h, sig)), l.idempotentNoProgress);
      && (v == Verdict(Halt, Halted) <==> IsHalted(h, l))
      && (v == Verdict(Block, RepeatedExactFailure) <==> !IsHalted(h, l) && stuck)
      && (v == Verdict(Block, IdempotentNoProgress) <==> !IsHalted(h, l) && !stuck && idle)
      && (v == Verdict(Allow, NoPolicy) <==> !IsHalted(h, l) && !stuck && !idle)
  {
    FailStreakIff(h, sig, l.repeatedExactFailure);
    SameResultsIff(h, sig, l.idempotentNoProgress);
    hide FailStreak, SameResults, IsHalted, LastFailed, LastAgree, Repeats, CallsOf, Successes;
  }

  /** After a call, by the same tests over the calls with it: a failure halts when the tool's last M calls failed, else warns
      when its signature is stuck; a success warns when it made no progress. */
  lemma AfterVerdictIs(h: History, l: Limits)
    requires h != []
    ensures var v, c := AfterVerdict(h, l), Last(h);
            var stuck := LastFailed(Repeats(h, c.sig), l.repeatedExactFailure);
            var spent := LastFailed(CallsOf(h, c.sig.tool), l.sameToolFailure);
            var idle := c.sig.tool in {"Read", "Grep", "Glob", "LS", "NotebookRead"}
                        && LastAgree(Successes(Repeats(h, c.sig)), l.idempotentNoProgress);
      && (v == Verdict(Halt, SameToolFailure) <==> !c.ok && spent)
      && (v == Verdict(Warn, RepeatedExactFailure) <==> !c.ok && !spent && stuck)
      && (v == Verdict(Warn, IdempotentNoProgress) <==> c.ok && idle)
      && (v == Verdict(Allow, NoPolicy) <==> if c.ok then !idle else !spent && !stuck)
  {
    FailStreakIff(h, Last(h).sig, l.repeatedExactFailure);
    ToolFailuresIff(h, Last(h).sig.tool, l.sameToolFailure);
    SameResultsIff(h, Last(h).sig, l.idempotentNoProgress);
    hide FailStreak, SameResults, ToolFailures, LastFailed, LastAgree, Repeats, CallsOf, Successes;
  }

  /** The turn is halted if and only if at some point a call failed that left its tool's last M calls all failed. */
  lemma {:induction false} HaltedIff(h: History, l: Limits)
    ensures IsHalted(h, l) <==>
      exists k :: 0 <= k < |h| && !h[k].ok && LastFailed(CallsOf(h[..k + 1], h[k].sig.tool), l.sameToolFailure)
  {
    if h != [] {
      HaltedIff(Front(h), l);
      ToolFailuresIff(h, Last(h).sig.tool, l.sameToolFailure);
      assert h[..|h|] == h;
      forall k | 0 <= k < |h| - 1 ensures Front(h)[..k + 1] == h[..k + 1] && Front(h)[k] == h[k] {
      }
      hide LastFailed, CallsOf, ToolFailures;
    }
  }

  // ---- Laws of every history ------------------------------------------------------------------------------------------

  /** While the turn is not halted every tool is below its threshold: the tool test in `before_call` can never fire. */
  lemma {:induction false} NotHaltedMeansBelow(h: History, l: Limits, tool: Tool)
    requires Positive(l) && !IsHalted(h, l)
    ensures ToolFailures(h, tool) < l.sameToolFailure
  {
    if h != [] {
      NotHaltedMeansBelow(Front(h), l, tool);
    }
  }

  /** A halt is never undone, not even by later successes. */
  lemma {:induction false} HaltIsFinal(h: History, more: History, l: Limits)
    requires IsHalted(h, l)
    ensures IsHalted(h + more, l)
  {
    if more == [] {
      assert h + more == h;
    } else {
      HaltIsFinal(h, Front(more), l);
      assert Front(h + more) == h + Front(more);
    }
  }

  /** A sequential run: every executed call had been allowed, given the calls finished before it. */
  ghost predicate Sequential(h: History, l: Limits) {
    h != [] ==> Sequential(Front(h), l) && BeforeVerdict(Front(h), l, Last(h).sig).decision.Allow?
  }

  /** In a sequential run no counter ever exceeds its threshold. */
  lemma {:induction false} CountersStayWithinLimits(h: History, l: Limits, sig: Signature)
    requires Positive(l) && Sequential(h, l)
    ensures FailStreak(h, sig) <= l.repeatedExactFailure
    ensures ToolFailures(h, sig.tool) <= l.sameToolFailure
    ensures sig.tool in IDEMPOTENT_TOOLS ==> SameResults(h, sig) <= l.idempotentNoProgress
  {
    if h != [] {
      var before, c := Front(h), Last(h);
      CountersStayWithinLimits(before, l, sig);
      NotHaltedMeansBelow(before, l, sig.tool);
      if c.sig == sig {
        assert h == before + [c];
        CallCounted(before, c);
      }
    }
  }

  /** In a sequential run the turn is halted exactly when the last call brought its tool to the threshold; nothing
      runs after that. */
  lemma {:induction false} HaltEndsTheRun(h: History, l: Limits)
    requires Positive(l) && Sequential(h, l)
    ensures IsHalted(h, l) <==> exists tool :: ToolFailures(h, tool) >= l.sameToolFailure
    ensures forall k :: 0 <= k < |h| ==> !IsHalted(h[..k], l)
  {
    if h != [] {
      var before, c := Front(h), Last(h);
      HaltEndsTheRun(before, l);
      assert !IsHalted(before, l);
      forall k | 0 <= k < |h| ensures !IsHalted(h[..k], l) {
        assert k < |before| ==> h[..k] == before[..k];
        assert k == |before| ==> h[..k] == before;
      }
      forall tool ensures ToolFailures(before, tool) < l.sameToolFailure {
        NotHaltedMeansBelow(before, l, tool);
      }
      assert IsHalted(h, l) ==> ToolFailures(h, c.sig.tool) >= l.sameToolFailure;
      if t :| ToolFailures(h, t) >= l.sameToolFailure {
        assert ToolFailures(before, t) < l.sameToolFailure;
        assert t == c.sig.tool;
      }
    }
  }

  /** A call that is refused once is never executed again in the run, whatever else runs in between. */
  lemma {:induction false} RefusedNeverRuns(h: History, more: History, l: Limits, sig: Signature)
    requires Sequential(h + more, l) && !BeforeVerdict(h, l, sig).decision.Allow?
    ensures forall c :: c in more ==> c.sig != sig
    ensures FailStreak(h + more, sig) == FailStreak(h, sig) && Results(h + more, sig) == Results(h, sig)
  {
    if more == [] {
      assert h + more == h;
    } else {
      assert Front(h + more) == h + Front(more) && Last(h + more) == Last(more);
      RefusedNeverRuns(h, Front(more), l, sig);
      if IsHalted(h, l) {
        HaltIsFinal(h, Front(more), l);
      }
    }
  }

  // ---- How long a failing run can go on ---------------------------------------------------------------------------------

  ghost function Sum(tools: set<Tool>, h: History): nat {
    if tools == {} then 0 else var t :| t in tools; ToolFailures(h, t) + Sum(tools - {t}, h)
  }

  lemma {:induction false} SumTakes(tools: set<Tool>, h: History, t: Tool)
    requires t in tools
    ensures Sum(tools, h) == ToolFailures(h, t) + Sum(tools - {t}, h)
  {
    var first :| first in tools && Sum(tools, h) == ToolFailures(h, first) + Sum(tools - {first}, h);
    if first != t {
      SumTakes(tools - {first}, h, t);
      SumTakes(tools - {t}, h, first);
      assert tools - {first} - {t} == tools - {t} - {first};
    }
  }

  lemma {:induction false} SumUnchanged(tools: set<Tool>, h: History, g: History)
    requires forall t :: t in tools ==> ToolFailures(h, t) == ToolFailures(g, t)
    ensures Sum(tools, h) == Sum(tools, g)
  {
    if tools != {} {
      var t :| t in tools && Sum(tools, h) == ToolFailures(h, t) + Sum(tools - {t}, h);
      SumUnchanged(tools - {t}, h, g);
      SumTakes(tools, g, t);
    }
  }

  lemma OneMoreFactor(n: nat, m: nat, bound: nat)
    requires m == n + 1
    ensures m * bound == n * bound + bound
  {
  }

  lemma {:induction false} SumIsBounded(tools: set<Tool>, h: History, bound: nat)
    requires forall t :: t in tools ==> ToolFailures(h, t) <= bound
    ensures Sum(tools, h) <= |tools| * bound
  {
    if tools != {} {
      var t :| t in tools && Sum(tools, h) == ToolFailures(h, t) + Sum(tools - {t}, h);
      SumIsBounded(tools - {t}, h, bound);
      OneMoreFactor(|tools - {t}|, |tools|, bound);
    }
  }

  /** When nothing succeeds, the failures of the tools add up to the calls. */
  lemma {:induction false} FailuresAddUp(tools: set<Tool>, h: History)
    requires forall c :: c in h ==> !c.ok && c.sig.tool in tools
    ensures Sum(tools, h) == |h|
  {
    if h == [] {
      SumIsBounded(tools, h, 0);
    } else {
      var before, t := Front(h), Last(h).sig.tool;
      FailuresAddUp(tools, before);
      SumTakes(tools, h, t);
      SumTakes(tools, before, t);
      SumUnchanged(tools - {t}, h, before);
    }
  }

  lemma FailuresBeforeHalt(tools: set<Tool>, h: History, l: Limits)
    requires Positive(l) && !IsHalted(h, l)
    requires forall c :: c in h ==> !c.ok && c.sig.tool in tools
    ensures |h| <= |tools| * (l.sameToolFailure - 1)
  {
    forall t | t in tools ensures ToolFailures(h, t) <= l.sameToolFailure - 1 {
      NotHaltedMeansBelow(h, l, t);
    }
    hide ToolFailures, IsHalted;
    FailuresAddUp(tools, h);
    SumIsBounded(tools, h, l.sameToolFailure - 1);
  }

  /** A sequential run over T tools in which no call succeeds executes at most T*(M-1)+1 calls before it is halted. */
  lemma FailingRunIsShort(tools: set<Tool>, h: History, l: Limits)
    requires Positive(l) && Sequential(h, l)
    requires forall c :: c in h ==> !c.ok && c.sig.tool in tools
    ensures |h| <= |tools| * (l.sameToolFailure - 1) + 1
  {
    if h != [] {
      FailuresBeforeHalt(tools, Front(h), l);
    } else {
      FailuresBeforeHalt(tools, h, l);
    }
  }
}
