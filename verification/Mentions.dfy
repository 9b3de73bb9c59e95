/** Scanning messages for `#task` and `@agent` references (mentions.py). */
module Mentions {
  import opened Basics
  import opened Text

  predicate IsWord(c: char) {
    IsAlnum(c) || c == '_'
  }

  predicate IsBodyChar(c: char) {
    IsWord(c) || c == '.' || c == '-'
  }

  predicate IsSchemeChar(c: char) {
    IsAlnum(c) || c == '+' || c == '.' || c == '-'
  }

  datatype Kind = Task | Mention {
    function Sigil(): char {
      if Task? then '#' else '@'
    }
  }

  datatype Ref = Ref(kind: Kind, value: string, start: nat, end: nat)

  // ---- What counts as a token -------------------------------------------------------------------------------------------

  predicate LegalBody(s: string) {
    && s != "" && IsAlnum(s[0]) && IsAlnum(s[|s| - 1])
    && forall k :: 0 <= k < |s| ==> IsBodyChar(s[k])
  }

  /** The sigil guards at a position: what stands before it, and that a body can begin after it. */
  predicate Guarded(kind: Kind, text: string, i: int) {
    && 0 <= i < |text| - 1 && text[i] == kind.Sigil() && IsAlnum(text[i + 1])
    && (i == 0 || (!IsWord(text[i - 1]) && (kind.Task? ==> text[i - 1] != '#')))
  }

  /** No legal body that begins at `from` reaches beyond `end`. */
  ghost predicate LongestBody(text: string, from: nat, end: nat) {
    && from < end <= |text| && LegalBody(text[from..end])
    && forall e :: end < e <= |text| ==> !LegalBody(text[from..e])
  }

  /** The greedy body scan: `best` is the end of the longest legal body seen before `j`. */
  function BodyEnd(text: string, from: nat, j: nat, best: nat): (end: nat)
    requires from < best <= j <= |text|
    requires LegalBody(text[from..best])
    requires forall k :: best <= k < j ==> IsBodyChar(text[k]) && !IsAlnum(text[k])
    ensures LongestBody(text, from, end)
    decreases |text| - j
  {
    if j == |text| || !IsBodyChar(text[j]) then
      assert forall e :: best < e <= |text| ==> !LegalBody(text[from..e]) by { NothingLonger(text, from, j, best); }
      best
    else if IsAlnum(text[j]) then
      assert LegalBody(text[from..j + 1]) by { LongerBody(text, from, j, best); }
      BodyEnd(text, from, j + 1, j + 1)
    else BodyEnd(text, from, j + 1, best)
  }

  lemma LongerBody(text: string, from: nat, j: nat, best: nat)
    requires from < best <= j < |text| && LegalBody(text[from..best]) && IsAlnum(text[j])
    requires forall k :: best <= k < j ==> IsBodyChar(text[k])
    ensures LegalBody(text[from..j + 1])
  {
    var body := text[from..j + 1];
    forall k | 0 <= k < |body| ensures IsBodyChar(body[k]) {
      if from + k < best {
        assert body[k] == text[from..best][k];
      }
    }
    assert body[0] == text[from..best][0];
  }

  lemma NothingLonger(text: string, from: nat, j: nat, best: nat)
    requires from < best <= j <= |text|
    requires forall k :: best <= k < j ==> IsBodyChar(text[k]) && !IsAlnum(text[k])
    requires j == |text| || !IsBodyChar(text[j])
    ensures forall e :: best < e <= |text| ==> !LegalBody(text[from..e])
  {
    forall e | best < e <= |text| ensures !LegalBody(text[from..e]) {
      var body := text[from..e];
      if e <= j {
        assert body[|body| - 1] == text[e - 1];
      } else {
        assert body[j - from] == text[j];
      }
    }
  }

  // ---- Patterns, and their matches from left to right ------------------------------------------------------------------------

  datatype Pattern = Fenced | Inline | Url | Token(kind: Kind)

  datatype Span = Span(start: nat, end: nat)

  predicate FenceAt(text: string, i: nat) {
    i + 3 <= |text| && text[i] == '`' && text[i + 1] == '`' && text[i + 2] == '`'
  }

  function NextFence(text: string, i: nat): (r: Option<nat>)
    ensures r.Some? ==> i <= r.value && r.value + 3 <= |text|
    decreases |text| - i
  {
    if i >= |text| then None else if FenceAt(text, i) then Some(i) else NextFence(text, i + 1)
  }

  /** The first back tick or line break at or after `i`. */
  function NextTick(text: string, i: nat): (k: nat)
    requires i <= |text|
    ensures i <= k <= |text| && (k < |text| ==> text[k] == '`' || text[k] == '\n')
    ensures forall j :: i <= j < k ==> text[j] != '`' && text[j] != '\n'
    decreases |text| - i
  {
    if i == |text| || text[i] == '`' || text[i] == '\n' then i else NextTick(text, i + 1)
  }

  function NextNonScheme(text: string, i: nat): (k: nat)
    requires i <= |text|
    ensures i <= k <= |text|
    decreases |text| - i
  {
    if i == |text| || !IsSchemeChar(text[i]) then i else NextNonScheme(text, i + 1)
  }

  function NextSpace(text: string, i: nat): (k: nat)
    requires i <= |text|
    ensures i <= k <= |text| && (k < |text| ==> IsSpace(text[k]))
    ensures forall j :: i <= j < k ==> !IsSpace(text[j])
    decreases |text| - i
  {
    if i == |text| || IsSpace(text[i]) then i else NextSpace(text, i + 1)
  }

  /** A scheme begins at `i`, and "://" and at least one visible character follow it. */
  predicate UrlAt(text: string, i: nat) {
    && i < |text| && IsAlnum(text[i]) && !IsDigit(text[i])
    && (i == 0 || !IsWord(text[i - 1]))
    && var k := NextNonScheme(text, i + 1);
       k + 3 < |text| && text[k] == ':' && text[k + 1] == '/' && text[k + 2] == '/' && !IsSpace(text[k + 3])
  }

  /** The end of the match of a pattern at one position. */
  function MatchAt(p: Pattern, text: string, i: nat): (end: Option<nat>)
    requires i < |text|
    ensures end.Some? ==> i < end.value <= |text|
  {
    match p
    case Fenced =>
      if !FenceAt(text, i) then None
      else
        var k := NextFence(text, i + 3);
        if k.None? then None else Some(k.value + 3)
    case Inline =>
      if text[i] != '`' then None
      else
        var k := NextTick(text, i + 1);
        if k < |text| && text[k] == '`' then Some(k + 1) else None
    case Url =>
      if UrlAt(text, i) then Some(NextSpace(text, NextNonScheme(text, i + 1) + 3)) else None
    case Token(kind) =>
      if Guarded(kind, text, i) then
        assert LegalBody(text[i + 1..i + 2]);
        Some(BodyEnd(text, i + 1, i + 2, i + 2))
      else None
  }

  /** All matches at or after `i`: leftmost first, each search resuming where the last match ended. */
  function Matches(p: Pattern, text: string, i: nat): seq<Span>
    requires i <= |text|
    decreases |text| - i
  {
    if i == |text| then []
    else
      var end := MatchAt(p, text, i);
      if end.Some? then [Span(i, end.value)] + Matches(p, text, end.value) else Matches(p, text, i + 1)
  }

  method FindAll(p: Pattern, text: string) returns (spans: seq<Span>)
    ensures spans == Matches(p, text, 0)
  {
    spans := [];
    var i := 0;
    while i < |text|
      invariant i <= |text|
      invariant spans + Matches(p, text, i) == Matches(p, text, 0)
    {
      var end := MatchAt(p, text, i);
      if end.Some? {
        spans := spans + [Span(i, end.value)];
        i := end.value;
      } else {
        i := i + 1;
      }
    }
  }

  ghost predicate Ordered(spans: seq<Span>) {
    forall j, k :: 0 <= j < k < |spans| ==> spans[j].end <= spans[k].start
  }

  predicate InMasked(pos: nat, spans: seq<Span>) {
    exists m :: m in spans && m.start <= pos < m.end
  }

  /** Matches lie in order without overlap, and each is a match of the pattern. */
  lemma {:induction false} MatchesAre(p: Pattern, text: string, i: nat)
    requires i <= |text|
    ensures Ordered(Matches(p, text, i))
    ensures forall m :: m in Matches(p, text, i) ==> i <= m.start < |text| && MatchAt(p, text, m.start) == Some(m.end)
    decreases |text| - i
  {
    hide MatchAt;
    if i < |text| {
      var end := MatchAt(p, text, i);
      if end.Some? {
        MatchesAre(p, text, end.value);
        var all, rest := Matches(p, text, i), Matches(p, text, end.value);
        assert all[0] == Span(i, end.value);
        assert forall k :: 0 < k < |all| ==> all[k] == rest[k - 1] && all[k] in rest;
      } else {
        MatchesAre(p, text, i + 1);
      }
    }
  }

  /** A position where the pattern matches begins a match or lies inside one. */
  lemma {:induction false} MatchesCover(p: Pattern, text: string, i: nat, k: nat)
    requires i <= k < |text| && MatchAt(p, text, k).Some?
    ensures InMasked(k, Matches(p, text, i))
    decreases |text| - i
  {
    hide MatchAt;
    var end := MatchAt(p, text, i);
    if end.None? {
      MatchesCover(p, text, i + 1, k);
    } else if end.value <= k {
      MatchesCover(p, text, end.value, k);
      var m :| m in Matches(p, text, end.value) && m.start <= k < m.end;
      assert m in Matches(p, text, i);
    } else {
      assert Matches(p, text, i)[0] == Span(i, end.value);
    }
  }

  // ---- Masked positions ---------------------------------------------------------------------------------------------------------

  function MaskedSpans(text: string): seq<Span> {
    Matches(Fenced, text, 0) + Matches(Inline, text, 0) + Matches(Url, text, 0)
  }

  method CollectMaskedSpans(text: string) returns (spans: seq<Span>)
    ensures spans == MaskedSpans(text)
  {
    var fenced := FindAll(Fenced, text);
    var inline := FindAll(Inline, text);
    var urls := FindAll(Url, text);
    spans := fenced + inline + urls;
  }

  lemma MaskedByAny(text: string, pos: nat)
    ensures InMasked(pos, MaskedSpans(text))
       <==> || InMasked(pos, Matches(Fenced, text, 0))
            || InMasked(pos, Matches(Inline, text, 0))
            || InMasked(pos, Matches(Url, text, 0))
  {
  }

  /** A position is inside a URL if and only if a URL begins at or before it with no white space between. */
  lemma UrlMaskedIff(text: string, pos: nat)
    requires pos < |text|
    ensures InMasked(pos, Matches(Url, text, 0))
       <==> exists i :: 0 <= i <= pos && UrlAt(text, i) && forall k :: i <= k <= pos ==> !IsSpace(text[k])
  {
    MatchesAre(Url, text, 0);
    if InMasked(pos, Matches(Url, text, 0)) {
      var m :| m in Matches(Url, text, 0) && m.start <= pos < m.end;
      UrlIsVisible(text, m.start);
    }
    if i :| 0 <= i <= pos && UrlAt(text, i) && forall k :: i <= k <= pos ==> !IsSpace(text[k]) {
      UrlIsVisible(text, i);
      MatchesCover(Url, text, 0, i);
      var m :| m in Matches(Url, text, 0) && m.start <= i < m.end;
      UrlIsVisible(text, m.start);
      assert m.end == |text| || IsSpace(text[m.end]);
      assert pos < m.end;
    }
  }

  lemma {:induction false} SchemeIsVisible(text: string, i: nat)
    requires i <= |text|
    ensures forall j :: i <= j < NextNonScheme(text, i) ==> !IsSpace(text[j])
    decreases |text| - i
  {
    if i < |text| && IsSchemeChar(text[i]) {
      SchemeIsVisible(text, i + 1);
    }
  }

  lemma UrlIsVisible(text: string, i: nat)
    requires i < |text| && UrlAt(text, i)
    ensures var end := MatchAt(Url, text, i).value;
            && (forall k :: i <= k < end ==> !IsSpace(text[k]))
            && (end < |text| ==> IsSpace(text[end]))
  {
    SchemeIsVisible(text, i + 1);
  }

  /** The number of back ticks on the line before `p` is odd. */
  predicate TickOpen(text: string, p: nat)
    requires p <= |text|
  {
    if p == 0 || text[p - 1] == '\n' then false
    else if text[p - 1] == '`' then !TickOpen(text, p - 1)
    else TickOpen(text, p - 1)
  }

  /** Another back tick follows on the line. */
  predicate Closes(text: string, p: nat)
    requires p <= |text|
  {
    var k := NextTick(text, p);
    k < |text| && text[k] == '`'
  }

  lemma {:induction false} OpenUntilTick(text: string, i: nat, p: nat)
    requires i <= |text| && i <= p <= NextTick(text, i)
    ensures TickOpen(text, p) == TickOpen(text, i)
    ensures Closes(text, p) == Closes(text, i)
    decreases |text| - i
  {
    if i < p {
      assert NextTick(text, i) == NextTick(text, i + 1);
      OpenUntilTick(text, i + 1, p);
    }
  }

  /** A position is inside inline code if and only if an odd number of back ticks stands before it on its line and another
      one after it. */
  lemma InlineMaskedIff(text: string, pos: nat)
    requires pos < |text| && text[pos] != '`' && text[pos] != '\n'
    ensures InMasked(pos, Matches(Inline, text, 0)) <==> TickOpen(text, pos) && Closes(text, pos)
  {
    InlineFrom(text, 0, pos);
  }

  lemma {:induction false} InlineFrom(text: string, i: nat, pos: nat)
    requires i <= pos < |text| && text[pos] != '`' && text[pos] != '\n'
    requires TickOpen(text, i) ==> !Closes(text, i)
    ensures InMasked(pos, Matches(Inline, text, i)) <==> TickOpen(text, pos) && Closes(text, pos)
    decreases |text| - i
  {
    var end := MatchAt(Inline, text, i);
    if end.None? {
      if i < pos {
        InlineFrom(text, i + 1, pos);
      } else {
        MatchesAre(Inline, text, i + 1);
      }
    } else {
      MatchSpansTicks(text, i, end.value);
      hide MatchAt, TickOpen, NextTick, Closes;
      AfterFirst(Inline, text, i, pos);
      if pos < end.value {
        InlineInside(text, i, pos);
      } else {
        InlineFrom(text, end.value, pos);
      }
    }
  }

  lemma AfterFirst(p: Pattern, text: string, i: nat, pos: nat)
    requires i <= pos < |text| && MatchAt(p, text, i).Some?
    ensures var end := MatchAt(p, text, i).value;
            InMasked(pos, Matches(p, text, i)) <==> pos < end || InMasked(pos, Matches(p, text, end))
  {
    hide MatchAt;
    var end := MatchAt(p, text, i).value;
    var all, rest := Matches(p, text, i), Matches(p, text, end);
    assert all[0] == Span(i, end);
    assert forall m :: m in all <==> m == Span(i, end) || m in rest;
  }

  lemma MatchSpansTicks(text: string, i: nat, end: nat)
    requires i < |text| && MatchAt(Inline, text, i) == Some(end) && !TickOpen(text, i)
    ensures !TickOpen(text, end)
  {
    OpenUntilTick(text, i + 1, end - 1);
  }

  lemma InlineInside(text: string, i: nat, pos: nat)
    requires i < |text| && MatchAt(Inline, text, i).Some? && i < pos < MatchAt(Inline, text, i).value - 1
    requires !TickOpen(text, i)
    ensures TickOpen(text, pos) && Closes(text, pos)
  {
    OpenUntilTick(text, i + 1, pos);
  }

  // ---- Parsing ----------------------------------------------------------------------------------------------------------------------

  function ShownAt(kind: Kind, text: string, m: Span, masked: seq<Span>): seq<Ref>
    requires m.start < m.end <= |text|
  {
    if InMasked(m.start, masked) then [] else [Ref(kind, text[m.start + 1..m.end], m.start, m.end)]
  }

  function Visible(kind: Kind, text: string, matches: seq<Span>, masked: seq<Span>): seq<Ref>
    requires forall m :: m in matches ==> m.start < m.end <= |text|
  {
    if matches == [] then []
    else
      var m := matches[0];
      ShownAt(kind, text, m, masked) + Visible(kind, text, matches[1..], masked)
  }

  function InsertByStart(r: Ref, refs: seq<Ref>): seq<Ref> {
    if refs == [] || r.start <= refs[0].start then [r] + refs else [refs[0]] + InsertByStart(r, refs[1..])
  }

  function SortByStart(refs: seq<Ref>): seq<Ref> {
    if refs == [] then [] else InsertByStart(refs[0], SortByStart(refs[1..]))
  }

  function TokensOf(kind: Kind, text: string): seq<Ref> {
    assert forall m :: m in Matches(Token(kind), text, 0) ==> m.start < m.end <= |text| by { MatchesAre(Token(kind), text, 0); }
    Visible(kind, text, Matches(Token(kind), text, 0), MaskedSpans(text))
  }

  function Parsed(text: string): seq<Ref> {
    SortByStart(TokensOf(Task, text) + TokensOf(Mention, text))
  }

  method ParseMentions(text: string) returns (refs: seq<Ref>)
    ensures refs == Parsed(text)
  {
    var spans := CollectMaskedSpans(text);
    refs := AppendTokens(Task, text, spans, []);
    assert refs == TokensOf(Task, text);
    refs := AppendTokens(Mention, text, spans, refs);
    refs := SortByStart(refs);
  }

  method AppendTokens(kind: Kind, text: string, masked: seq<Span>, refs: seq<Ref>) returns (all: seq<Ref>)
    requires masked == MaskedSpans(text)
    ensures all == refs + TokensOf(kind, text)
  {
    var matches := FindAll(Token(kind), text);
    MatchesAre(Token(kind), text, 0);
    all := AppendVisible(kind, text, matches, masked, refs);
  }

  method AppendVisible(kind: Kind, text: string, matches: seq<Span>, masked: seq<Span>, refs: seq<Ref>) returns (all: seq<Ref>)
    requires forall m :: m in matches ==> m.start < m.end <= |text|
    ensures all == refs + Visible(kind, text, matches, masked)
  {
    all := refs;
    ghost var found := [];
    assert matches[0..] == matches;
    hide InMasked, Visible;
    for i := 0 to |matches|
      invariant all == refs + found
      invariant found + Visible(kind, text, matches[i..], masked) == Visible(kind, text, matches, masked)
    {
      var m := matches[i];
      VisibleStep(kind, text, matches, masked, i, found);
      if !InMasked(m.start, masked) {
        all := all + [Ref(kind, text[m.start + 1..m.end], m.start, m.end)];
      }
      found := found + ShownAt(kind, text, m, masked);
    }
    assert Visible(kind, text, matches[|matches|..], masked) == [] by { NothingVisible(kind, text, masked); }
  }

  lemma NothingVisible(kind: Kind, text: string, masked: seq<Span>)
    ensures Visible(kind, text, [], masked) == []
  {
  }

  lemma VisibleStep(kind: Kind, text: string, matches: seq<Span>, masked: seq<Span>, i: nat, found: seq<Ref>)
    requires i < |matches| && forall m :: m in matches ==> m.start < m.end <= |text|
    ensures found + Visible(kind, text, matches[i..], masked)
         == (found + ShownAt(kind, text, matches[i], masked)) + Visible(kind, text, matches[i + 1..], masked)
  {
    hide ShownAt;
    assert matches[i..][0] == matches[i] && matches[i..][1..] == matches[i + 1..];
  }

  // ---- What parsing finds -------------------------------------------------------------------------------------------------------------

  /** The reference that stands at a position: visible, guarded, and with the longest legal body. */
  ghost predicate Stands(text: string, r: Ref) {
    && Guarded(r.kind, text, r.start) && !InMasked(r.start, MaskedSpans(text))
    && LongestBody(text, r.start + 1, r.end) && r.value == text[r.start + 1..r.end]
  }

  /** ASCII letters and digits. */
  lemma IsAlnumIff(c: char)
    ensures IsAlnum(c) <==> 48 <= c as int <= 57 || 65 <= c as int <= 90 || 97 <= c as int <= 122
  {
  }

  /** Spelled out: the sigil, with no word character, nor for a task another '#', before it; a body of letters, digits, '.', '_'
      and '-' that begins and ends with a letter or digit; no longer one from there; and nothing masks the sigil. */
  lemma StandsIff(text: string, r: Ref)
    ensures Stands(text, r) <==>
      && r.start + 1 < r.end <= |text| && r.value == text[r.start + 1..r.end]
      && text[r.start] == (if r.kind == Task then '#' else '@')
      && (r.start > 0 ==>
            && !IsAlnum(text[r.start - 1]) && text[r.start - 1] != '_'
            && (r.kind == Task ==> text[r.start - 1] != '#'))
      && IsAlnum(text[r.start + 1]) && IsAlnum(text[r.end - 1])
      && (forall k :: r.start < k < r.end ==> IsAlnum(text[k]) || text[k] == '.' || text[k] == '_' || text[k] == '-')
      && (forall n :: r.end <= n < |text| && IsAlnum(text[n]) ==>
            exists k :: r.end <= k < n && !IsAlnum(text[k]) && text[k] != '.' && text[k] != '_' && text[k] != '-')
      && !InMasked(r.start, MaskedSpans(text))
  {
    hide InMasked, MaskedSpans, IsAlnum;
    if r.start + 1 < r.end <= |text| {
      BodyIff(text, r.start + 1, r.end);
      if LegalBody(text[r.start + 1..r.end]) {
        LongestIff(text, r.start + 1, r.end);
      }
      hide LegalBody;
    }
  }

  /** A legal body is the longest if and only if a character that no body holds comes before the next letter or digit. */
  lemma LongestIff(text: string, from: nat, end: nat)
    requires from < end <= |text| && LegalBody(text[from..end])
    ensures LongestBody(text, from, end) <==> forall n :: end <= n < |text| && IsAlnum(text[n]) ==>
      exists k :: end <= k < n && !IsAlnum(text[k]) && text[k] != '.' && text[k] != '_' && text[k] != '-'
  {
    BodyIff(text, from, end);
    hide IsAlnum;
    if LongestBody(text, from, end) {
      forall n | end <= n < |text| && IsAlnum(text[n])
        ensures exists k :: end <= k < n && !IsAlnum(text[k]) && text[k] != '.' && text[k] != '_' && text[k] != '-'
      {
        BodyIff(text, from, n + 1);
        assert !LegalBody(text[from..n + 1]);
      }
    }
    if forall n :: end <= n < |text| && IsAlnum(text[n]) ==>
         exists k :: end <= k < n && !IsAlnum(text[k]) && text[k] != '.' && text[k] != '_' && text[k] != '-' {
      forall e | end < e <= |text| ensures !LegalBody(text[from..e]) {
        BodyIff(text, from, e);
        hide LegalBody;
        var n := e - 1;
        if IsAlnum(text[n]) {
          var k :| end <= k < n && !IsAlnum(text[k]) && text[k] != '.' && text[k] != '_' && text[k] != '-';
        }
      }
    }
  }

  lemma BodyIff(text: string, from: nat, end: nat)
    requires from < end <= |text|
    ensures LegalBody(text[from..end]) <==>
      && IsAlnum(text[from]) && IsAlnum(text[end - 1])
      && forall k :: from <= k < end ==> IsAlnum(text[k]) || text[k] == '.' || text[k] == '_' || text[k] == '-'
  {
    var s := text[from..end];
    hide IsAlnum;
    assert s[0] == text[from] && s[|s| - 1] == text[end - 1];
    if forall k :: from <= k < end ==> IsAlnum(text[k]) || text[k] == '.' || text[k] == '_' || text[k] == '-' {
      forall k | 0 <= k < |s| ensures IsBodyChar(s[k]) {
        assert s[k] == text[from + k];
      }
    }
    if LegalBody(s) {
      forall k | from <= k < end ensures IsBodyChar(text[k]) {
        assert s[k - from] == text[k];
      }
    }
  }

  // ---- What the three masks match -------------------------------------------------------------------------------------------------------

  lemma {:induction false} NextFenceIs(text: string, i: nat)
    ensures var r := NextFence(text, i);
      && (r.Some? ==> i <= r.value && FenceAt(text, r.value) && forall j :: i <= j < r.value ==> !FenceAt(text, j))
      && (r.None? ==> forall j :: i <= j ==> !FenceAt(text, j))
    decreases |text| - i
  {
    if i < |text| {
      NextFenceIs(text, i + 1);
    }
  }

  /** `s` stands in the text at `i`. */
  predicate StartsAt(text: string, i: nat, s: string) {
    i + |s| <= |text| && text[i..i + |s|] == s
  }

  lemma FenceAtIff(text: string, i: nat)
    ensures FenceAt(text, i) <==> StartsAt(text, i, "```")
  {
    if i + 3 <= |text| {
      assert text[i..i + 3] == [text[i], text[i + 1], text[i + 2]];
    }
  }

  /** A fenced match goes from three back ticks to the next three that do not overlap them. */
  lemma FencedIs(text: string, i: nat, end: nat)
    requires i < |text|
    ensures MatchAt(Fenced, text, i) == Some(end) <==>
      && end >= i + 6 && StartsAt(text, i, "```") && StartsAt(text, end - 3, "```")
      && forall j: nat :: i + 3 <= j < end - 3 ==> !StartsAt(text, j, "```")
  {
    NextFenceIs(text, i + 3);
    forall j: nat ensures FenceAt(text, j) <==> StartsAt(text, j, "```") {
      FenceAtIff(text, j);
    }
    hide NextFence, FenceAt, StartsAt;
  }

  /** An inline match goes from a back tick to the next one, with no line break between. */
  lemma InlineIs(text: string, i: nat, end: nat)
    requires i < |text|
    ensures MatchAt(Inline, text, i) == Some(end) <==>
      && i + 2 <= end <= |text| && text[i] == '`' && text[end - 1] == '`'
      && forall j :: i < j < end - 1 ==> text[j] != '`' && text[j] != '\n'
  {
    if text[i] == '`' {
      var k := NextTick(text, i + 1);
      assert k < |text| ==> text[k] == '`' || text[k] == '\n';
    }
  }

  lemma {:induction false} NextNonSchemeIs(text: string, i: nat)
    requires i <= |text|
    ensures var k := NextNonScheme(text, i);
      (forall j :: i <= j < k ==> IsSchemeChar(text[j])) && (k < |text| ==> !IsSchemeChar(text[k]))
    decreases |text| - i
  {
    if i < |text| && IsSchemeChar(text[i]) {
      NextNonSchemeIs(text, i + 1);
    }
  }

  lemma SlashesIff(text: string, k: nat)
    ensures StartsAt(text, k, "://") <==> k + 3 <= |text| && text[k] == ':' && text[k + 1] == '/' && text[k + 2] == '/'
  {
    if k + 3 <= |text| {
      assert text[k..k + 3] == [text[k], text[k + 1], text[k + 2]];
    }
  }

  /** A URL begins with a letter that no word character precedes, goes on with letters, digits, '+', '.' and '-', and then has
      "://" and a visible character. */
  lemma UrlAtIff(text: string, i: nat)
    requires i < |text|
    ensures UrlAt(text, i) <==>
      && IsAlnum(text[i]) && !IsDigit(text[i]) && (i > 0 ==> !IsAlnum(text[i - 1]) && text[i - 1] != '_')
      && exists k: nat :: i < k < |text| - 3 && StartsAt(text, k, "://") && !IsSpace(text[k + 3])
           && forall j :: i < j < k ==> IsAlnum(text[j]) || text[j] == '+' || text[j] == '.' || text[j] == '-'
  {
    NextNonSchemeIs(text, i + 1);
    var n := NextNonScheme(text, i + 1);
    hide NextNonScheme, IsAlnum, StartsAt, IsSpace;
    SlashesIff(text, n);
    if UrlAt(text, i) {
      assert forall j :: i < j < n ==> IsAlnum(text[j]) || text[j] == '+' || text[j] == '.' || text[j] == '-';
    }
    if k: nat :|
      && i < k < |text| - 3 && StartsAt(text, k, "://") && !IsSpace(text[k + 3])
      && forall j :: i < j < k ==> IsAlnum(text[j]) || text[j] == '+' || text[j] == '.' || text[j] == '-'
    {
      SlashesIff(text, k);
      ColonIsNoScheme(text[k]);
      assert n == k;
    }
  }

  lemma ColonIsNoScheme(c: char)
    requires c == ':'
    ensures !IsSchemeChar(c)
  {
  }

  ghost predicate Ascending(refs: seq<Ref>) {
    forall j, k :: 0 <= j < k < |refs| ==> refs[j].start < refs[k].start
  }

  lemma BodyHasNoSigil(text: string, from: nat, end: nat, k: nat)
    requires LongestBody(text, from, end) && from <= k < end
    ensures text[k] != '#' && text[k] != '@'
  {
    assert text[from..end][k - from] == text[k];
  }

  /** Every guarded position is the start of a match: a body hides no sigil. */
  lemma TokenStarts(kind: Kind, text: string, i: nat)
    requires Guarded(kind, text, i)
    ensures exists m :: m in Matches(Token(kind), text, 0) && m.start == i
  {
    hide Matches, LongestBody, LegalBody;
    MatchesAre(Token(kind), text, 0);
    MatchesCover(Token(kind), text, 0, i);
    var m :| m in Matches(Token(kind), text, 0) && m.start <= i < m.end;
    if m.start < i {
      assert MatchAt(Token(kind), text, m.start) == Some(m.end);
      assert LongestBody(text, m.start + 1, m.end);
      BodyHasNoSigil(text, m.start + 1, m.end, i);
    }
  }

  predicate Shown(r: Ref, kind: Kind, text: string, matches: seq<Span>, masked: seq<Span>) {
    && r.kind == kind && Span(r.start, r.end) in matches && !InMasked(r.start, masked)
    && r.start < r.end <= |text| && r.value == text[r.start + 1..r.end]
  }

  lemma {:induction false} VisibleIff(kind: Kind, text: string, matches: seq<Span>, masked: seq<Span>, r: Ref)
    requires forall m :: m in matches ==> m.start < m.end <= |text|
    ensures r in Visible(kind, text, matches, masked) <==> Shown(r, kind, text, matches, masked)
  {
    hide InMasked;
    if matches != [] {
      VisibleIff(kind, text, matches[1..], masked, r);
      assert Span(r.start, r.end) in matches <==> Span(r.start, r.end) == matches[0] || Span(r.start, r.end) in matches[1..];
    }
  }

  lemma {:induction false} VisibleAscend(kind: Kind, text: string, matches: seq<Span>, masked: seq<Span>)
    requires Ordered(matches) && forall m :: m in matches ==> m.start < m.end <= |text|
    ensures Ascending(Visible(kind, text, matches, masked))
  {
    if matches != [] {
      var rest := Visible(kind, text, matches[1..], masked);
      VisibleAscend(kind, text, matches[1..], masked);
      forall k | 0 <= k < |rest| ensures matches[0].start < rest[k].start {
        VisibleIff(kind, text, matches[1..], masked, rest[k]);
        LaterStart(matches, Span(rest[k].start, rest[k].end));
      }
    }
  }

  lemma LaterStart(matches: seq<Span>, m: Span)
    requires matches != [] && Ordered(matches) && matches[0].start < matches[0].end && m in matches[1..]
    ensures matches[0].start < m.start
  {
    var k :| 0 <= k < |matches[1..]| && matches[1..][k] == m;
    assert matches[0].end <= matches[k + 1].start;
  }

  lemma StandsIffMatch(r: Ref, text: string)
    ensures Stands(text, r) <==> Shown(r, r.kind, text, Matches(Token(r.kind), text, 0), MaskedSpans(text))
  {
    hide MatchAt, Matches, InMasked, MaskedSpans, LongestBody, Guarded;
    if Stands(text, r) {
      MatchEndsAt(r.kind, text, r.start, r.end);
      LongestSpan(text, r);
    }
    if Span(r.start, r.end) in Matches(Token(r.kind), text, 0) {
      MatchesAre(Token(r.kind), text, 0);
      TokenEnd(r.kind, text, r.start);
    }
  }

  lemma LongestSpan(text: string, r: Ref)
    requires LongestBody(text, r.start + 1, r.end)
    ensures r.start < r.end <= |text|
  {
  }

  lemma MatchEndsAt(kind: Kind, text: string, start: nat, end: nat)
    requires Guarded(kind, text, start) && LongestBody(text, start + 1, end)
    ensures Span(start, end) in Matches(Token(kind), text, 0)
  {
    TokenStarts(kind, text, start);
    MatchesAre(Token(kind), text, 0);
    hide MatchAt, Matches;
    var m :| m in Matches(Token(kind), text, 0) && m.start == start;
    TokenEnd(kind, text, start);
    LongestIsUnique(text, start + 1, m.end, end);
    assert m == Span(start, end);
  }

  lemma LongestIsUnique(text: string, from: nat, e: nat, e': nat)
    requires LongestBody(text, from, e) && LongestBody(text, from, e')
    ensures e == e'
  {
  }

  lemma TokenEnd(kind: Kind, text: string, i: nat)
    requires i < |text| && MatchAt(Token(kind), text, i).Some?
    ensures Guarded(kind, text, i) && LongestBody(text, i + 1, MatchAt(Token(kind), text, i).value)
  {
  }

  lemma TokensAre(kind: Kind, text: string)
    ensures Ascending(TokensOf(kind, text))
    ensures forall r :: r in TokensOf(kind, text) <==> r.kind == kind && Stands(text, r)
  {
    var matches := Matches(Token(kind), text, 0);
    MatchesAre(Token(kind), text, 0);
    VisibleAscend(kind, text, matches, MaskedSpans(text));
    assert TokensOf(kind, text) == Visible(kind, text, matches, MaskedSpans(text));
    hide TokensOf, Visible, Stands, MatchAt, Matches, InMasked, MaskedSpans;
    forall r ensures r in TokensOf(kind, text) <==> r.kind == kind && Stands(text, r) {
      StandsIffMatch(r, text);
      VisibleIff(kind, text, matches, MaskedSpans(text), r);
    }
  }

  lemma {:induction false} InsertIs(r: Ref, refs: seq<Ref>)
    requires Ascending(refs) && forall x :: x in refs ==> x.start != r.start
    ensures Ascending(InsertByStart(r, refs))
    ensures forall x :: x in InsertByStart(r, refs) <==> x == r || x in refs
    ensures |InsertByStart(r, refs)| == |refs| + 1
  {
    if refs != [] && r.start > refs[0].start {
      InsertIs(r, refs[1..]);
      var rest := InsertByStart(r, refs[1..]);
      forall k | 0 <= k < |rest| ensures refs[0].start < rest[k].start {
        assert rest[k] in rest;
        assert rest[k] == r || rest[k] in refs[1..];
      }
      assert forall x :: x in refs <==> x == refs[0] || x in refs[1..];
    }
  }

  lemma {:induction false} SortIs(refs: seq<Ref>)
    requires forall j, k :: 0 <= j < k < |refs| ==> refs[j].start != refs[k].start
    ensures Ascending(SortByStart(refs)) && |SortByStart(refs)| == |refs|
    ensures forall x :: x in SortByStart(refs) <==> x in refs
  {
    if refs != [] {
      SortIs(refs[1..]);
      forall x | x in refs[1..] ensures x.start != refs[0].start {
      }
      InsertIs(refs[0], SortByStart(refs[1..]));
      assert forall x :: x in refs <==> x == refs[0] || x in refs[1..];
    }
  }

  /** Parsing returns exactly the references that stand in the text, at strictly increasing offsets. */
  lemma ParsedExactly(text: string)
    ensures forall r :: r in Parsed(text) <==> Stands(text, r)
    ensures Ascending(Parsed(text))
  {
    var tasks, names := TokensOf(Task, text), TokensOf(Mention, text);
    TokensAre(Task, text);
    TokensAre(Mention, text);
    hide TokensOf;
    var refs := tasks + names;
    forall j, k | 0 <= j < k < |refs| ensures refs[j].start != refs[k].start {
      if j < |tasks| <= k {
        assert tasks[j] in tasks && names[k - |tasks|] in names;
      }
    }
    SortIs(refs);
    forall r ensures r in Parsed(text) <==> Stands(text, r) {
      assert r in refs <==> r in tasks || r in names;
    }
  }

  /** Every visible guarded sigil yields exactly one reference, and nothing else does. */
  lemma OneRefPerSigil(text: string, kind: Kind, i: nat)
    ensures (exists r :: r in Parsed(text) && r.kind == kind && r.start == i)
       <==> Guarded(kind, text, i) && !InMasked(i, MaskedSpans(text))
    ensures forall r, s :: r in Parsed(text) && s in Parsed(text) && r.start == s.start ==> r == s
  {
    ParsedExactly(text);
    if Guarded(kind, text, i) && !InMasked(i, MaskedSpans(text)) {
      assert LegalBody(text[i + 1..i + 2]);
      var end := BodyEnd(text, i + 1, i + 2, i + 2);
      assert Stands(text, Ref(kind, text[i + 1..end], i, end));
    }
  }

  /** Spans never overlap, and each is its sigil followed by its value. */
  lemma SpansNeverOverlap(text: string)
    ensures forall r :: r in Parsed(text) ==> r.start < r.end <= |text| && text[r.start..r.end] == [r.kind.Sigil()] + r.value
    ensures forall j, k :: 0 <= j < k < |Parsed(text)| ==> Parsed(text)[j].end <= Parsed(text)[k].start
  {
    ParsedExactly(text);
    var refs := Parsed(text);
    forall j, k | 0 <= j < k < |refs| ensures refs[j].end <= refs[k].start {
      assert refs[j] in refs && refs[k] in refs;
      if refs[k].start < refs[j].end {
        BodyHasNoSigil(text, refs[j].start + 1, refs[j].end, refs[k].start);
      }
    }
  }

  // ---- The recipient ---------------------------------------------------------------------------------------------------------------------

  function LeadingRecipient(text: string): Option<string> {
    var stripped := LStrip(text);
    if stripped == "" then None
    else
      var end := MatchAt(Token(Mention), stripped, 0);
      if end.Some? then Some(stripped[1..end.value]) else None
  }

  /** A sigil at offset 0 is never masked. */
  lemma NothingMasksTheStart(text: string)
    requires text != "" && (text[0] == '@' || text[0] == '#')
    ensures !InMasked(0, MaskedSpans(text))
  {
    MaskedByAny(text, 0);
    MatchesAre(Fenced, text, 0);
    MatchesAre(Inline, text, 0);
    MatchesAre(Url, text, 0);
  }

  /** The message is routed to a recipient if and only if parsing the left-stripped text finds that mention at offset 0. */
  lemma RecipientIffParsedAtStart(text: string, name: string)
    ensures LeadingRecipient(text) == Some(name)
       <==> exists r :: r in Parsed(LStrip(text)) && r.kind == Mention && r.start == 0 && r.value == name
  {
    var stripped := LStrip(text);
    ParsedExactly(stripped);
    if LeadingRecipient(text).Some? {
      TokenEnd(Mention, stripped, 0);
      NothingMasksTheStart(stripped);
    }
    hide Parsed, MaskedSpans, InMasked, LongestBody, LStrip;
    if LeadingRecipient(text) == Some(name) {
      var end := MatchAt(Token(Mention), stripped, 0).value;
      assert Stands(stripped, Ref(Mention, name, 0, end));
    }
    if r :| r in Parsed(stripped) && r.kind == Mention && r.start == 0 && r.value == name {
      assert MatchAt(Token(Mention), stripped, 0).Some?;
      TokenEnd(Mention, stripped, 0);
      LongestIsUnique(stripped, 1, MatchAt(Token(Mention), stripped, 0).value, r.end);
    }
  }
}
