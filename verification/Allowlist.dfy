/** Grandfathered findings and their reconciliation (security_lint.py). */
module Allowlist {
  import opened Basics
  import opened Text

  // ---- Loading ----------------------------------------------------------------------------------------------------------

  /** A value of the allowlist file. */
  datatype Value = Absent | Words(s: string) | Whole(n: int) | Other

  datatype Row = NotATable | Table(path: Value, rule: Value, reason: Value, issue: Value, count: Value, expires: Value)

  datatype Problem =
    | NoTable(index: nat)
    | FieldRequired(index: nat, field: string)
    | IssueRequired(index: nat)
    | CountNotPositive(index: nat)
    | ExpiresNotADate(index: nat)
    | Duplicate(index: nat)

  datatype Key = Key(path: string, rule: string)

  datatype Entry = Entry(key: Key, count: nat)

  predicate Filled(v: Value) {
    v.Words? && Strip(v.s) != ""
  }

  /** A row nothing is wrong with; `isIssue` is the issue-reference pattern. */
  predicate Sound(row: Row, isIssue: string -> bool) {
    && row.Table?
    && row.path.Words? && Strip(row.path.s) != "" && row.rule.Words? && Strip(row.rule.s) != ""
    && row.reason.Words? && Strip(row.reason.s) != ""
    && row.issue.Words? && isIssue(row.issue.s)
    && (row.count.Absent? || (row.count.Whole? && row.count.n >= 1))
    && (row.expires.Absent? || row.expires.Words?)
  }

  function KeyOf(row: Row): Key
    requires row.Table? && row.path.Words? && row.rule.Words?
  {
    Key(row.path.s, row.rule.s)
  }

  function EntryFor(row: Row): Entry
    requires row.Table? && row.path.Words? && row.rule.Words?
  {
    Entry(KeyOf(row), if row.count.Whole? && row.count.n >= 1 then row.count.n else 1)
  }

  predicate Makes(row: Row) {
    row.Table? && row.path.Words? && row.rule.Words?
  }

  function EntriesOf(rows: seq<Row>): seq<Entry> {
    if rows == [] then []
    else
      var row := rows[|rows| - 1];
      EntriesOf(rows[..|rows| - 1]) + if Makes(row) then [EntryFor(row)] else []
  }

  predicate Distinct(entries: seq<Entry>) {
    forall j, k :: 0 <= j < k < |entries| ==> entries[j].key != entries[k].key
  }

  predicate Covered(entries: seq<Entry>, key: Key) {
    exists k :: 0 <= k < |entries| && entries[k].key == key
  }

  lemma CoveredAppend(entries: seq<Entry>, e: Entry, key: Key)
    ensures Covered(entries + [e], key) <==> Covered(entries, key) || e.key == key
  {
    var all := entries + [e];
    if Covered(entries, key) {
      var k :| 0 <= k < |entries| && entries[k].key == key;
      assert all[k].key == key;
    }
    assert all[|entries|] == e;
  }

  lemma DistinctAppend(entries: seq<Entry>, e: Entry)
    ensures Distinct(entries + [e]) <==> Distinct(entries) && !Covered(entries, e.key)
  {
    var all := entries + [e];
    assert forall k :: 0 <= k < |entries| ==> all[k] == entries[k];
    assert all[|entries|] == e;
    if Covered(entries, e.key) {
      var k :| 0 <= k < |entries| && entries[k].key == e.key;
      assert all[k].key == all[|entries|].key;
    }
    if Distinct(all) {
      forall j, k | 0 <= j < k < |entries| ensures entries[j].key != entries[k].key {
        assert all[j].key != all[k].key;
      }
    }
  }

  predicate AllSound(rows: seq<Row>, isIssue: string -> bool) {
    forall k :: 0 <= k < |rows| ==> Sound(rows[k], isIssue)
  }

  /** Reads the rows, and reports no problem if and only if every row is sound and no key comes twice. */
  method LoadAllowlist(rows: seq<Row>, isIssue: string -> bool) returns (entries: seq<Entry>, problems: seq<Problem>)
    ensures entries == EntriesOf(rows)
    ensures problems == [] <==> AllSound(rows, isIssue) && Distinct(entries)
    ensures forall e :: e in entries ==> e.count >= 1
  {
    entries, problems := [], [];
    var seen: set<Key> := {};
    for i := 0 to |rows|
      invariant entries == EntriesOf(rows[..i])
      invariant forall key :: key in seen <==> Covered(entries, key)
      invariant problems == [] <==> AllSound(rows[..i], isIssue) && Distinct(entries)
      invariant forall e :: e in entries ==> e.count >= 1
    {
      assert rows[..i + 1][..i] == rows[..i];
      var found, entry := ReadRow(rows[i], i, isIssue);
      assert AllSound(rows[..i + 1], isIssue) <==> AllSound(rows[..i], isIssue) && Sound(rows[i], isIssue) by {
        assert rows[..i + 1] == rows[..i] + [rows[i]];
      }
      hide AllSound, Sound, Distinct, Covered;
      problems := problems + found;
      if entry.Some? {
        DistinctAppend(entries, entry.value);
        forall key ensures Covered(entries + [entry.value], key) <==> Covered(entries, key) || entry.value.key == key {
          CoveredAppend(entries, entry.value, key);
        }
        if entry.value.key in seen {
          problems := problems + [Duplicate(i)];
        }
        seen := seen + {entry.value.key};
        entries := entries + [entry.value];
      }
    }
    assert rows[..|rows|] == rows;
  }

  /** The checks of one row, in their order. */
  method ReadRow(row: Row, index: nat, isIssue: string -> bool) returns (problems: seq<Problem>, entry: Option<Entry>)
    ensures problems == [] <==> Sound(row, isIssue)
    ensures entry == if Makes(row) then Some(EntryFor(row)) else None
  {
    if row.NotATable? {
      return [NoTable(index)], None;
    }
    problems := [];
    if !Filled(row.path) {
      problems := problems + [FieldRequired(index, "path")];
    }
    if !Filled(row.rule) {
      problems := problems + [FieldRequired(index, "rule")];
    }
    if !Filled(row.reason) {
      problems := problems + [FieldRequired(index, "reason")];
    }
    if !row.issue.Words? || !isIssue(row.issue.s) {
      problems := problems + [IssueRequired(index)];
    }
    var count := 1;
    if row.count.Whole? && row.count.n >= 1 {
      count := row.count.n;
    } else if !row.count.Absent? {
      problems := problems + [CountNotPositive(index)];
    }
    if !row.expires.Absent? && !row.expires.Words? {
      problems := problems + [ExpiresNotADate(index)];
    }
    if !row.path.Words? || !row.rule.Words? {
      return problems, None;
    }
    entry := Some(Entry(Key(row.path.s, row.rule.s), count));
  }

  // ---- Reconciling ----------------------------------------------------------------------------------------------------------

  datatype Finding = Finding(key: Key, line: int)

  function Occurrences(findings: seq<Finding>, key: Key): nat {
    if findings == [] then 0
    else Occurrences(findings[..|findings| - 1], key) + if findings[|findings| - 1].key == key then 1 else 0
  }

  /** The `allowed` dictionary in insertion order: a later entry of the same key replaces the earlier one. */
  function Put(allowed: seq<Entry>, e: Entry): seq<Entry> {
    if allowed == [] then [e]
    else if allowed[0].key == e.key then [e] + allowed[1..]
    else [allowed[0]] + Put(allowed[1..], e)
  }

  function Allowed(entries: seq<Entry>): seq<Entry> {
    if entries == [] then [] else Put(Allowed(entries[..|entries| - 1]), entries[|entries| - 1])
  }

  lemma {:induction false} PutNew(allowed: seq<Entry>, e: Entry)
    requires !Covered(allowed, e.key)
    ensures Put(allowed, e) == allowed + [e]
  {
    if allowed != [] {
      assert allowed[0].key != e.key;
      assert !Covered(allowed[1..], e.key) by {
        assert forall k :: 0 <= k < |allowed| - 1 ==> allowed[1..][k] == allowed[k + 1];
      }
      PutNew(allowed[1..], e);
    }
  }

  lemma {:induction false} DistinctAllowed(entries: seq<Entry>)
    requires Distinct(entries)
    ensures Allowed(entries) == entries
  {
    if entries != [] {
      var front, last := entries[..|entries| - 1], entries[|entries| - 1];
      assert entries == front + [last];
      DistinctAppend(front, last);
      DistinctAllowed(front);
      PutNew(front, last);
    }
  }

  /** The findings, entries and keys that the gate reports, in order. */
  function Unallowlisted(findings: seq<Finding>, entries: seq<Entry>): seq<Finding> {
    if findings == [] then []
    else
      var f := findings[|findings| - 1];
      Unallowlisted(findings[..|findings| - 1], entries) + if Covered(entries, f.key) then [] else [f]
  }

  function Stale(findings: seq<Finding>, entries: seq<Entry>): seq<Entry> {
    if entries == [] then []
    else
      var e := entries[|entries| - 1];
      Stale(findings, entries[..|entries| - 1]) + if Occurrences(findings, e.key) == 0 then [e] else []
  }

  function Over(findings: seq<Finding>, entries: seq<Entry>): seq<Key> {
    if entries == [] then []
    else
      var e := entries[|entries| - 1];
      Over(findings, entries[..|entries| - 1]) + if Occurrences(findings, e.key) > e.count then [e.key] else []
  }

  method Reconcile(findings: seq<Finding>, entries: seq<Entry>)
    returns (unallowlisted: seq<Finding>, stale: seq<Entry>, over: seq<Key>)
    ensures unallowlisted == Unallowlisted(findings, Allowed(entries))
    ensures stale == Stale(findings, entries)
    ensures over == Over(findings, Allowed(entries))
  {
    var allowed: seq<Entry> := [];
    for i := 0 to |entries|
      invariant allowed == Allowed(entries[..i])
    {
      assert entries[..i + 1][..i] == entries[..i];
      allowed := Put(allowed, entries[i]);
    }
    unallowlisted, stale, over := [], [], [];
    for i := 0 to |findings|
      invariant unallowlisted == Unallowlisted(findings[..i], allowed)
    {
      assert findings[..i + 1][..i] == findings[..i];
      if !Covered(allowed, findings[i].key) {
        unallowlisted := unallowlisted + [findings[i]];
      }
    }
    for i := 0 to |entries|
      invariant stale == Stale(findings, entries[..i])
    {
      assert entries[..i + 1][..i] == entries[..i];
      if Occurrences(findings, entries[i].key) == 0 {
        stale := stale + [entries[i]];
      }
    }
    for i := 0 to |allowed|
      invariant over == Over(findings, allowed[..i])
    {
      assert allowed[..i + 1][..i] == allowed[..i];
      if Occurrences(findings, allowed[i].key) > allowed[i].count {
        over := over + [allowed[i].key];
      }
    }
    assert findings[..|findings|] == findings && entries[..|entries|] == entries && allowed[..|allowed|] == allowed;
  }

  /** Every finding is allowlisted, and every entry's key occurs at least once and at most as often as it says. */
  ghost predicate Balanced(findings: seq<Finding>, entries: seq<Entry>) {
    && (forall k :: 0 <= k < |findings| ==> Covered(entries, findings[k].key))
    && (forall k :: 0 <= k < |entries| ==> 1 <= Occurrences(findings, entries[k].key) <= entries[k].count)
  }

  lemma {:induction false} UnallowlistedIff(findings: seq<Finding>, entries: seq<Entry>)
    ensures Unallowlisted(findings, entries) == [] <==> forall k :: 0 <= k < |findings| ==> Covered(entries, findings[k].key)
  {
    if findings != [] {
      UnallowlistedIff(findings[..|findings| - 1], entries);
    }
  }

  lemma {:induction false} StaleIff(findings: seq<Finding>, entries: seq<Entry>)
    ensures Stale(findings, entries) == [] <==> forall k :: 0 <= k < |entries| ==> 1 <= Occurrences(findings, entries[k].key)
  {
    hide Occurrences;
    if entries != [] {
      StaleIff(findings, entries[..|entries| - 1]);
    }
  }

  lemma {:induction false} OverIff(findings: seq<Finding>, entries: seq<Entry>)
    ensures Over(findings, entries) == []
       <==> forall k :: 0 <= k < |entries| ==> Occurrences(findings, entries[k].key) <= entries[k].count
  {
    hide Occurrences;
    if entries != [] {
      OverIff(findings, entries[..|entries| - 1]);
    }
  }

  /** For entries with distinct keys, the gate reports nothing if and only if findings and entries balance. */
  lemma NothingReportedIffBalanced(findings: seq<Finding>, entries: seq<Entry>)
    requires Distinct(entries)
    ensures Unallowlisted(findings, Allowed(entries)) == [] && Stale(findings, entries) == [] && Over(findings, Allowed(entries)) == []
       <==> Balanced(findings, entries)
  {
    DistinctAllowed(entries);
    UnallowlistedIff(findings, entries);
    StaleIff(findings, entries);
    OverIff(findings, entries);
    hide Unallowlisted, Stale, Over, Allowed, Occurrences, Covered, Distinct;
  }

  // ---- What each report says, duplicates included ---------------------------------------------------------------------------

  lemma {:induction false} OccurrencesAre(findings: seq<Finding>, key: Key)
    ensures Occurrences(findings, key) == |set i: nat | i < |findings| && findings[i].key == key|
  {
    if findings != [] {
      var n := |findings| - 1;
      OccurrencesAre(findings[..n], key);
      var before := set i: nat | i < |findings[..n]| && findings[..n][i].key == key;
      var all := set i: nat | i < |findings| && findings[i].key == key;
      forall i: nat ensures i in all <==> i in before || (i == n && findings[n].key == key) {
        assert i < n ==> findings[..n][i] == findings[i];
      }
      assert all == before + if findings[n].key == key then {n as nat} else {};
    }
  }

  /** The entry of a key is the last one given for it. */
  ghost predicate LastFor(entries: seq<Entry>, e: Entry) {
    exists k :: 0 <= k < |entries| && entries[k] == e && forall j :: k < j < |entries| ==> entries[j].key != e.key
  }

  lemma LastForAppend(front: seq<Entry>, last: Entry, e: Entry)
    ensures LastFor(front + [last], e) <==> e == last || (LastFor(front, e) && last.key != e.key)
  {
    var entries := front + [last];
    assert entries[|front|] == last && forall k :: 0 <= k < |front| ==> entries[k] == front[k];
    if LastFor(front, e) && last.key != e.key {
      var k :| 0 <= k < |front| && front[k] == e && forall j :: k < j < |front| ==> front[j].key != e.key;
      assert entries[k] == e;
    }
    if LastFor(entries, e) && e != last {
      var k :| 0 <= k < |entries| && entries[k] == e && forall j :: k < j < |entries| ==> entries[j].key != e.key;
      assert front[k] == e && entries[|front|].key != e.key;
      assert forall j :: k < j < |front| ==> entries[j].key != e.key;
    }
  }

  lemma {:induction false} PutMembers(allowed: seq<Entry>, e: Entry, x: Entry)
    requires Distinct(allowed)
    ensures Distinct(Put(allowed, e)) && forall key :: Covered(Put(allowed, e), key) <==> Covered(allowed, key) || key == e.key
    ensures x in Put(allowed, e) <==> x == e || (x in allowed && x.key != e.key)
  {
    if allowed == [] {
      CoveredHead(e, []);
      assert [e] + [] == [e];
    } else {
      var rest := allowed[1..];
      assert allowed == [allowed[0]] + rest;
      forall j, k | 0 <= j < k < |rest| ensures rest[j].key != rest[k].key {
        assert allowed[j + 1].key != allowed[k + 1].key;
      }
      PutMembers(rest, e, x);
      CoveredHead(allowed[0], rest);
      CoveredHead(allowed[0], Put(rest, e));
      CoveredHead(e, rest);
      forall y | y in rest ensures y.key != allowed[0].key {
        var k :| 0 <= k < |rest| && rest[k] == y;
        assert allowed[k + 1].key != allowed[0].key;
      }
      DistinctHead(allowed[0], rest);
      DistinctHead(allowed[0], Put(rest, e));
      DistinctHead(e, rest);
    }
  }

  lemma CoveredHead(e: Entry, rest: seq<Entry>)
    ensures forall key :: Covered([e] + rest, key) <==> Covered(rest, key) || key == e.key
  {
    var all := [e] + rest;
    forall key | Covered(rest, key) ensures Covered(all, key) {
      var k :| 0 <= k < |rest| && rest[k].key == key;
      assert all[k + 1].key == key;
    }
    assert all[0].key == e.key;
  }

  lemma DistinctHead(e: Entry, rest: seq<Entry>)
    ensures Distinct([e] + rest) <==> Distinct(rest) && !Covered(rest, e.key)
  {
    var all := [e] + rest;
    assert all[0] == e && forall k :: 0 <= k < |rest| ==> all[k + 1] == rest[k];
    if Distinct(all) {
      forall j, k | 0 <= j < k < |rest| ensures rest[j].key != rest[k].key {
        assert all[j + 1].key != all[k + 1].key;
      }
      forall k | 0 <= k < |rest| ensures rest[k].key != e.key {
        assert all[k + 1].key != all[0].key;
      }
    }
  }

  lemma {:induction false} AllowedAre(entries: seq<Entry>, x: Entry)
    ensures Distinct(Allowed(entries)) && (x in Allowed(entries) <==> LastFor(entries, x))
    ensures forall key :: Covered(Allowed(entries), key) <==> Covered(entries, key)
  {
    hide Distinct, Covered, LastFor, Put;
    if entries == [] {
      NoEntries(x);
    } else {
      var front, last := entries[..|entries| - 1], entries[|entries| - 1];
      assert entries == front + [last];
      AllowedAre(front, x);
      PutMembers(Allowed(front), last, x);
      LastForAppend(front, last, x);
      forall key ensures Covered(entries, key) <==> Covered(front, key) || last.key == key {
        CoveredAppend(front, last, key);
      }
    }
  }

  lemma NoEntries(x: Entry)
    ensures Distinct([]) && !LastFor([], x)
  {
  }

  lemma {:induction false} UnallowlistedMembers(findings: seq<Finding>, entries: seq<Entry>, f: Finding)
    ensures f in Unallowlisted(findings, entries) <==> f in findings && !Covered(entries, f.key)
  {
    if findings != [] {
      UnallowlistedMembers(findings[..|findings| - 1], entries, f);
      assert findings == findings[..|findings| - 1] + [findings[|findings| - 1]];
    }
  }

  lemma {:induction false} StaleMembers(findings: seq<Finding>, entries: seq<Entry>, e: Entry)
    ensures e in Stale(findings, entries) <==> e in entries && Occurrences(findings, e.key) == 0
  {
    hide Occurrences;
    if entries != [] {
      StaleMembers(findings, entries[..|entries| - 1], e);
      assert entries == entries[..|entries| - 1] + [entries[|entries| - 1]];
    }
  }

  lemma {:induction false} OverMembers(findings: seq<Finding>, entries: seq<Entry>, key: Key)
    ensures key in Over(findings, entries) <==> exists e :: e in entries && e.key == key && Occurrences(findings, key) > e.count
  {
    hide Occurrences;
    if entries != [] {
      OverMembers(findings, entries[..|entries| - 1], key);
      assert entries == entries[..|entries| - 1] + [entries[|entries| - 1]];
    }
  }

  /** For any entries: a finding is reported if no entry has its key; an entry if no finding has its key; and a key if more
      findings have it than the last entry given for it allows. */
  lemma ReportedIff(findings: seq<Finding>, entries: seq<Entry>, f: Finding, e: Entry, key: Key)
    ensures f in Unallowlisted(findings, Allowed(entries)) <==> f in findings && forall x :: x in entries ==> x.key != f.key
    ensures e in Stale(findings, entries) <==> e in entries && forall x :: x in findings ==> x.key != e.key
    ensures key in Over(findings, Allowed(entries)) <==> exists k ::
      && 0 <= k < |entries| && entries[k].key == key
      && (forall j :: k < j < |entries| ==> entries[j].key != key)
      && |set i: nat | i < |findings| && findings[i].key == key| > entries[k].count
  {
    UnallowlistedMembers(findings, Allowed(entries), f);
    StaleMembers(findings, entries, e);
    OverMembers(findings, Allowed(entries), key);
    AllowedAre(entries, e);
    OccurrencesAre(findings, key);
    NoneOccurs(findings, e.key);
    CoveredIff(entries, f.key);
    hide Unallowlisted, Stale, Over, Allowed, Occurrences, Covered, Distinct;
    if x :| x in Allowed(entries) && x.key == key && Occurrences(findings, key) > x.count {
      AllowedAre(entries, x);
      var k :| 0 <= k < |entries| && entries[k] == x && forall j :: k < j < |entries| ==> entries[j].key != x.key;
      assert entries[k].key == key;
    }
    if k :| 0 <= k < |entries| && entries[k].key == key && (forall j :: k < j < |entries| ==> entries[j].key != key)
            && Occurrences(findings, key) > entries[k].count {
      AllowedAre(entries, entries[k]);
      assert LastFor(entries, entries[k]);
    }
  }

  lemma CoveredIff(entries: seq<Entry>, key: Key)
    ensures !Covered(entries, key) <==> forall x :: x in entries ==> x.key != key
  {
    if forall x :: x in entries ==> x.key != key {
      assert forall k :: 0 <= k < |entries| ==> entries[k] in entries;
    }
  }

  lemma {:induction false} NoneOccurs(findings: seq<Finding>, key: Key)
    ensures Occurrences(findings, key) == 0 <==> forall x :: x in findings ==> x.key != key
  {
    if findings != [] {
      NoneOccurs(findings[..|findings| - 1], key);
      assert findings == findings[..|findings| - 1] + [findings[|findings| - 1]];
    }
  }

  // ---- Totals -------------------------------------------------------------------------------------------------------------------

  function TotalCount(entries: seq<Entry>): nat {
    if entries == [] then 0 else TotalCount(entries[..|entries| - 1]) + entries[|entries| - 1].count
  }

  /** Findings that some entry covers, entry by entry. */
  function TotalOccurrences(findings: seq<Finding>, entries: seq<Entry>): nat {
    if entries == [] then 0
    else TotalOccurrences(findings, entries[..|entries| - 1]) + Occurrences(findings, entries[|entries| - 1].key)
  }

  lemma {:induction false} OneMoreFinding(findings: seq<Finding>, f: Finding, entries: seq<Entry>)
    requires Distinct(entries)
    ensures TotalOccurrences(findings + [f], entries)
         == TotalOccurrences(findings, entries) + if Covered(entries, f.key) then 1 else 0
  {
    if entries != [] {
      var front, last := entries[..|entries| - 1], entries[|entries| - 1];
      OneMoreFinding(findings, f, front);
      assert (findings + [f])[..|findings|] == findings;
      assert Covered(entries, f.key) <==> Covered(front, f.key) || last.key == f.key by {
        if Covered(front, f.key) {
          var k :| 0 <= k < |front| && front[k].key == f.key;
          assert entries[k] == front[k];
        }
      }
      assert last.key == f.key ==> !Covered(front, f.key);
    }
  }

  lemma {:induction false} CoveredAddUp(findings: seq<Finding>, entries: seq<Entry>)
    requires Distinct(entries) && forall k :: 0 <= k < |findings| ==> Covered(entries, findings[k].key)
    ensures TotalOccurrences(findings, entries) == |findings|
  {
    if findings == [] {
      NoOccurrences(entries);
    } else {
      var front := findings[..|findings| - 1];
      CoveredAddUp(front, entries);
      assert findings == front + [findings[|findings| - 1]];
      OneMoreFinding(front, findings[|findings| - 1], entries);
    }
  }

  lemma {:induction false} NoOccurrences(entries: seq<Entry>)
    ensures TotalOccurrences([], entries) == 0
  {
    if entries != [] {
      NoOccurrences(entries[..|entries| - 1]);
    }
  }

  lemma {:induction false} OccurrencesWithinCounts(findings: seq<Finding>, entries: seq<Entry>)
    requires forall k :: 0 <= k < |entries| ==> 1 <= Occurrences(findings, entries[k].key) <= entries[k].count
    ensures |entries| <= TotalOccurrences(findings, entries) <= TotalCount(entries)
  {
    if entries != [] {
      OccurrencesWithinCounts(findings, entries[..|entries| - 1]);
    }
  }

  /** Behind a clean gate there are no more entries than findings, and no more findings than the counts allow. */
  lemma CleanGateIsTight(findings: seq<Finding>, entries: seq<Entry>)
    requires Distinct(entries) && Balanced(findings, entries)
    ensures |entries| <= |findings| <= TotalCount(entries)
  {
    CoveredAddUp(findings, entries);
    OccurrencesWithinCounts(findings, entries);
  }

  /** The gate's verdict over one run, `expired` being the problems of entries past their date. */
  method Report(rows: seq<Row>, isIssue: string -> bool, expired: seq<string>, findings: seq<Finding>) returns (clean: bool)
    ensures clean <==> AllSound(rows, isIssue) && Distinct(EntriesOf(rows)) && expired == [] && Balanced(findings, EntriesOf(rows))
    ensures clean ==> |EntriesOf(rows)| <= |findings| <= TotalCount(EntriesOf(rows))
  {
    var entries, problems := LoadAllowlist(rows, isIssue);
    var unallowlisted, stale, over := Reconcile(findings, entries);
    clean := problems == [] && expired == [] && unallowlisted == [] && stale == [] && over == [];
    if Distinct(entries) {
      NothingReportedIffBalanced(findings, entries);
      if clean {
        CleanGateIsTight(findings, entries);
      }
    }
  }
}
