/** Counting duplicate pairs among memory items (memory_dup_baseline.py). */
module PairCount {
  import opened Text

  // ---- Folded text -----------------------------------------------------------------------------------------------------

  /** `" ".join(words)` */
  function Join(words: seq<string>): string {
    if words == [] then "" else if |words| == 1 then words[0] else words[0] + (" " + Join(words[1..]))
  }

  function Fold(text: string): string {
    Join(Words(Lower(text)))
  }

  lemma {:induction false} WordsOfJoin(words: seq<string>)
    requires forall w :: w in words ==> IsWordText(w)
    ensures Words(Join(words)) == words
  {
    if words != [] {
      assert words[0] in words;
      WordsOfJoin(words[1..]);
      if |words| == 1 {
        WordsOfWord(words[0], "");
        assert words[0] + "" == words[0];
      } else {
        var t := " " + Join(words[1..]);
        assert t[1..] == Join(words[1..]);
        assert Words(t) == words[1..];
        WordsOfWord(words[0], t);
      }
    }
  }

  /** Two texts fold alike if and only if they consist of the same words, letter case and white space aside. */
  lemma FoldsAlikeIff(a: string, b: string)
    ensures Fold(a) == Fold(b) <==> Words(Lower(a)) == Words(Lower(b))
  {
    WordsAreWords(Lower(a));
    WordsAreWords(Lower(b));
    WordsOfJoin(Words(Lower(a)));
    WordsOfJoin(Words(Lower(b)));
  }

  // ---- Pairs --------------------------------------------------------------------------------------------------------------

  type Vector = seq<real>

  datatype Item = Item(text: string, vector: Vector)

  /** The two kinds of pair; `similar` is "cosine at or above the threshold". Near excludes exact. */
  datatype Relation = Exact | Near(similar: (Vector, Vector) -> bool)
  {
    predicate Holds(a: Item, b: Item) {
      match this
      case Exact => Fold(a.text) == Fold(b.text)
      case Near(similar) => Fold(a.text) != Fold(b.text) && similar(a.vector, b.vector)
    }

    ghost predicate Symmetric() {
      forall a, b :: Holds(a, b) <==> Holds(b, a)
    }
  }

  /** How many of `items` stand in the relation to `a`. */
  function Partners(r: Relation, a: Item, items: seq<Item>): nat {
    if items == [] then 0
    else Partners(r, a, items[..|items| - 1]) + if r.Holds(a, items[|items| - 1]) then 1 else 0
  }

  /** How many pairs of positions i < j stand in the relation. */
  function Pairs(r: Relation, items: seq<Item>): nat {
    if items == [] then 0 else Partners(r, items[0], items[1..]) + Pairs(r, items[1..])
  }

  function Zip(texts: seq<string>, vectors: seq<Vector>): (items: seq<Item>)
    requires |texts| == |vectors|
    ensures |items| == |texts| && forall k :: 0 <= k < |texts| ==> items[k] == Item(texts[k], vectors[k])
  {
    seq(|texts|, k requires 0 <= k < |texts| => Item(texts[k], vectors[k]))
  }

  method CountPairs(texts: seq<string>, vectors: seq<Vector>, similar: (Vector, Vector) -> bool) returns (exact: nat, near: nat)
    requires |texts| == |vectors|
    ensures exact == Pairs(Exact, Zip(texts, vectors))
    ensures near == Pairs(Near(similar), Zip(texts, vectors))
  {
    exact, near := 0, 0;
    ghost var items := Zip(texts, vectors);
    assert items[0..] == items;
    for i := 0 to |texts|
      invariant exact + Pairs(Exact, items[i..]) == Pairs(Exact, items)
      invariant near + Pairs(Near(similar), items[i..]) == Pairs(Near(similar), items)
    {
      hide *;
      PairsStep(Exact, items, i);
      PairsStep(Near(similar), items, i);
      var e, n := CountRow(texts, vectors, similar, i);
      exact, near := exact + e, near + n;
    }
  }

  /** The pairs whose first position is `i`. */
  method CountRow(texts: seq<string>, vectors: seq<Vector>, similar: (Vector, Vector) -> bool, i: nat)
    returns (exact: nat, near: nat)
    requires |texts| == |vectors| && i < |texts|
    ensures var items := Zip(texts, vectors);
      && exact == Partners(Exact, items[i], items[i + 1..])
      && near == Partners(Near(similar), items[i], items[i + 1..])
  {
    exact, near := 0, 0;
    ghost var items := Zip(texts, vectors);
    hide Pairs, Partners, Fold, Zip;
    for j := i + 1 to |texts|
      invariant exact + Partners(Exact, items[i], items[j..]) == Partners(Exact, items[i], items[i + 1..])
      invariant near + Partners(Near(similar), items[i], items[j..]) == Partners(Near(similar), items[i], items[i + 1..])
    {
      PartnersStep(Exact, items[i], items, j);
      PartnersStep(Near(similar), items[i], items, j);
      if Fold(texts[i]) == Fold(texts[j]) {
        exact := exact + 1;
      } else if similar(vectors[i], vectors[j]) {
        near := near + 1;
      }
    }
    NoPartners(Exact, items[i], items);
    NoPartners(Near(similar), items[i], items);
  }

  lemma PairsStep(r: Relation, items: seq<Item>, i: nat)
    requires i < |items|
    ensures Pairs(r, items[i..]) == Partners(r, items[i], items[i + 1..]) + Pairs(r, items[i + 1..])
  {
    assert items[i..][1..] == items[i + 1..] && items[i..][0] == items[i];
  }

  lemma PartnersStep(r: Relation, a: Item, items: seq<Item>, j: nat)
    requires j < |items|
    ensures Partners(r, a, items[j..]) == (if r.Holds(a, items[j]) then 1 else 0) + Partners(r, a, items[j + 1..])
  {
    assert items[j..] == [items[j]] + items[j + 1..];
    PartnersConcat(r, a, [items[j]], items[j + 1..]);
    PartnersOfOne(r, a, items[j]);
  }

  lemma NoPartners(r: Relation, a: Item, items: seq<Item>)
    ensures Partners(r, a, items[|items|..]) == 0
  {
  }

  // ---- The counts do not depend on the order ------------------------------------------------------------------------------------

  lemma {:induction false} PartnersConcat(r: Relation, a: Item, s: seq<Item>, t: seq<Item>)
    ensures Partners(r, a, s + t) == Partners(r, a, s) + Partners(r, a, t)
  {
    if t == [] {
      assert s + t == s;
    } else {
      assert (s + t)[..|s + t| - 1] == s + t[..|t| - 1];
      PartnersConcat(r, a, s, t[..|t| - 1]);
    }
  }

  lemma PartnersOfOne(r: Relation, a: Item, b: Item)
    ensures Partners(r, a, [b]) == if r.Holds(a, b) then 1 else 0
  {
    assert [b][..0] == [];
  }

  lemma PartnersWithout(r: Relation, b: Item, s: seq<Item>, a: Item, t: seq<Item>)
    ensures Partners(r, b, s + ([a] + t)) == Partners(r, b, s + t) + if r.Holds(b, a) then 1 else 0
  {
    PartnersConcat(r, b, s, [a] + t);
    PartnersConcat(r, b, [a], t);
    PartnersConcat(r, b, s, t);
    PartnersOfOne(r, b, a);
  }

  lemma PairsHead(r: Relation, b: Item, rest: seq<Item>)
    ensures Pairs(r, [b] + rest) == Partners(r, b, rest) + Pairs(r, rest)
  {
    assert ([b] + rest)[1..] == rest;
  }

  lemma PartnersHead(r: Relation, a: Item, b: Item, rest: seq<Item>)
    ensures Partners(r, a, [b] + rest) == (if r.Holds(a, b) then 1 else 0) + Partners(r, a, rest)
  {
    PartnersConcat(r, a, [b], rest);
    PartnersOfOne(r, a, b);
  }

  /** Taking out the item between `s` and `t` takes out its own pairs and no other. */
  lemma {:induction false} PairsWithout(r: Relation, s: seq<Item>, a: Item, t: seq<Item>)
    requires r.Symmetric()
    ensures Pairs(r, s + ([a] + t)) == Partners(r, a, s + t) + Pairs(r, s + t)
  {
    if s == [] {
      PairsHead(r, a, t);
      assert s + ([a] + t) == [a] + t && s + t == t;
    } else {
      var b, rest := s[0], s[1..];
      var short, long := rest + t, rest + ([a] + t);
      assert s + t == [b] + short && s + ([a] + t) == [b] + long;
      PairsWithout(r, rest, a, t);
      PairsHead(r, b, long);
      PairsHead(r, b, short);
      PartnersWithout(r, b, rest, a, t);
      PartnersHead(r, a, b, short);
      assert r.Holds(a, b) <==> r.Holds(b, a);
      hide Pairs, Partners;
    }
  }

  lemma {:induction false} PartnersPermute(r: Relation, a: Item, s: seq<Item>, t: seq<Item>)
    requires multiset(s) == multiset(t)
    ensures Partners(r, a, s) == Partners(r, a, t)
  {
    if s != [] {
      var before, b, after := Locate(s[0], s, t);
      PartnersPermute(r, a, s[1..], before + after);
      assert s == [s[0]] + s[1..];
      PartnersConcat(r, a, [b], s[1..]);
      PartnersConcat(r, a, before, [b] + after);
      PartnersConcat(r, a, [b], after);
      PartnersConcat(r, a, before, after);
    } else {
      assert |multiset(t)| == 0;
    }
  }

  lemma Locate(b: Item, s: seq<Item>, t: seq<Item>)
    returns (before: seq<Item>, b': Item, after: seq<Item>)
    requires s != [] && b == s[0] && multiset(s) == multiset(t)
    ensures b' == b && t == before + ([b] + after) && multiset(s[1..]) == multiset(before + after)
  {
    assert b in multiset(t);
    var k :| 0 <= k < |t| && t[k] == b;
    before, b', after := t[..k], b, t[k + 1..];
    assert t == before + ([b] + after);
    assert s == [b] + s[1..];
    TakeOut([], b, s[1..]);
    assert [] + ([b] + s[1..]) == s && [] + s[1..] == s[1..];
    TakeOut(before, b, after);
    Cancel(multiset(s[1..]), multiset(before + after), b);
  }

  lemma TakeOut(before: seq<Item>, b: Item, after: seq<Item>)
    ensures multiset(before + ([b] + after)) == multiset(before + after) + multiset{b}
  {
    assert multiset([b] + after) == multiset{b} + multiset(after);
    assert multiset(before + ([b] + after)) == multiset(before) + (multiset{b} + multiset(after));
    assert multiset(before + after) == multiset(before) + multiset(after);
  }

  lemma Cancel(m: multiset<Item>, n: multiset<Item>, b: Item)
    requires m + multiset{b} == n + multiset{b}
    ensures m == n
  {
    assert (m + multiset{b}) - multiset{b} == m;
    assert (n + multiset{b}) - multiset{b} == n;
  }

  /** Both counts are unchanged by permuting the items, when similarity is symmetric. */
  lemma {:induction false} PairsPermute(r: Relation, s: seq<Item>, t: seq<Item>)
    requires r.Symmetric() && multiset(s) == multiset(t)
    ensures Pairs(r, s) == Pairs(r, t)
  {
    if s != [] {
      var before, b, after := Locate(s[0], s, t);
      PairsPermute(r, s[1..], before + after);
      PartnersPermute(r, b, s[1..], before + after);
      PairsWithout(r, before, b, after);
    } else {
      assert |multiset(t)| == 0;
    }
  }

  // ---- The pairs themselves ----------------------------------------------------------------------------------------------------

  ghost function PairSet(r: Relation, items: seq<Item>): set<(nat, nat)> {
    set i: nat, j: nat | i < j < |items| && r.Holds(items[i], items[j]) :: (i, j)
  }

  ghost function Row(r: Relation, a: Item, items: seq<Item>): set<nat> {
    set j: nat | j < |items| && r.Holds(a, items[j])
  }

  lemma RowTakes(r: Relation, a: Item, front: seq<Item>, b: Item)
    ensures Row(r, a, front + [b]) == if r.Holds(a, b) then Row(r, a, front) + {|front|} else Row(r, a, front)
  {
    var items := front + [b];
    hide Relation.Holds;
    assert items[|front|] == b;
    forall j: nat | j < |front| ensures j in Row(r, a, items) <==> j in Row(r, a, front) {
      assert items[j] == front[j];
    }
    assert |front| in Row(r, a, items) <==> r.Holds(a, b);
  }

  lemma {:induction false} RowSize(r: Relation, a: Item, items: seq<Item>)
    ensures |Row(r, a, items)| == Partners(r, a, items)
  {
    if items != [] {
      var front, b := items[..|items| - 1], items[|items| - 1];
      RowSize(r, a, front);
      RowTakes(r, a, front, b);
      hide Relation.Holds;
      assert items == front + [b] && |front| !in Row(r, a, front);
      hide Row;
    }
  }

  ghost function InRow(row: set<nat>): set<(nat, nat)> {
    set j: nat | j in row :: (0 as nat, (j + 1) as nat)
  }

  ghost function Shifted(pairs: set<(nat, nat)>): set<(nat, nat)> {
    set p | p in pairs :: ((p.0 + 1) as nat, (p.1 + 1) as nat)
  }

  lemma InRowIff(row: set<nat>, i: nat, j: nat)
    ensures (i, j) in InRow(row) <==> i == 0 && j > 0 && j - 1 in row
  {
    if i == 0 && j > 0 && j - 1 in row {
      var k: nat := j - 1;
      assert k in row && (i, j) == (0, k + 1);
    }
  }

  lemma ShiftedIff(pairs: set<(nat, nat)>, i: nat, j: nat)
    ensures (i, j) in Shifted(pairs) <==> i > 0 && j > 0 && (i - 1, j - 1) in pairs
  {
    if i > 0 && j > 0 && (i - 1, j - 1) in pairs {
      var k: nat, l: nat := i - 1, j - 1;
      var p: (nat, nat) := (k, l);
      assert p in pairs && (i, j) == (p.0 + 1, p.1 + 1);
    }
  }

  lemma {:induction false} InRowSize(row: set<nat>)
    ensures |InRow(row)| == |row|
  {
    if row != {} {
      var j :| j in row;
      InRowSize(row - {j});
      forall p: (nat, nat) ensures p in InRow(row) <==> p in InRow(row - {j}) + {(0 as nat, j + 1)} {
        InRowIff(row, p.0, p.1);
        InRowIff(row - {j}, p.0, p.1);
        assert p == (p.0, p.1);
      }
      InRowIff(row - {j}, 0, j + 1);
      hide InRow;
      assert InRow(row) == InRow(row - {j}) + {(0 as nat, j + 1)};
    }
  }

  lemma ShiftedTakes(pairs: set<(nat, nat)>, i: nat, j: nat)
    requires (i, j) in pairs
    ensures (i + 1, j + 1) !in Shifted(pairs - {(i, j)})
    ensures Shifted(pairs) == Shifted(pairs - {(i, j)}) + {(i + 1, j + 1)}
  {
    ShiftedIff(pairs - {(i, j)}, i + 1, j + 1);
    forall p: (nat, nat) ensures p in Shifted(pairs) <==> p in Shifted(pairs - {(i, j)}) || p == (i + 1, j + 1) {
      ShiftedIff(pairs, p.0, p.1);
      ShiftedIff(pairs - {(i, j)}, p.0, p.1);
      assert p == (p.0, p.1);
      hide Shifted;
    }
    hide Shifted;
  }

  lemma {:induction false} ShiftedSize(pairs: set<(nat, nat)>)
    ensures |Shifted(pairs)| == |pairs|
  {
    if pairs != {} {
      var q :| q in pairs;
      assert q == (q.0, q.1);
      ShiftedSize(pairs - {q});
      ShiftedTakes(pairs, q.0, q.1);
      hide Shifted;
    }
  }

  lemma PairSetSplits(r: Relation, items: seq<Item>)
    requires items != []
    ensures PairSet(r, items) == InRow(Row(r, items[0], items[1..])) + Shifted(PairSet(r, items[1..]))
    ensures InRow(Row(r, items[0], items[1..])) !! Shifted(PairSet(r, items[1..]))
  {
    var row, rest := Row(r, items[0], items[1..]), PairSet(r, items[1..]);
    forall p: (nat, nat)
      ensures p in PairSet(r, items) <==> p in InRow(row) + Shifted(rest)
      ensures !(p in InRow(row) && p in Shifted(rest))
    {
      InRowIff(row, p.0, p.1);
      ShiftedIff(rest, p.0, p.1);
      assert p == (p.0, p.1);
      hide InRow, Shifted;
    }
  }

  lemma {:induction false} PairsSize(r: Relation, items: seq<Item>)
    ensures |PairSet(r, items)| == Pairs(r, items)
  {
    if items != [] {
      var row, rest := Row(r, items[0], items[1..]), PairSet(r, items[1..]);
      PairsSize(r, items[1..]);
      RowSize(r, items[0], items[1..]);
      InRowSize(row);
      ShiftedSize(rest);
      PairSetSplits(r, items);
      hide Row, PairSet, Partners, InRow, Shifted;
    }
  }

  lemma HoldsIff(a: Item, b: Item, similar: (Vector, Vector) -> bool)
    ensures Exact.Holds(a, b) <==> Words(Lower(a.text)) == Words(Lower(b.text))
    ensures Near(similar).Holds(a, b) <==> Words(Lower(a.text)) != Words(Lower(b.text)) && similar(a.vector, b.vector)
  {
    FoldsAlikeIff(a.text, b.text);
    hide Words, Fold, Lower;
  }

  /** The exact pairs are the positions i < j whose texts have the same words, letter case and white space aside; the near ones
      those whose words differ and whose vectors are similar. */
  lemma PairsAre(items: seq<Item>, similar: (Vector, Vector) -> bool, exact: set<(nat, nat)>, near: set<(nat, nat)>)
    requires forall i: nat, j: nat :: (i, j) in exact <==>
      i < j < |items| && Words(Lower(items[i].text)) == Words(Lower(items[j].text))
    requires forall i: nat, j: nat :: (i, j) in near <==>
      i < j < |items| && Words(Lower(items[i].text)) != Words(Lower(items[j].text)) && similar(items[i].vector, items[j].vector)
    ensures Pairs(Exact, items) == |exact| && Pairs(Near(similar), items) == |near|
  {
    hide Words, Lower, Pairs, Relation.Holds;
    PairsSize(Exact, items);
    PairsSize(Near(similar), items);
    forall p: (nat, nat) ensures p in PairSet(Exact, items) <==> p in exact {
      if p.0 < p.1 < |items| {
        HoldsIff(items[p.0], items[p.1], similar);
      }
      assert p == (p.0, p.1);
    }
    assert PairSet(Exact, items) == exact;
    forall p: (nat, nat) ensures p in PairSet(Near(similar), items) <==> p in near {
      if p.0 < p.1 < |items| {
        HoldsIff(items[p.0], items[p.1], similar);
      }
      assert p == (p.0, p.1);
    }
    assert PairSet(Near(similar), items) == near;
  }

  // ---- What they add up to ------------------------------------------------------------------------------------------------------

  function Choose2(n: nat): nat {
    n * (n - 1) / 2
  }

  lemma Choose2Step(n: nat)
    ensures Choose2(n + 1) == Choose2(n) + n
  {
    assert (n + 1) * n == n * (n - 1) + 2 * n;
  }

  function Folded(items: seq<Item>): multiset<string> {
    if items == [] then multiset{} else Folded(items[..|items| - 1]) + multiset{Fold(items[|items| - 1].text)}
  }

  lemma {:induction false} PartnersAreTwins(a: Item, items: seq<Item>)
    ensures Partners(Exact, a, items) == Folded(items)[Fold(a.text)]
  {
    if items != [] {
      PartnersAreTwins(a, items[..|items| - 1]);
    }
  }

  lemma {:induction false} FoldedConcat(s: seq<Item>, t: seq<Item>)
    ensures Folded(s + t) == Folded(s) + Folded(t)
  {
    if t == [] {
      assert s + t == s;
    } else {
      assert (s + t)[..|s + t| - 1] == s + t[..|t| - 1];
      FoldedConcat(s, t[..|t| - 1]);
    }
  }

  /** m(m - 1)/2 summed over the distinct texts, m being the multiplicity. */
  ghost function PairsByText(texts: multiset<string>): nat
    decreases |texts|
  {
    if texts == multiset{} then 0
    else
      var t :| t in texts;
      Choose2(texts[t]) + PairsByText(texts[t := 0])
  }

  lemma {:induction false} PairsByTextWithout(texts: multiset<string>, t: string)
    ensures PairsByText(texts) == Choose2(texts[t]) + PairsByText(texts[t := 0])
    decreases |texts|
  {
    if t !in texts {
      assert texts[t := 0] == texts;
    } else {
      var u :| u in texts && PairsByText(texts) == Choose2(texts[u]) + PairsByText(texts[u := 0]);
      if t != u {
        PairsByTextWithout(texts[u := 0], t);
        PairsByTextWithout(texts[t := 0], u);
        assert texts[u := 0][t := 0] == texts[t := 0][u := 0];
      }
    }
  }

  lemma OneMoreText(m: multiset<string>, t: string)
    ensures PairsByText(multiset{t} + m) == m[t] + PairsByText(m)
  {
    PairsByTextWithout(m, t);
    PairsByTextWithout(multiset{t} + m, t);
    Choose2Step(m[t]);
    hide Choose2, PairsByText;
    assert (multiset{t} + m)[t := 0] == m[t := 0];
  }

  lemma FoldedHead(items: seq<Item>)
    requires items != []
    ensures Folded(items) == multiset{Fold(items[0].text)} + Folded(items[1..])
  {
    assert items == [items[0]] + items[1..];
    FoldedConcat([items[0]], items[1..]);
    assert [items[0]][..0] == [];
  }

  /** The exact count is the sum of m(m - 1)/2 over the distinct folded texts. */
  lemma {:induction false} ExactCount(items: seq<Item>)
    ensures Pairs(Exact, items) == PairsByText(Folded(items))
  {
    if items != [] {
      ExactCount(items[1..]);
      PartnersAreTwins(items[0], items[1..]);
      FoldedHead(items);
      OneMoreText(Folded(items[1..]), Fold(items[0].text));
      hide Folded, Fold, PairsByText, Partners;
    }
  }

  lemma {:induction false} PartnersAtMost(a: Item, items: seq<Item>, similar: (Vector, Vector) -> bool)
    ensures Partners(Exact, a, items) + Partners(Near(similar), a, items) <= |items|
  {
    if items != [] {
      PartnersAtMost(a, items[..|items| - 1], similar);
    }
  }

  /** Exact and near pairs together are no more than all pairs. */
  lemma {:induction false} AtMostAllPairs(items: seq<Item>, similar: (Vector, Vector) -> bool)
    ensures Pairs(Exact, items) + Pairs(Near(similar), items) <= Choose2(|items|)
  {
    if items != [] {
      AtMostAllPairs(items[1..], similar);
      PartnersAtMost(items[0], items[1..], similar);
      Choose2Step(|items| - 1);
    }
  }
}
