/** The import closure that decides whether a gate is labelled deterministic (gen_autonomy_matrix.py). */
module ImportClosure {

  type Name = string

  /** What parsing one resolvable module yields: the imported names in the order met (possibly ""), and the line
      numbers of its dynamic imports. */
  datatype Source = Source(imports: seq<Name>, dynamic: seq<nat>)

  /** The modules that `_find` resolves under a given set of roots. */
  type Repo = map<Name, Source>

  datatype Site = Site(mod: Name, line: nat)

  // ---- What the closure should be ----------------------------------------------------------------------------------

  /** `b` is imported by `a`, and both resolve; an empty name is skipped. */
  ghost predicate Imports(repo: Repo, a: Name, b: Name) {
    a in repo && b in repo && b != "" && b in repo[a].imports
  }

  ghost predicate ImportPath(repo: Repo, entry: Name, path: seq<Name>) {
    && path != [] && path[0] == entry && entry in repo
    && forall k :: 0 <= k < |path| - 1 ==> Imports(repo, path[k], path[k + 1])
  }

  /** Some import path of some length leads from the entry to `m`. */
  ghost predicate Reachable(repo: Repo, entry: Name, m: Name) {
    exists path :: ImportPath(repo, entry, path) && path[|path| - 1] == m
  }

  function SitesOf(m: Name, s: Source): (sites: seq<Site>)
    ensures |sites| == |s.dynamic|
  {
    seq(|s.dynamic|, k requires 0 <= k < |s.dynamic| => Site(m, s.dynamic[k]))
  }

  ghost function NamesOf(repo: Repo, mods: set<Name>): set<Name> {
    set m, n | m in mods && m in repo && n in repo[m].imports && n != "" :: n
  }

  /** Every dynamic-import site of the given modules, each module counted once. */
  ghost function AllSites(repo: Repo, mods: set<Name>): multiset<Site> {
    if mods == {} then multiset{}
    else
      var m :| m in mods;
      (if m in repo then multiset(SitesOf(m, repo[m])) else multiset{}) + AllSites(repo, mods - {m})
  }

  lemma {:induction false} AllSitesTakes(repo: Repo, mods: set<Name>, m: Name)
    requires m in mods
    ensures AllSites(repo, mods) ==
      (if m in repo then multiset(SitesOf(m, repo[m])) else multiset{}) + AllSites(repo, mods - {m})
  {
    var first :| first in mods && AllSites(repo, mods) ==
      (if first in repo then multiset(SitesOf(first, repo[first])) else multiset{}) + AllSites(repo, mods - {first});
    if first != m {
      AllSitesTakes(repo, mods - {first}, m);
      AllSitesTakes(repo, mods - {m}, first);
      assert mods - {first} - {m} == mods - {m} - {first};
    }
  }

  lemma {:induction false} SiteComesFromItsModule(repo: Repo, mods: set<Name>, site: Site)
    ensures site in AllSites(repo, mods) <==> site.mod in mods && site.mod in repo && site.line in repo[site.mod].dynamic
  {
    if mods != {} {
      var m :| m in mods && AllSites(repo, mods) ==
        (if m in repo then multiset(SitesOf(m, repo[m])) else multiset{}) + AllSites(repo, mods - {m});
      SiteComesFromItsModule(repo, mods - {m}, site);
      if m in repo {
        var sites := SitesOf(m, repo[m]);
        assert site in multiset(sites) <==> site in sites;
        if site.mod == m && site.line in repo[m].dynamic {
          var k :| 0 <= k < |repo[m].dynamic| && repo[m].dynamic[k] == site.line;
          assert sites[k] == site;
        }
      }
    }
  }

  // ---- The worklist ------------------------------------------------------------------------------------------------------

  datatype Closure = Closure(local: set<Name>, names: set<Name>, dynamic: seq<Site>)

  /** Everything a walked module imports has been walked or is waiting. */
  ghost predicate Frontier(repo: Repo, local: set<Name>, queue: seq<Name>) {
    forall a, b :: a in local && Imports(repo, a, b) ==> b in local || b in queue
  }

  /** What the loop keeps: the walked modules are reachable and resolvable, their names and sites are collected. */
  ghost predicate Walked(repo: Repo, entry: Name, local: set<Name>, names: set<Name>, dynamic: seq<Site>) {
    && local <= repo.Keys && (forall m :: m in local ==> Reachable(repo, entry, m))
    && names == NamesOf(repo, local) && multiset(dynamic) == AllSites(repo, local)
  }

  ghost predicate QueueReachable(repo: Repo, entry: Name, queue: seq<Name>) {
    forall m :: m in queue && m in repo ==> Reachable(repo, entry, m)
  }

  lemma WalkOne(repo: Repo, entry: Name, local: set<Name>, names: set<Name>, dynamic: seq<Site>, m: Name, found: set<Name>)
    requires Walked(repo, entry, local, names, dynamic) && m in repo && m !in local && Reachable(repo, entry, m)
    requires forall n :: n in found <==> n in repo[m].imports && n != ""
    ensures Walked(repo, entry, local + {m}, names + found, dynamic + SitesOf(m, repo[m]))
  {
    assert local + {m} - {m} == local;
    AllSitesTakes(repo, local + {m}, m);
  }

  lemma QueueAfter(repo: Repo, entry: Name, local: set<Name>, m: Name, queue: seq<Name>, resolvable: seq<Name>)
    requires Frontier(repo, local, queue + [m]) && QueueReachable(repo, entry, queue + [m]) && m in repo
    requires forall n :: n in resolvable <==> Imports(repo, m, n)
    ensures Reachable(repo, entry, m)
    ensures Frontier(repo, local + {m}, queue + resolvable) && QueueReachable(repo, entry, queue + resolvable)
  {
    assert m in queue + [m];
    forall b | b in queue + resolvable && b in repo ensures Reachable(repo, entry, b) {
      if b in queue {
        assert b in queue + [m];
      } else {
        ReachableStep(repo, entry, m, b);
      }
    }
  }

  /** The local set is exactly the resolvable modules reachable from the entry, `names` the union of their imports,
      and `dynamic` lists each of their dynamic imports once. */
  ghost predicate IsClosure(repo: Repo, entry: Name, c: Closure) {
    && (forall m :: m in c.local <==> Reachable(repo, entry, m))
    && c.names == NamesOf(repo, c.local) && multiset(c.dynamic) == AllSites(repo, c.local)
  }

  method ClosureOf(entry: Name, repo: Repo) returns (c: Closure)
    ensures IsClosure(repo, entry, c)
  {
    var local: set<Name>, names: set<Name>, dynamic: seq<Site> := {}, {}, [];
    var queue := [entry];
    if entry in repo { assert ImportPath(repo, entry, [entry]); }
    while queue != []
      invariant Walked(repo, entry, local, names, dynamic)
      invariant Frontier(repo, local, queue) && QueueReachable(repo, entry, queue)
      invariant entry in local || entry in queue || entry !in repo
      decreases repo.Keys - local, |queue|
    {
      var m := queue[|queue| - 1];
      ghost var before := queue;
      queue := queue[..|queue| - 1];
      assert before == queue + [m];
      if m in local || m !in repo {
        continue;
      }
      var found, resolvable := ScanImports(repo, m);
      QueueAfter(repo, entry, local, m, queue, resolvable);
      WalkOne(repo, entry, local, names, dynamic, m, found);
      local, names, dynamic, queue := local + {m}, names + found, dynamic + SitesOf(m, repo[m]), queue + resolvable;
    }
    forall m | Reachable(repo, entry, m) ensures m in local {
      var path :| ImportPath(repo, entry, path) && path[|path| - 1] == m;
      PathStaysInside(repo, entry, local, path);
    }
    c := Closure(local, names, dynamic);
  }

  /** The inner loop over the names one module imports. */
  method ScanImports(repo: Repo, m: Name) returns (found: set<Name>, resolvable: seq<Name>)
    requires m in repo
    ensures forall n :: n in found <==> n in repo[m].imports && n != ""
    ensures forall n :: n in resolvable <==> Imports(repo, m, n)
  {
    found, resolvable := {}, [];
    var imports := repo[m].imports;
    for k := 0 to |imports|
      invariant forall n :: n in found <==> n in imports[..k] && n != ""
      invariant forall n :: n in resolvable <==> n in imports[..k] && n != "" && n in repo
    {
      var n := imports[k];
      assert imports[..k + 1] == imports[..k] + [n];
      if n == "" {
        continue;
      }
      found := found + {n};
      if n in repo {
        resolvable := resolvable + [n];
      }
    }
    assert imports[..|imports|] == imports;
  }

  lemma ReachableStep(repo: Repo, entry: Name, a: Name, b: Name)
    requires Reachable(repo, entry, a) && Imports(repo, a, b)
    ensures Reachable(repo, entry, b)
  {
    var path :| ImportPath(repo, entry, path) && path[|path| - 1] == a;
    assert ImportPath(repo, entry, path + [b]);
    assert (path + [b])[|path + [b]| - 1] == b;
  }

  lemma {:induction false} PathStaysInside(repo: Repo, entry: Name, local: set<Name>, path: seq<Name>)
    requires ImportPath(repo, entry, path) && entry in local && Frontier(repo, local, [])
    ensures path[|path| - 1] in local
  {
    if |path| > 1 {
      var shorter := path[..|path| - 1];
      PathStaysInside(repo, entry, local, shorter);
      assert Imports(repo, path[|path| - 2], path[|path| - 1]);
    }
  }

  // ---- The label --------------------------------------------------------------------------------------------------------------

  const MODEL_CLIENTS: seq<Name> := [
    "anthropic", "openai", "claude_agent_sdk", "google.genai", "ollama", "core.client", "core.simple_client", "providers"]

  /** `name` is the pinned client or one of its submodules. */
  predicate Under(name: Name, client: Name) {
    name == client || client + "." <= name
  }

  function Hits(names: set<Name>): (hits: set<Name>)
    ensures forall c :: c in hits <==> c in MODEL_CLIENTS && exists n :: n in names && Under(n, c)
  {
    set c | c in MODEL_CLIENTS && exists n :: n in names && Under(n, c) :: c
  }

  datatype Label = ModelAssisted(dynamic: bool) | Undetermined | Deterministic

  function LabelOf(names: set<Name>, dynamic: seq<Site>): (l: Label)
    ensures l.Deterministic? <==> Hits(names) == {} && dynamic == []
  {
    if Hits(names) != {} then ModelAssisted(dynamic != [])
    else if dynamic != [] then Undetermined
    else Deterministic
  }

  /** `n` names a pinned model client or something inside one. */
  predicate IsClient(n: Name) {
    n != "" && exists c :: c in MODEL_CLIENTS && Under(n, c)
  }

  /** That is: one of eight packages, or a dotted name inside one. */
  lemma IsClientIff(n: Name, clients: seq<Name>)
    requires clients == ["anthropic", "openai", "claude_agent_sdk", "google.genai", "ollama", "core.client", "core.simple_client", "providers"]
    ensures IsClient(n) <==> exists c :: c in clients && (n == c || exists rest :: n == c + "." + rest)
  {
    forall c | c in clients ensures Under(n, c) <==> n == c || exists rest :: n == c + "." + rest {
      if c + "." <= n {
        assert n == c + "." + n[|c| + 1..];
      }
    }
    if exists c :: c in clients && (n == c || exists rest :: n == c + "." + rest) {
      var c :| c in clients && (n == c || exists rest :: n == c + "." + rest);
      assert c in MODEL_CLIENTS && Under(n, c);
      assert forall c :: c in clients ==> c != "";
    }
  }

  lemma HitsMeanClients(names: set<Name>)
    requires "" !in names
    ensures Hits(names) != {} <==> exists n :: n in names && IsClient(n)
  {
    if n :| n in names && IsClient(n) {
      var c :| c in MODEL_CLIENTS && Under(n, c);
      assert c in Hits(names);
    }
    if Hits(names) != {} {
      var c :| c in Hits(names);
      var n :| n in names && Under(n, c);
      assert IsClient(n);
    }
  }

  /** A module on some import path from the entry, of any length, imports a pinned model client. */
  ghost predicate ReachesClient(repo: Repo, entry: Name) {
    exists m, n :: Reachable(repo, entry, m) && m in repo && n in repo[m].imports && IsClient(n)
  }

  /** A reachable module that imports a client's package, or anything inside it, is enough. */
  lemma InsideAClientIsReached(repo: Repo, entry: Name, m: Name, client: Name, rest: string)
    requires Reachable(repo, entry, m) && m in repo
    requires client in MODEL_CLIENTS
    requires client in repo[m].imports || client + "." + rest in repo[m].imports
    ensures ReachesClient(repo, entry)
  {
    var n := if client in repo[m].imports then client else client + "." + rest;
    IsClientIff(n, MODEL_CLIENTS);
    assert IsClient(n);
  }

  /** A module on some import path from the entry, of any length, imports dynamically. */
  ghost predicate ReachesDynamic(repo: Repo, entry: Name) {
    exists m :: Reachable(repo, entry, m) && m in repo && repo[m].dynamic != []
  }

  lemma ClosureSeesClients(repo: Repo, entry: Name, c: Closure)
    requires IsClosure(repo, entry, c)
    ensures "" !in c.names && (ReachesClient(repo, entry) <==> exists n :: n in c.names && IsClient(n))
  {
    if m, n :| Reachable(repo, entry, m) && m in repo && n in repo[m].imports && IsClient(n) {
      assert n in c.names;
    }
    if n :| n in c.names && IsClient(n) {
      var m :| m in c.local && m in repo && n in repo[m].imports && n != "";
    }
  }

  lemma ClosureSeesDynamic(repo: Repo, entry: Name, c: Closure)
    requires IsClosure(repo, entry, c)
    ensures c.dynamic != [] <==> ReachesDynamic(repo, entry)
  {
    if c.dynamic != [] {
      assert c.dynamic[0] in multiset(c.dynamic);
      SiteComesFromItsModule(repo, c.local, c.dynamic[0]);
    }
    if m :| Reachable(repo, entry, m) && m in repo && repo[m].dynamic != [] {
      var site := Site(m, repo[m].dynamic[0]);
      SiteComesFromItsModule(repo, c.local, site);
      assert site in multiset(c.dynamic);
    }
  }

  /** The label of an entry point, over its own closure and that of the script it spawns (if any) under the script's
      wider roots. "Deterministic" means that no import path of any length, the spawned script's included, reaches a
      pinned model client or a dynamic import. */
  method EntryLabel(entry: Name, repo: Repo, spawned: bool, script: Name, scriptRepo: Repo) returns (l: Label)
    ensures var client := ReachesClient(repo, entry) || (spawned && ReachesClient(scriptRepo, script));
            var dynamic := ReachesDynamic(repo, entry) || (spawned && ReachesDynamic(scriptRepo, script));
      && (l.ModelAssisted? <==> client)
      && (l.Undetermined? <==> !client && dynamic)
      && (l.Deterministic? <==> !client && !dynamic)
      && (l.ModelAssisted? ==> l.dynamic == dynamic)
  {
    hide IsClient, ReachesClient, ReachesDynamic, IsClosure;
    var own := ClosureOf(entry, repo);
    ClosureSeesClients(repo, entry, own);
    ClosureSeesDynamic(repo, entry, own);
    var names, dynamic := own.names, own.dynamic;
    if spawned {
      var sub := ClosureOf(script, scriptRepo);
      ClosureSeesClients(scriptRepo, script, sub);
      ClosureSeesDynamic(scriptRepo, script, sub);
      names, dynamic := names + sub.names, dynamic + sub.dynamic;
    }
    HitsMeanClients(names);
    l := LabelOf(names, dynamic);
  }
}
