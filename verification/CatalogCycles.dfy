/** The depth-first search by which load_catalog rejects cyclic package dependencies. */
module CatalogCycles {
  import opened Wrappers
  import opened PackageAlgebra
  import opened FlavorBuild

  type Defs = map<Name, PackageDef>

  predicate Depends(defs: Defs, p: Name, q: Name) {
    p in defs && q in defs[p].depends
  }

  /** Each element depends on the next. */
  ghost predicate Chain(defs: Defs, path: seq<Name>) {
    forall i :: 0 <= i < |path| - 1 ==> Depends(defs, path[i], path[i + 1])
  }

  ghost predicate IsCycle(defs: Defs, path: seq<Name>) {
    |path| >= 2 && path[0] == path[|path| - 1] && Chain(defs, path)
  }

  ghost predicate Acyclic(defs: Defs) {
    forall path :: !IsCycle(defs, path)
  }

  /** A ranking under which every ranked package outranks its dependencies. */
  ghost predicate Ranked(defs: Defs, rank: map<Name, nat>) {
    forall p, q :: p in rank && Depends(defs, p, q) ==> q in rank && rank[q] < rank[p]
  }

  lemma {:induction false} RanksFall(defs: Defs, rank: map<Name, nat>, path: seq<Name>, n: nat)
    requires Ranked(defs, rank) && Chain(defs, path) && n < |path| && path[0] in rank
    ensures path[n] in rank
    ensures n > 0 ==> rank[path[n]] < rank[path[0]]
  {
    if n > 0 {
      RanksFall(defs, rank, path, n - 1);
      assert Depends(defs, path[n - 1], path[n - 1 + 1]);
    }
  }

  /** A ranking of all packages leaves no room for a cycle. */
  lemma RankedIsAcyclic(defs: Defs, rank: map<Name, nat>)
    requires Ranked(defs, rank) && defs.Keys <= rank.Keys
    ensures Acyclic(defs)
  {
    forall path | IsCycle(defs, path)
      ensures false
    {
      assert Depends(defs, path[0], path[0 + 1]);
      RanksFall(defs, rank, path, |path| - 1);
    }
  }

  /** Between calls: `visiting` is the path stack, and what is visited can be ranked. */
  ghost predicate SearchOk(defs: Defs, visiting: set<Name>, visited: set<Name>, rank: map<Name, nat>, path: seq<Name>) {
    && visiting == Elements(path) && visiting <= defs.Keys && visiting !! visited
    && Chain(defs, path)
    && visited == rank.Keys && Ranked(defs, rank)
    && (forall p :: p in rank ==> rank[p] < |rank|)
  }

  ghost predicate SelfContained(defs: Defs) {
    forall p, d :: p in defs && d in defs[p].depends ==> d in defs
  }

  lemma Entering(defs: Defs, visiting: set<Name>, visited: set<Name>, rank: map<Name, nat>, path: seq<Name>, p: Name)
    requires SearchOk(defs, visiting, visited, rank, path) && p in defs && p !in visiting && p !in visited
    requires path != [] ==> Depends(defs, path[|path| - 1], p)
    ensures SearchOk(defs, visiting + {p}, visited, rank, path + [p])
    ensures |defs.Keys - (visiting + {p})| < |defs.Keys - visiting|
  {
    assert Elements(path + [p]) == Elements(path) + {p};
    assert defs.Keys - visiting == (defs.Keys - (visiting + {p})) + {p};
    var longer := path + [p];
    forall i | 0 <= i < |longer| - 1
      ensures Depends(defs, longer[i], longer[i + 1])
    {
      assert i < |path| - 1 ==> longer[i] == path[i] && longer[i + 1] == path[i + 1];
    }
  }

  lemma RankLast(defs: Defs, rank: map<Name, nat>, p: Name)
    requires Ranked(defs, rank) && (forall q :: q in rank ==> rank[q] < |rank|)
    requires p in defs && p !in rank && forall d :: d in defs[p].depends ==> d in rank
    ensures var r := rank[p := |rank|]; Ranked(defs, r) && (forall q :: q in r ==> r[q] < |r|)
  {
    assert |rank[p := |rank|]| == |rank| + 1;
  }

  lemma Shorter(defs: Defs, path: seq<Name>, p: Name)
    requires Chain(defs, path + [p]) && p !in path
    ensures Chain(defs, path) && Elements(path + [p]) - {p} == Elements(path)
  {
    assert Elements(path + [p]) == Elements(path) + {p};
    forall i | 0 <= i < |path| - 1
      ensures Depends(defs, path[i], path[i + 1])
    {
      assert Depends(defs, (path + [p])[i], (path + [p])[i + 1]);
    }
  }

  lemma Leaving(defs: Defs, visiting: set<Name>, visited: set<Name>, rank: map<Name, nat>, path: seq<Name>, p: Name)
    requires SearchOk(defs, visiting, visited, rank, path + [p]) && p in defs && p !in path
    requires forall d :: d in defs[p].depends ==> d in visited
    ensures SearchOk(defs, visiting - {p}, visited + {p}, rank[p := |rank|], path)
  {
    assert p in visiting by { assert p == (path + [p])[|path|]; }
    RankLast(defs, rank, p);
    Shorter(defs, path, p);
  }

  lemma CycleClosed(defs: Defs, path: seq<Name>, start: nat, p: Name)
    requires Chain(defs, path) && start < |path| && path[start] == p
    requires Depends(defs, path[|path| - 1], p)
    ensures IsCycle(defs, path[start..] + [p])
  {
    var c := path[start..] + [p];
    forall i | 0 <= i < |c| - 1
      ensures Depends(defs, c[i], c[i + 1])
    {
      assert c[i] == path[start + i];
      assert i < |c| - 2 ==> c[i + 1] == path[start + i + 1] && Depends(defs, path[start + i], path[start + i + 1]);
    }
  }

  method IndexOf(path: seq<Name>, p: Name) returns (n: nat)
    requires p in path
    ensures n < |path| && path[n] == p && p !in path[..n]
  {
    n := 0;
    while path[n] != p
      invariant n < |path| && p !in path[..n]
      decreases |path| - n
    {
      n := n + 1;
    }
  }

  /** The part of the path stack from the package that was met again. */
  method CycleFrom(defs: Defs, path: seq<Name>, p: Name) returns (cycle: seq<Name>)
    requires Chain(defs, path) && p in path && Depends(defs, path[|path| - 1], p)
    ensures IsCycle(defs, cycle) && cycle[0] == p
  {
    var start := IndexOf(path, p);
    CycleClosed(defs, path, start, p);
    cycle := path[start..] + [p];
  }

  /** The sets the search keeps, and a ghost ranking by the time a package was finished. */
  class Search {
    const defs: Defs
    var visiting: set<Name>
    var visited: set<Name>
    ghost var rank: map<Name, nat>

    ghost predicate Valid(path: seq<Name>)
      reads this
    {
      SearchOk(defs, visiting, visited, rank, path) && SelfContained(defs)
    }

    constructor (defs: Defs)
      requires SelfContained(defs)
      ensures Valid([]) && this.defs == defs && visited == {}
    {
      this.defs := defs;
      visiting, visited, rank := {}, {}, map[];
    }

    method Visit(package: Name, path: seq<Name>) returns (cycle: Option<seq<Name>>)
      requires Valid(path) && package in defs
      requires path != [] ==> Depends(defs, path[|path| - 1], package)
      modifies this
      ensures cycle.None? ==> Valid(path) && visiting == old(visiting) && old(visited) + {package} <= visited
      ensures cycle.Some? ==> IsCycle(defs, cycle.value)
      decreases |defs.Keys - visiting|, 0
    {
      if package in visited {
        return None;
      }
      if package in visiting {
        var found := CycleFrom(defs, path, package);
        return Some(found);
      }
      Entering(defs, visiting, visited, rank, path, package);
      visiting := visiting + {package};
      cycle := VisitDependencies(package, path + [package]);
      if cycle.Some? {
        return;
      }
      Leaving(defs, visiting, visited, rank, path, package);
      visiting := visiting - {package};
      visited := visited + {package};
      rank := rank[package := |rank|];
    }

    method VisitDependencies(package: Name, path: seq<Name>) returns (cycle: Option<seq<Name>>)
      requires Valid(path) && package in defs && path != [] && path[|path| - 1] == package
      modifies this
      ensures cycle.None? ==> Valid(path) && visiting == old(visiting) && old(visited) <= visited
      ensures cycle.None? ==> forall d :: d in defs[package].depends ==> d in visited
      ensures cycle.Some? ==> IsCycle(defs, cycle.value)
      decreases |defs.Keys - visiting|, 1
    {
      hide SearchOk, Ranked, Chain, IsCycle;
      var deps := defs[package].depends;
      for i := 0 to |deps|
        invariant Valid(path) && visiting == old(visiting) && old(visited) <= visited
        invariant forall k :: 0 <= k < i ==> deps[k] in visited
      {
        assert Depends(defs, package, deps[i]);
        cycle := Visit(deps[i], path);
        if cycle.Some? {
          return;
        }
      }
      cycle := None;
    }
  }

  /**
   The catalog is accepted exactly when its dependencies are acyclic, and a
   rejection shows a real cycle.
   */
  method CheckCycles(defs: Defs, packages: seq<Name>) returns (cycle: Option<seq<Name>>)
    requires SelfContained(defs)
    requires Elements(packages) == defs.Keys
    ensures cycle.None? <==> Acyclic(defs)
    ensures cycle.Some? ==> IsCycle(defs, cycle.value)
  {
    cycle := None;
    var search := new Search(defs);
    for i := 0 to |packages|
      invariant search.Valid([]) && search.defs == defs && cycle == None
      invariant Elements(packages[..i]) <= search.visited
    {
      ElementsSnoc(packages, i);
      assert packages[i] in Elements(packages);
      cycle := search.Visit(packages[i], []);
      if cycle.Some? {
        return;
      }
    }
    assert packages[..|packages|] == packages;
    RankedIsAcyclic(defs, search.rank);
  }
}
