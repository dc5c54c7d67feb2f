/**
 Packages, their dependencies, and the two set operations that selection is
 made of: the least dependency-closed superset of a choice and the largest
 dependency-closed subset that a board supports.
 */
module PackageAlgebra {
  type Name = string

  datatype PackageDef = PackageDef(
    depends: seq<Name>,
    targets: seq<string>,
    capabilities: seq<string>,
    anyCapabilities: seq<string>)

  datatype GroupDef = GroupDef(hidden: bool, immutable: bool, members: seq<Name>)

  datatype Catalog = Catalog(
    groups: seq<Name>,
    packages: seq<Name>,
    groupDefs: map<Name, GroupDef>,
    packageDefs: map<Name, PackageDef>)
  {
    function Known(): set<Name> { packageDefs.Keys }

    /** The two tuples list the keys of the two tables, each once. */
    ghost predicate Listed() {
      && (forall p :: p in packages <==> p in packageDefs)
      && (forall i, j :: 0 <= i < j < |packages| ==> packages[i] != packages[j])
      && (forall g :: g in groups <==> g in groupDefs)
      && (forall i, j :: 0 <= i < j < |groups| ==> groups[i] != groups[j])
    }

    ghost predicate DependenciesKnown() {
      forall p, d :: p in packageDefs && d in packageDefs[p].depends ==> d in packageDefs
    }

    ghost predicate MembersKnown() {
      forall g, m :: g in groupDefs && m in groupDefs[g].members ==> m in packageDefs
    }

    /** As much of what load_catalog guarantees as the results on selection rest on. */
    ghost predicate Valid() {
      Listed() && DependenciesKnown() && MembersKnown()
    }
  }

  function Elements(s: seq<Name>): set<Name> {
    set x | x in s
  }

  // ----- closure -----

  /** Every dependency of a member is a member. */
  ghost predicate Closed(cat: Catalog, s: set<Name>) {
    && s <= cat.Known()
    && (forall p, d :: p in s && d in cat.packageDefs[p].depends ==> d in s)
  }

  /** The packages that no dependency-closed superset of `s` can do without. */
  ghost function Closure(cat: Catalog, s: set<Name>): set<Name> {
    set q | q in cat.Known() && forall t :: Closed(cat, t) && s <= t ==> q in t
  }

  /** It is itself such a superset, so it is the least one. */
  lemma ClosureIsLeast(cat: Catalog, s: set<Name>)
    requires cat.Valid() && s <= cat.Known()
    ensures s <= Closure(cat, s) && Closed(cat, Closure(cat, s))
    ensures forall t :: Closed(cat, t) && s <= t ==> Closure(cat, s) <= t
  {
    var c := Closure(cat, s);
    forall p, d | p in c && d in cat.packageDefs[p].depends
      ensures d in c
    {
      forall t | Closed(cat, t) && s <= t
        ensures d in t
      {
        assert p in t;
      }
    }
  }

  lemma ClosureUnique(cat: Catalog, s: set<Name>, r: set<Name>)
    requires cat.Valid() && s <= cat.Known()
    requires s <= r && Closed(cat, r) && r <= Closure(cat, s)
    ensures r == Closure(cat, s)
  {
    ClosureIsLeast(cat, s);
  }

  /** Closing a union closes its parts. */
  lemma ClosureOfUnion(cat: Catalog, s: set<Name>, t: set<Name>)
    requires cat.Valid() && s <= cat.Known() && t <= cat.Known()
    ensures Closure(cat, s + t) == Closure(cat, s) + Closure(cat, t)
  {
    ClosureIsLeast(cat, s);
    ClosureIsLeast(cat, t);
    ClosureIsLeast(cat, s + t);
    hide Closure;
    var both := Closure(cat, s) + Closure(cat, t);
    assert Closed(cat, both) && s + t <= both;
    assert Closed(cat, Closure(cat, s + t)) && s <= Closure(cat, s + t) && t <= Closure(cat, s + t);
  }

  /** Closing in stages is closing at once. */
  lemma ClosureAbsorbs(cat: Catalog, s: set<Name>, t: set<Name>)
    requires cat.Valid() && s <= cat.Known() && t <= cat.Known()
    ensures Closure(cat, Closure(cat, s) + t) == Closure(cat, s + t)
  {
    ClosureIsLeast(cat, s);
    ClosureIsLeast(cat, s + t);
    ClosureIsLeast(cat, Closure(cat, s) + t);
  }

  // ----- pruning -----

  /** The packages of `e` that need nothing outside `e` and `ok`. */
  ghost function Prune(cat: Catalog, e: set<Name>, ok: set<Name>): set<Name> {
    set p | p in e && p in cat.Known() && Closure(cat, {p}) <= e * ok
  }

  /** Pruning leaves the largest dependency-closed set of supported packages. */
  lemma PruneIsGreatest(cat: Catalog, e: set<Name>, ok: set<Name>)
    requires cat.Valid()
    ensures Prune(cat, e, ok) <= e * ok && Closed(cat, Prune(cat, e, ok))
    ensures forall t :: Closed(cat, t) && t <= e * ok ==> t <= Prune(cat, e, ok)
  {
    var r := Prune(cat, e, ok);
    forall p | p in r
      ensures p in e * ok
      ensures forall d :: d in cat.packageDefs[p].depends ==> d in r
    {
      ClosureIsLeast(cat, {p});
      forall d | d in cat.packageDefs[p].depends
        ensures d in r
      {
        ClosureIsLeast(cat, {d});
        assert d in Closure(cat, {p});
      }
    }
    forall t | Closed(cat, t) && t <= e * ok
      ensures t <= r
    {
      forall p | p in t
        ensures p in r
      {
        ClosureIsLeast(cat, {p});
      }
    }
  }

  lemma PruneUnique(cat: Catalog, e: set<Name>, ok: set<Name>, r: set<Name>)
    requires cat.Valid() && r <= e * ok && Closed(cat, r)
    requires Prune(cat, e, ok) <= r
    ensures r == Prune(cat, e, ok)
  {
    PruneIsGreatest(cat, e, ok);
  }

  /** Two pruning passes amount to one with both conditions, so they commute. */
  lemma PrunesCombine(cat: Catalog, e: set<Name>, ok1: set<Name>, ok2: set<Name>)
    requires cat.Valid()
    ensures Prune(cat, Prune(cat, e, ok1), ok2) == Prune(cat, e, ok1 * ok2)
    ensures Prune(cat, Prune(cat, e, ok1), ok2) == Prune(cat, Prune(cat, e, ok2), ok1)
  {
    PruneIsGreatest(cat, e, ok1);
    PruneIsGreatest(cat, e, ok2);
    PruneIsGreatest(cat, Prune(cat, e, ok1), ok2);
    PruneIsGreatest(cat, Prune(cat, e, ok2), ok1);
    PruneIsGreatest(cat, e, ok1 * ok2);
    assert ok1 * ok2 == ok2 * ok1;
  }

  /** Whether a package of a closed set survives depends on that package alone. */
  lemma PruneIsLocal(cat: Catalog, e: set<Name>, ok: set<Name>, p: Name)
    requires cat.Valid() && Closed(cat, e) && p in e
    ensures p in Prune(cat, e, ok) <==> Closure(cat, {p}) <= ok
  {
    ClosureIsLeast(cat, {p});
  }

  /** The packages that can be on at all where only `ok` is supported. */
  ghost function Usable(cat: Catalog, ok: set<Name>): set<Name> {
    Prune(cat, cat.Known(), ok)
  }

  lemma PruneKeepsUsable(cat: Catalog, e: set<Name>, ok: set<Name>)
    requires cat.Valid() && Closed(cat, e)
    ensures Prune(cat, e, ok) == e * Usable(cat, ok)
  {
    assert Closed(cat, cat.Known());
    forall p | p in e
      ensures p in Prune(cat, e, ok) <==> p in Usable(cat, ok)
    {
      PruneIsLocal(cat, e, ok, p);
      PruneIsLocal(cat, cat.Known(), ok, p);
    }
  }

  /**
   Two choices with a common part come to the same selection exactly when every
   usable package that either one's own part brings in comes with the other too.
   */
  lemma SelectionsAgree(cat: Catalog, common: set<Name>, a: set<Name>, b: set<Name>, ok: set<Name>)
    requires cat.Valid() && common + a + b <= cat.Known()
    ensures Prune(cat, Closure(cat, common + a), ok) == Prune(cat, Closure(cat, common + b), ok)
       <==> && Usable(cat, ok) * Closure(cat, a) <= Closure(cat, common + b)
            && Usable(cat, ok) * Closure(cat, b) <= Closure(cat, common + a)
  {
    ClosureOfUnion(cat, common, a);
    ClosureOfUnion(cat, common, b);
    ClosureIsLeast(cat, common + a);
    ClosureIsLeast(cat, common + b);
    PruneKeepsUsable(cat, Closure(cat, common + a), ok);
    PruneKeepsUsable(cat, Closure(cat, common + b), ok);
    SameMeets(Closure(cat, common), Closure(cat, a), Closure(cat, b), Usable(cat, ok));
  }

  lemma SameMeets(c: set<Name>, a: set<Name>, b: set<Name>, u: set<Name>)
    ensures (c + a) * u == (c + b) * u <==> u * a <= c + b && u * b <= c + a
  {
    if (c + a) * u == (c + b) * u {
      forall x | x in u * a
        ensures x in c + b
      {
        assert x in (c + a) * u;
      }
      forall x | x in u * b
        ensures x in c + a
      {
        assert x in (c + b) * u;
      }
    }
  }

  // ----- board support -----

  function CapabilitiesSupported(required: seq<string>, anyRequired: seq<string>, available: set<string>): bool {
    if exists c :: c in required && c !in available then false
    else if anyRequired != [] && !(exists c :: c in anyRequired && c in available) then false
    else true
  }

  predicate TargetFits(def: PackageDef, target: string) {
    def.targets == [] || target in def.targets
  }

  function OnTarget(cat: Catalog, target: string): set<Name> {
    set p | p in cat.Known() && TargetFits(cat.packageDefs[p], target)
  }

  function OnBoard(cat: Catalog, available: set<string>): set<Name> {
    set p | p in cat.Known()
            && CapabilitiesSupported(cat.packageDefs[p].capabilities, cat.packageDefs[p].anyCapabilities, available)
  }

  // ----- what it takes to stay on -----

  /** The board has every capability the package needs, and one of those of which it needs any. */
  ghost predicate MeetsBoard(def: PackageDef, available: set<string>) {
    && (forall c :: c in def.capabilities ==> c in available)
    && (def.anyCapabilities != [] ==> exists c :: c in def.anyCapabilities && c in available)
  }

  /** The package names no targets, or this one. */
  ghost predicate MeetsTarget(def: PackageDef, target: string) {
    def.targets != [] ==> target in def.targets
  }

  /** A package and everything it needs is in `e` and meets the board. */
  ghost predicate RunsOnBoard(cat: Catalog, e: set<Name>, available: set<string>, p: Name) {
    p in e && forall q :: q in Closure(cat, {p}) ==> q in e && MeetsBoard(cat.packageDefs[q], available)
  }

  ghost predicate RunsOnTarget(cat: Catalog, e: set<Name>, target: string, p: Name) {
    p in e && forall q :: q in Closure(cat, {p}) ==> q in e && MeetsTarget(cat.packageDefs[q], target)
  }

  lemma BoardPruningMeans(cat: Catalog, e: set<Name>, available: set<string>)
    requires cat.Valid() && e <= cat.Known()
    ensures forall p :: p in Prune(cat, e, OnBoard(cat, available)) <==> RunsOnBoard(cat, e, available, p)
  {
    forall p | p in e
      ensures p in Prune(cat, e, OnBoard(cat, available)) <==> RunsOnBoard(cat, e, available, p)
    {
      forall q | q in cat.Known()
        ensures q in OnBoard(cat, available) <==> MeetsBoard(cat.packageDefs[q], available)
      {
      }
    }
  }

  lemma TargetPruningMeans(cat: Catalog, e: set<Name>, target: string)
    requires cat.Valid() && e <= cat.Known()
    ensures forall p :: p in Prune(cat, e, OnTarget(cat, target)) <==> RunsOnTarget(cat, e, target, p)
  {
  }

  /** Of a closed set both prunings keep what, with all it needs, meets target and board. */
  ghost predicate Runs(cat: Catalog, e: set<Name>, target: string, available: set<string>, p: Name) {
    p in e && forall q :: q in Closure(cat, {p}) ==>
      q in cat.Known() && MeetsTarget(cat.packageDefs[q], target) && MeetsBoard(cat.packageDefs[q], available)
  }

  lemma BothPruningsMean(cat: Catalog, e: set<Name>, target: string, available: set<string>)
    requires cat.Valid() && Closed(cat, e)
    ensures forall p :: p in Prune(cat, Prune(cat, e, OnTarget(cat, target)), OnBoard(cat, available))
                   <==> Runs(cat, e, target, available, p)
  {
    var ok := OnTarget(cat, target) * OnBoard(cat, available);
    PrunesCombine(cat, e, OnTarget(cat, target), OnBoard(cat, available));
    forall p | p in e
      ensures p in Prune(cat, e, ok) <==> Runs(cat, e, target, available, p)
    {
      PruneIsLocal(cat, e, ok, p);
      forall q | q in cat.Known()
        ensures q in ok <==> MeetsTarget(cat.packageDefs[q], target) && MeetsBoard(cat.packageDefs[q], available)
      {
      }
    }
  }

  /** A board that has more never runs less. */
  lemma MoreCapabilitiesKeepMore(cat: Catalog, e: set<Name>, target: string, less: set<string>, more: set<string>)
    requires cat.Valid() && Closed(cat, e) && less <= more
    ensures Prune(cat, Prune(cat, e, OnTarget(cat, target)), OnBoard(cat, less))
         <= Prune(cat, Prune(cat, e, OnTarget(cat, target)), OnBoard(cat, more))
  {
    BothPruningsMean(cat, e, target, less);
    BothPruningsMean(cat, e, target, more);
    hide Prune, OnTarget, OnBoard;
    forall p | Runs(cat, e, target, less, p)
      ensures Runs(cat, e, target, more, p)
    {
    }
  }
}
