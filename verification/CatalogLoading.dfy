/** Which catalogs load_catalog accepts. */
module CatalogLoading {
  import opened Wrappers
  import opened PackageAlgebra
  import opened FlavorBuild
  import opened FlavorConfig
  import opened CatalogCycles

  datatype CatalogError =
    | NoGroups
    | NoPackages
    | UnknownDependency
    | DependencyCycle(path: seq<Name>)
    | UnknownMember
    | NoImmutableGroup
    | Unreachable(packages: set<Name>)

  /** The packages that some group brings along. */
  ghost function Reachable(cat: Catalog): set<Name> {
    Closure(cat, MembersOf(cat, cat.groupDefs.Keys))
  }

  /** A package is out of reach exactly if some closed set has the members of all groups, but not it. */
  lemma ReachableMeans(cat: Catalog, p: Name)
    requires cat.Valid()
    ensures p in Reachable(cat) <==>
      p in cat.Known() && forall t :: Closed(cat, t) && (forall g, m :: MemberOf(cat, g, m) ==> m in t) ==> p in t
  {
    var members := MembersOf(cat, cat.groupDefs.Keys);
    MembersAreKnown(cat, cat.groupDefs.Keys);
    ClosureIsLeast(cat, members);
    hide Closed;
    forall t
      ensures members <= t <==> forall g, m :: MemberOf(cat, g, m) ==> m in t
    {
      AllMembersIn(cat, t);
    }
  }

  lemma AllMembersIn(cat: Catalog, t: set<Name>)
    ensures MembersOf(cat, cat.groupDefs.Keys) <= t <==> forall g, m :: MemberOf(cat, g, m) ==> m in t
  {
    forall p
      ensures p in MembersOf(cat, cat.groupDefs.Keys) <==> exists g :: g in cat.groupDefs.Keys && MemberOf(cat, g, p)
    {
      MembersMean(cat, cat.groupDefs.Keys, p);
    }
  }

  ghost predicate Accepted(cat: Catalog) {
    && cat.Valid() && cat.groups != [] && cat.packages != []
    && Acyclic(cat.packageDefs)
    && ImmutableGroups(cat) != {}
    && Reachable(cat) == cat.Known()
  }

  method AllDependenciesKnown(cat: Catalog) returns (ok: bool)
    requires cat.Listed()
    ensures ok <==> cat.DependenciesKnown()
  {
    for i := 0 to |cat.packages|
      invariant forall p, d :: p in cat.packages[..i] && d in cat.packageDefs[p].depends ==> d in cat.packageDefs
    {
      var p := cat.packages[i];
      assert p in cat.packageDefs;
      if exists d :: d in cat.packageDefs[p].depends && d !in cat.packageDefs {
        return false;
      }
      assert cat.packages[..i + 1] == cat.packages[..i] + [p];
    }
    assert cat.packages[..|cat.packages|] == cat.packages;
    ok := true;
  }

  method AllMembersKnown(cat: Catalog) returns (ok: bool)
    requires cat.Listed()
    ensures ok <==> cat.MembersKnown()
  {
    for i := 0 to |cat.groups|
      invariant forall g, m :: g in cat.groups[..i] && m in cat.groupDefs[g].members ==> m in cat.packageDefs
    {
      var g := cat.groups[i];
      assert g in cat.groupDefs;
      if exists m :: m in cat.groupDefs[g].members && m !in cat.packageDefs {
        return false;
      }
      assert cat.groups[..i + 1] == cat.groups[..i] + [g];
    }
    assert cat.groups[..|cat.groups|] == cat.groups;
    ok := true;
  }

  /** What is wrong with the package table, if anything. */
  method CheckPackages(cat: Catalog) returns (e: Option<CatalogError>)
    requires cat.Listed()
    ensures
      if !cat.DependenciesKnown() then e == Some(UnknownDependency)
      else if !Acyclic(cat.packageDefs)
      then e.Some? && e.value.DependencyCycle? && IsCycle(cat.packageDefs, e.value.path)
      else e == None
  {
    var known := AllDependenciesKnown(cat);
    if !known {
      return Some(UnknownDependency);
    }
    var cycle := CheckCycles(cat.packageDefs, cat.packages);
    e := if cycle.Some? then Some(DependencyCycle(cycle.value)) else None;
  }

  lemma Nothing(all: set<Name>, some: set<Name>)
    requires some <= all && all - some == {}
    ensures some == all
  {
    assert all == some + (all - some);
  }

  /** What is wrong with the group table, if anything, once the package table is right. */
  method CheckGroups(cat: Catalog) returns (e: Option<CatalogError>)
    requires cat.Listed() && cat.DependenciesKnown()
    ensures
      if !cat.MembersKnown() then e == Some(UnknownMember)
      else if ImmutableGroups(cat) == {} then e == Some(NoImmutableGroup)
      else if Reachable(cat) != cat.Known() then e == Some(Unreachable(cat.Known() - Reachable(cat)))
      else e == None
  {
    var known := AllMembersKnown(cat);
    if !known {
      return Some(UnknownMember);
    }
    if ImmutableGroups(cat) == {} {
      return Some(NoImmutableGroup);
    }
    var reachable := DependencyClosure(cat, MembersOf(cat, cat.groupDefs.Keys));
    ClosureIsLeast(cat, MembersOf(cat, cat.groupDefs.Keys));
    var missing := cat.Known() - reachable.value;
    if missing == {} {
      assert Reachable(cat) == cat.Known() by {
        Nothing(cat.Known(), Reachable(cat));
      }
      return None;
    }
    e := Some(Unreachable(missing));
  }

  /**
   The checks of load_catalog, in its order: it accepts exactly the catalogs on
   which nothing can be missing, circular or out of reach, and says what is wrong.
   */
  method LoadCatalog(cat: Catalog) returns (e: Option<CatalogError>)
    requires cat.Listed()
    ensures e == None <==> Accepted(cat)
    ensures
      if cat.groups == [] then e == Some(NoGroups)
      else if cat.packages == [] then e == Some(NoPackages)
      else if !cat.DependenciesKnown() then e == Some(UnknownDependency)
      else if !Acyclic(cat.packageDefs)
      then e.Some? && e.value.DependencyCycle? && IsCycle(cat.packageDefs, e.value.path)
      else if !cat.MembersKnown() then e == Some(UnknownMember)
      else if ImmutableGroups(cat) == {} then e == Some(NoImmutableGroup)
      else if Reachable(cat) != cat.Known() then e == Some(Unreachable(cat.Known() - Reachable(cat)))
      else e == None
  {
    if cat.groups == [] {
      return Some(NoGroups);
    }
    if cat.packages == [] {
      return Some(NoPackages);
    }
    e := CheckPackages(cat);
    if e == None {
      e := CheckGroups(cat);
    }
  }
}
