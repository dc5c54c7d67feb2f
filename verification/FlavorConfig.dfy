/** The configurator's side of package selection: closure, choices, saving and loading. */
module FlavorConfig {
  import opened Wrappers
  import opened PackageAlgebra
  import opened FlavorBuild

  datatype ModelError = BadLayout | KeyError | Unavailable

  // ----- dependency_closure -----

  /** Dependencies of a popped package that are new join the result and the worklist. */
  method AddDependencies(cat: Catalog, p: Name, result: set<Name>, pending: seq<Name>, ghost bound: set<Name>)
    returns (r: set<Name>, rest: seq<Name>)
    requires cat.Valid() && p in cat.Known() && p in bound && CarriesDependencies(cat, bound)
    requires result <= bound && Elements(pending) <= result
    ensures result <= r <= bound && r - result <= Elements(rest)
    ensures Elements(pending) <= Elements(rest) <= r
    ensures Elements(cat.packageDefs[p].depends) <= r
    ensures r - result <= cat.Known()
    ensures r == result ==> rest == pending
  {
    var deps := cat.packageDefs[p].depends;
    r, rest := result, pending;
    for i := 0 to |deps|
      invariant result <= r <= bound && r - result <= Elements(rest) && r - result <= cat.Known()
      invariant Elements(pending) <= Elements(rest) <= r
      invariant Elements(deps[..i]) <= r
      invariant r == result ==> rest == pending
    {
      ElementsSnoc(deps, i);
      if deps[i] !in r {
        assert Elements(rest + [deps[i]]) == Elements(rest) + {deps[i]};
        r, rest := r + {deps[i]}, rest + [deps[i]];
      }
    }
    assert deps[..|deps|] == deps;
  }

  ghost predicate CarriesDependencies(cat: Catalog, bound: set<Name>) {
    forall q, d :: q in bound && q in cat.Known() && d in cat.packageDefs[q].depends ==> d in bound
  }

  /** Between two pops: everything found but no longer pending is known and has its dependencies found. */
  ghost predicate ExploreOk(cat: Catalog, packages: set<Name>, bound: set<Name>, found: set<Name>, pending: set<Name>) {
    && packages <= found <= bound && pending <= found <= packages + cat.Known()
    && found - pending <= cat.Known() && DemandsMet(cat, found - pending, found)
  }

  lemma Exploring(cat: Catalog, packages: set<Name>, bound: set<Name>, found: set<Name>, others: set<Name>, p: Name,
                  r: set<Name>, rest: set<Name>)
    requires ExploreOk(cat, packages, bound, found, others + {p}) && p in cat.Known()
    requires found <= r <= bound && r - found <= rest && r - found <= cat.Known()
    requires others <= rest <= r && Elements(cat.packageDefs[p].depends) <= r
    ensures ExploreOk(cat, packages, bound, r, rest)
  {
    forall q | q in r - rest
      ensures q in cat.Known() && (q == p || q in found - (others + {p}))
    {
    }
  }

  /** One pop of the worklist, for a known package. */
  method ExploreOne(cat: Catalog, found: set<Name>, pending: seq<Name>, ghost packages: set<Name>,
                    ghost bound: set<Name>)
    returns (r: set<Name>, rest: seq<Name>)
    requires cat.Valid() && CarriesDependencies(cat, bound) && pending != []
    requires ExploreOk(cat, packages, bound, found, Elements(pending)) && pending[|pending| - 1] in cat.Known()
    ensures ExploreOk(cat, packages, bound, r, Elements(rest))
    ensures |bound - r| < |bound - found| || (r == found && |rest| < |pending|)
  {
    var p, others := pending[|pending| - 1], pending[..|pending| - 1];
    PopElement(pending);
    r, rest := AddDependencies(cat, p, found, others, bound);
    Exploring(cat, packages, bound, found, Elements(others), p, r, Elements(rest));
    if r != found {
      SmallerDifference(bound, found, r);
    }
  }

  lemma PopElement(q: seq<Name>)
    requires q != []
    ensures Elements(q) == Elements(q[..|q| - 1]) + {q[|q| - 1]}
  {
    ElementsSnoc(q, |q| - 1);
    assert q[..|q|] == q;
  }

  method Explore(cat: Catalog, packages: set<Name>, ghost bound: set<Name>)
    returns (ok: bool, result: set<Name>)
    requires cat.Valid() && packages <= bound && CarriesDependencies(cat, bound)
    ensures ok ==> ExploreOk(cat, packages, bound, result, {})
    ensures !ok ==> !(packages <= cat.Known())
  {
    result, ok := packages, true;
    var pending := ListOf(packages);
    while pending != []
      invariant ExploreOk(cat, packages, bound, result, Elements(pending))
      decreases |bound - result|, |pending|
    {
      var p := pending[|pending| - 1];
      if p !in cat.Known() {
        assert p in Elements(pending);
        return false, result;
      }
      result, pending := ExploreOne(cat, result, pending, packages, bound);
    }
    assert Elements(pending) == {};
  }

  /** dependency_closure: the least closed superset, or a KeyError for an unknown name. */
  method DependencyClosure(cat: Catalog, packages: set<Name>) returns (r: Result<set<Name>, ModelError>)
    requires cat.Valid()
    ensures packages <= cat.Known() ==> r == Success(Closure(cat, packages))
    ensures !(packages <= cat.Known()) ==> r == Failure(KeyError)
  {
    ghost var bound := if packages <= cat.Known() then Closure(cat, packages) else packages + cat.Known();
    if packages <= cat.Known() {
      ClosureIsLeast(cat, packages);
    }
    var ok, result := Explore(cat, packages, bound);
    if !ok {
      return Failure(KeyError);
    }
    assert result - {} == result;
    DemandsClose(cat, {}, result);
    ClosureUnique(cat, packages, result);
    r := Success(result);
  }

  // ----- specification of the model -----

  ghost function ImmutableClosure(cat: Catalog): set<Name> {
    Closure(cat, ImmutableMembers(cat))
  }

  /** _resolve: the closure of a choice, pruned to what the board supports. */
  ghost function Resolve(cat: Catalog, s: set<Name>, target: string, caps: Option<set<string>>): set<Name> {
    var c := Closure(cat, s);
    if target == "" || caps.None? then c
    else Prune(cat, Prune(cat, c, OnTarget(cat, target)), OnBoard(cat, caps.value))
  }

  function LayoutNeeds(layout: Option<string>): set<Name> {
    if layout == Some("ota") then {LAYOUT_PACKAGE} else {}
  }

  ghost function Mandatory(cat: Catalog, required: set<Name>, layout: Option<string>): set<Name> {
    Closure(cat, ImmutableClosure(cat) + required + LayoutNeeds(layout))
  }

  ghost predicate HasImmutables(cat: Catalog, t: set<Name>) {
    forall g, p :: MemberOf(cat, g, p) && cat.groupDefs[g].immutable ==> p in t
  }

  lemma ImmutableMembersMean(cat: Catalog, t: set<Name>)
    ensures ImmutableMembers(cat) <= t <==> HasImmutables(cat, t)
  {
    forall p
      ensures p in ImmutableMembers(cat) <==> exists g :: g in ImmutableGroups(cat) && MemberOf(cat, g, p)
    {
      MembersMean(cat, ImmutableGroups(cat), p);
    }
    if ImmutableMembers(cat) <= t {
      forall g, p | MemberOf(cat, g, p) && cat.groupDefs[g].immutable
        ensures p in t
      {
        assert g in ImmutableGroups(cat);
      }
    }
  }

  /** The package sets with all immutable groups, the board's packages and the one of over-the-air updates. */
  ghost predicate HasMandatory(cat: Catalog, required: set<Name>, layout: Option<string>, t: set<Name>) {
    Closed(cat, t) && HasImmutables(cat, t) && required <= t && (layout == Some("ota") ==> "service_ota" in t)
  }

  /** What is mandatory is the least such set. */
  lemma MandatoryMeans(cat: Catalog, required: set<Name>, layout: Option<string>)
    requires cat.Valid() && required <= cat.Known() && (layout == Some("ota") ==> "service_ota" in cat.Known())
    ensures HasMandatory(cat, required, layout, Mandatory(cat, required, layout))
    ensures forall t :: HasMandatory(cat, required, layout, t) ==> Mandatory(cat, required, layout) <= t
  {
    hide Closure, ImmutableMembers;
    ImmutablesKnown(cat);
    ClosureIsLeast(cat, ImmutableMembers(cat));
    var seeds := ImmutableClosure(cat) + required + LayoutNeeds(layout);
    ClosureIsLeast(cat, seeds);
    hide Closed, HasImmutables;
    ImmutableMembersMean(cat, Mandatory(cat, required, layout));
    forall t | HasMandatory(cat, required, layout, t)
      ensures Mandatory(cat, required, layout) <= t
    {
      ImmutableMembersMean(cat, t);
    }
  }

  lemma ImmutablesKnown(cat: Catalog)
    requires cat.Valid()
    ensures ImmutableMembers(cat) <= cat.Known()
    ensures ImmutableMembers(cat) <= ImmutableClosure(cat) <= cat.Known()
  {
    ClosureIsLeast(cat, ImmutableMembers(cat));
  }

  // ----- SelectionModel -----

  method ResolveChoice(cat: Catalog, s: set<Name>, target: string, caps: Option<set<string>>)
    returns (r: Result<set<Name>, ModelError>)
    requires cat.Valid()
    ensures s <= cat.Known() ==> r == Success(Resolve(cat, s, target, caps))
    ensures s <= cat.Known() ==>
      forall p :: p in r.value <==> (if target == "" || caps.None? then p in Closure(cat, s)
                                     else Runs(cat, Closure(cat, s), target, caps.value, p))
    ensures !(s <= cat.Known()) ==> r == Failure(KeyError)
  {
    if s <= cat.Known() && caps.Some? {
      ClosureIsLeast(cat, s);
      BothPruningsMean(cat, Closure(cat, s), target, caps.value);
    }
    r := DependencyClosure(cat, s);
    if r.Failure? || target == "" || caps.None? {
      return;
    }
    ClosureIsLeast(cat, s);
    var enabled: Flags := map p | p in cat.Known() :: p in r.value;
    assert On(enabled) == r.value;
    var onTarget := ApplyTargetPruning(cat, enabled, target);
    var onBoard := ApplyBoardCapabilityPruning(cat, onTarget.value, caps.value);
    r := Success(On(onBoard));
  }

  /** The user's explicit choices, kept apart from what they and the board drag in. */
  class SelectionModel {
    const cat: Catalog
    const target: string
    const capabilities: Option<set<string>>
    const boardRequired: set<Name>
    const layout: Option<string>
    const mandatoryUnpruned: set<Name>
    const mandatory: set<Name>
    var requested: set<Name>

    ghost predicate Valid()
    {
      && cat.Valid()
      && boardRequired + LayoutNeeds(layout) <= cat.Known()
      && mandatoryUnpruned == Mandatory(cat, boardRequired, layout)
      && mandatory == Resolve(cat, mandatoryUnpruned, target, capabilities)
      && boardRequired <= mandatory
    }

    constructor (cat: Catalog, target: string, capabilities: Option<set<string>>, boardRequired: set<Name>,
                 layout: Option<string>, mandatoryUnpruned: set<Name>, mandatory: set<Name>, requested: set<Name>)
      ensures this.cat == cat && this.target == target && this.capabilities == capabilities
      ensures this.boardRequired == boardRequired && this.layout == layout
      ensures this.mandatoryUnpruned == mandatoryUnpruned && this.mandatory == mandatory
      ensures this.requested == requested
    {
      this.cat, this.target, this.capabilities := cat, target, capabilities;
      this.boardRequired, this.layout := boardRequired, layout;
      this.mandatoryUnpruned, this.mandatory := mandatoryUnpruned, mandatory;
      this.requested := requested;
    }

    /** __init__, with its exceptions. */
    static method Create(cat: Catalog, requested: set<Name>, boardRequired: set<Name>, target: string,
                         capabilities: Option<set<string>>, layout: Option<string>)
      returns (r: Result<SelectionModel, ModelError>)
      requires cat.Valid()
      ensures layout !in {None, Some("ota"), Some("single")} ==> r == Failure(BadLayout)
      ensures layout in {None, Some("ota"), Some("single")} ==>
        if !(boardRequired + LayoutNeeds(layout) <= cat.Known()) then r == Failure(KeyError)
        else if !(boardRequired <= Resolve(cat, Mandatory(cat, boardRequired, layout), target, capabilities))
        then r == Failure(Unavailable)
        else r.Success?
      ensures r.Success? ==>
        && fresh(r.value) && r.value.Valid() && r.value.cat == cat && r.value.target == target
        && r.value.capabilities == capabilities && r.value.layout == layout
        && r.value.boardRequired == boardRequired
        && r.value.requested == requested - {LAYOUT_PACKAGE}
    {
      if layout !in {None, Some("ota"), Some("single")} {
        return Failure(BadLayout);
      }
      ImmutablesKnown(cat);
      var base := DependencyClosure(cat, ImmutableMembers(cat));
      var unpruned := DependencyClosure(cat, base.value + boardRequired + LayoutNeeds(layout));
      if unpruned.Failure? {
        return Failure(KeyError);
      }
      ClosureIsLeast(cat, base.value + boardRequired + LayoutNeeds(layout));
      var mandatory := ResolveChoice(cat, unpruned.value, target, capabilities);
      if !(boardRequired <= mandatory.value) {
        return Failure(Unavailable);
      }
      var model := new SelectionModel(cat, target, capabilities, boardRequired, layout,
                                      unpruned.value, mandatory.value, requested - {LAYOUT_PACKAGE});
      r := Success(model);
    }

    method Selected() returns (r: Result<set<Name>, ModelError>)
      requires Valid()
      ensures requested <= cat.Known() ==>
        r == Success(Resolve(cat, requested + mandatoryUnpruned, target, capabilities))
      ensures !(requested <= cat.Known()) ==> r == Failure(KeyError)
    {
      MandatoryKnown(cat, boardRequired, layout);
      r := ResolveChoice(cat, requested + mandatoryUnpruned, target, capabilities);
    }

    method Enable(packages: set<Name>)
      modifies this
      ensures requested == old(requested) + packages
    {
      requested := requested + packages;
    }

    method Disable(packages: set<Name>)
      modifies this
      ensures requested == old(requested) - packages
    {
      requested := requested - packages;
    }

    method TogglePackage(p: Name)
      modifies this
      ensures p in mandatory ==> requested == old(requested)
      ensures p !in mandatory ==> (p in requested <==> p !in old(requested))
      ensures requested - {p} == old(requested) - {p}
    {
      if p in mandatory {
        return;
      }
      if p in requested {
        Disable({p});
      } else {
        Enable({p});
      }
    }

    /** A group is fully chosen, not at all, or in part. */
    function GroupState(members: set<Name>): (state: nat)
      reads this
      ensures state == 2 <==> members != {} && members <= requested
      ensures state == 0 <==> members * requested == {}
    {
      if members == {} then 0
      else if members * requested == {} then 0
      else if members <= requested then 2
      else 1
    }

    method ToggleGroup(members: set<Name>)
      modifies this
      ensures members != {} && members <= old(requested) ==> requested == old(requested) - members
      ensures !(members <= old(requested)) ==> requested == old(requested) + members
      ensures members == {} ==> requested == old(requested)
    {
      if GroupState(members) == 2 {
        Disable(members);
      } else {
        Enable(members);
      }
    }

    method ClearOptional()
      modifies this
      ensures requested == {}
    {
      requested := {};
    }
  }

  lemma MandatoryKnown(cat: Catalog, required: set<Name>, layout: Option<string>)
    requires cat.Valid() && required + LayoutNeeds(layout) <= cat.Known()
    ensures Mandatory(cat, required, layout) <= cat.Known()
    ensures Closed(cat, Mandatory(cat, required, layout))
  {
    ImmutablesKnown(cat);
    ClosureIsLeast(cat, ImmutableClosure(cat) + required + LayoutNeeds(layout));
  }
}
