/** The build's side of package selection: loading a flavor, enabling and pruning. */
module FlavorBuild {
  import opened Wrappers
  import opened PackageAlgebra

  /** A TOML table of booleans, in file order. */
  type Table = seq<(Name, bool)>

  ghost predicate DistinctKeys(t: Table) {
    forall i, j :: 0 <= i < j < |t| ==> t[i].0 != t[j].0
  }

  function Keys(t: Table): set<Name> {
    set i | 0 <= i < |t| :: t[i].0
  }

  /** The keys a table sets to `b`. */
  function KeysSet(t: Table, b: bool): set<Name> {
    set i | 0 <= i < |t| && t[i].1 == b :: t[i].0
  }

  datatype Error =
    | UnknownGroups
    | UnknownPackages
    | DisabledImmutable
    | RequiresDisabled
    | InvalidName
    | UnknownRequired
    | UnknownLayout
    | MissingTarget
    | UnavailableRequired

  type Flags = map<Name, bool>

  /** The packages a flag map enables. */
  function On(m: Flags): set<Name> {
    set p | p in m && m[p]
  }

  ghost predicate Complete(cat: Catalog, m: Flags) {
    m.Keys == cat.Known()
  }

  // ----- members of groups -----

  function MembersOf(cat: Catalog, gs: set<Name>): set<Name> {
    set g, m | g in gs && g in cat.groupDefs && m in cat.groupDefs[g].members :: m
  }

  function ImmutableGroups(cat: Catalog): set<Name> {
    set g | g in cat.groupDefs && cat.groupDefs[g].immutable
  }

  function ImmutableMembers(cat: Catalog): set<Name> {
    MembersOf(cat, ImmutableGroups(cat))
  }

  // ----- load_flavor -----

  /** Groups on after both tables; a group named in the package table is set there. */
  function GroupsOn(cat: Catalog, groups: Table, packages: Table): set<Name> {
    (KeysSet(groups, true) - Keys(packages)) + (KeysSet(packages, true) * cat.groupDefs.Keys)
    + ImmutableGroups(cat)
  }

  /** Packages the flavor switches on, or off, by name. */
  function Overrides(cat: Catalog, packages: Table, b: bool): set<Name> {
    KeysSet(packages, b) - cat.groupDefs.Keys
  }

  /** The packages the flavor asks for, before dependencies. */
  function Base(cat: Catalog, groups: Table, packages: Table): set<Name> {
    (MembersOf(cat, GroupsOn(cat, groups, packages)) + Overrides(cat, packages, true)
     - Overrides(cat, packages, false)) + ImmutableMembers(cat)
  }

  /** No package needed by the flavor is one the flavor switches off. */
  ghost predicate NoConflict(cat: Catalog, s: set<Name>, off: set<Name>) {
    forall p, d :: p in s && p in cat.packageDefs && d in cat.packageDefs[p].depends ==> d !in off
  }

  ghost function LoadFlavorSpec(cat: Catalog, groups: Table, packages: Table): Result<set<Name>, Error> {
    var off := Overrides(cat, packages, false);
    if !(Keys(groups) <= cat.groupDefs.Keys) then Failure(UnknownGroups)
    else if !(Keys(packages) <= cat.groupDefs.Keys + cat.Known()) then Failure(UnknownPackages)
    else if ImmutableMembers(cat) * off != {} then Failure(DisabledImmutable)
    else
      var s := Closure(cat, Base(cat, groups, packages));
      if NoConflict(cat, s, off) then Success(s) else Failure(RequiresDisabled)
  }

  // ----- what a flavor asks for, entry by entry -----

  predicate Says(t: Table, name: Name, b: bool) {
    (name, b) in t
  }

  /** A group is on if it is immutable, or if the last word on it, the package table's, says so. */
  ghost predicate SwitchedOn(cat: Catalog, groups: Table, packages: Table, g: Name) {
    && g in cat.groupDefs
    && (cat.groupDefs[g].immutable || Says(packages, g, true)
        || (Says(groups, g, true) && !Says(packages, g, false)))
  }

  ghost predicate MemberOf(cat: Catalog, g: Name, p: Name) {
    g in cat.groupDefs && p in cat.groupDefs[g].members
  }

  /** The package table names the package itself and not a group. */
  ghost predicate NamedAs(cat: Catalog, packages: Table, p: Name, b: bool) {
    p !in cat.groupDefs && Says(packages, p, b)
  }

  /** A package is asked for by an immutable group, by name, or by a group unless it is switched off by name. */
  ghost predicate AskedFor(cat: Catalog, groups: Table, packages: Table, p: Name) {
    || (exists g :: MemberOf(cat, g, p) && cat.groupDefs[g].immutable)
    || (!NamedAs(cat, packages, p, false)
        && (NamedAs(cat, packages, p, true)
            || exists g :: MemberOf(cat, g, p) && SwitchedOn(cat, groups, packages, g)))
  }

  lemma KeysSaid(t: Table, name: Name, b: bool)
    ensures name in KeysSet(t, b) <==> Says(t, name, b)
    ensures name in Keys(t) <==> Says(t, name, true) || Says(t, name, false)
  {
    if Says(t, name, b) {
      var i :| 0 <= i < |t| && t[i] == (name, b);
    }
    if name in Keys(t) {
      var i :| 0 <= i < |t| && t[i].0 == name;
      assert t[i] == (name, t[i].1);
    }
    if Says(t, name, true) {
      var i :| 0 <= i < |t| && t[i] == (name, true);
    }
    if Says(t, name, false) {
      var i :| 0 <= i < |t| && t[i] == (name, false);
    }
  }

  lemma SaidOnce(t: Table, name: Name)
    requires DistinctKeys(t)
    ensures !(Says(t, name, true) && Says(t, name, false))
  {
  }

  lemma GroupsOnMeans(cat: Catalog, groups: Table, packages: Table, g: Name)
    requires DistinctKeys(packages) && Keys(groups) <= cat.groupDefs.Keys
    ensures g in GroupsOn(cat, groups, packages) <==> SwitchedOn(cat, groups, packages, g)
  {
    KeysSaid(groups, g, true);
    KeysSaid(packages, g, true);
    SaidOnce(packages, g);
  }

  lemma MembersMean(cat: Catalog, gs: set<Name>, p: Name)
    ensures p in MembersOf(cat, gs) <==> exists g :: g in gs && MemberOf(cat, g, p)
  {
    if exists g :: g in gs && MemberOf(cat, g, p) {
      var g :| g in gs && MemberOf(cat, g, p);
      assert g in cat.groupDefs && p in cat.groupDefs[g].members;
    }
  }

  lemma BaseMeans(cat: Catalog, groups: Table, packages: Table, p: Name)
    requires DistinctKeys(packages) && Keys(groups) <= cat.groupDefs.Keys
    ensures p in Base(cat, groups, packages) <==> AskedFor(cat, groups, packages, p)
  {
    MembersMean(cat, GroupsOn(cat, groups, packages), p);
    MembersMean(cat, ImmutableGroups(cat), p);
    forall g
      ensures g in GroupsOn(cat, groups, packages) <==> SwitchedOn(cat, groups, packages, g)
      ensures g in ImmutableGroups(cat) <==> g in cat.groupDefs && cat.groupDefs[g].immutable
    {
      GroupsOnMeans(cat, groups, packages, g);
    }
    hide GroupsOn, MembersOf, SwitchedOn;
    KeysSaid(packages, p, true);
    KeysSaid(packages, p, false);
    SaidOnce(packages, p);
  }

  /** The set contains everything asked for and is closed. */
  ghost predicate Serves(cat: Catalog, groups: Table, packages: Table, t: set<Name>) {
    Closed(cat, t) && forall p :: AskedFor(cat, groups, packages, p) ==> p in t
  }

  lemma ServesBase(cat: Catalog, groups: Table, packages: Table, t: set<Name>)
    requires DistinctKeys(packages) && Keys(groups) <= cat.groupDefs.Keys
    ensures Serves(cat, groups, packages, t) <==> Closed(cat, t) && Base(cat, groups, packages) <= t
  {
    forall p
      ensures p in Base(cat, groups, packages) <==> AskedFor(cat, groups, packages, p)
    {
      BaseMeans(cat, groups, packages, p);
    }
  }

  /**
   Entry by entry: a flavor that loads yields the least closed set that contains everything
   asked for; nothing in it needs a package that is switched off by name.
   */
  lemma LoadMeans(cat: Catalog, groups: Table, packages: Table)
    requires cat.Valid() && DistinctKeys(packages) && LoadFlavorSpec(cat, groups, packages).Success?
    ensures var s := LoadFlavorSpec(cat, groups, packages).value;
      && Serves(cat, groups, packages, s)
      && (forall t :: Serves(cat, groups, packages, t) ==> s <= t)
      && (forall p, d :: p in s && p in cat.packageDefs && d in cat.packageDefs[p].depends ==>
            !NamedAs(cat, packages, d, false))
  {
    BaseIsKnown(cat, groups, packages);
    ClosureIsLeast(cat, Base(cat, groups, packages));
    forall t
      ensures Serves(cat, groups, packages, t) <==> Closed(cat, t) && Base(cat, groups, packages) <= t
    {
      ServesBase(cat, groups, packages, t);
    }
    forall d | NamedAs(cat, packages, d, false)
      ensures d in Overrides(cat, packages, false)
    {
      KeysSaid(packages, d, false);
    }
    hide Base, Serves, Says, NamedAs, Overrides, Closure;
  }

  /** A flavor that loads names groups and packages only, and switches off nothing immutable. */
  lemma LoadRespects(cat: Catalog, groups: Table, packages: Table)
    requires LoadFlavorSpec(cat, groups, packages).Success?
    ensures forall g, b :: Says(groups, g, b) ==> g in cat.groupDefs
    ensures forall p, b :: Says(packages, p, b) ==> p in cat.groupDefs || p in cat.packageDefs
    ensures forall g, p :: MemberOf(cat, g, p) && cat.groupDefs[g].immutable ==> !NamedAs(cat, packages, p, false)
  {
    forall p, b
      ensures Says(groups, p, b) ==> p in Keys(groups)
      ensures Says(packages, p, b) ==> p in Keys(packages)
    {
      KeysSaid(groups, p, b);
      KeysSaid(packages, p, b);
    }
    forall g, p | MemberOf(cat, g, p) && cat.groupDefs[g].immutable
      ensures !NamedAs(cat, packages, p, false)
    {
      MembersMean(cat, ImmutableGroups(cat), p);
      KeysSaid(packages, p, false);
      assert p in Overrides(cat, packages, false) ==> p in ImmutableMembers(cat) * Overrides(cat, packages, false);
    }
  }

  /** What is wrong with a flavor that does not load. */
  lemma LoadErrors(cat: Catalog, groups: Table, packages: Table)
    requires cat.Valid() && DistinctKeys(packages) && LoadFlavorSpec(cat, groups, packages).Failure?
    ensures
      match LoadFlavorSpec(cat, groups, packages).error
      case UnknownGroups => exists g, b :: Says(groups, g, b) && g !in cat.groupDefs
      case UnknownPackages => exists p, b :: Says(packages, p, b) && p !in cat.groupDefs && p !in cat.packageDefs
      case DisabledImmutable =>
        exists g, p :: MemberOf(cat, g, p) && cat.groupDefs[g].immutable && NamedAs(cat, packages, p, false)
      case RequiresDisabled =>
        exists p, d :: (forall t :: Serves(cat, groups, packages, t) ==> p in t)
                       && p in cat.packageDefs && d in cat.packageDefs[p].depends && NamedAs(cat, packages, d, false)
      case _ => false
  {
    var off := Overrides(cat, packages, false);
    if !(Keys(groups) <= cat.groupDefs.Keys) {
      var g :| g in Keys(groups) && g !in cat.groupDefs;
      SaidSomehow(groups, g);
    } else if !(Keys(packages) <= cat.groupDefs.Keys + cat.Known()) {
      var p :| p in Keys(packages) && p !in cat.groupDefs.Keys + cat.Known();
      SaidSomehow(packages, p);
    } else if ImmutableMembers(cat) * off != {} {
      var p :| p in ImmutableMembers(cat) * off;
      MembersMean(cat, ImmutableGroups(cat), p);
      KeysSaid(packages, p, false);
    } else {
      NeedsDisabled(cat, groups, packages);
    }
  }

  lemma SaidSomehow(t: Table, name: Name)
    requires name in Keys(t)
    ensures exists b :: Says(t, name, b)
  {
    KeysSaid(t, name, true);
    assert Says(t, name, true) || Says(t, name, false);
  }

  lemma NeedsDisabled(cat: Catalog, groups: Table, packages: Table)
    requires cat.Valid() && DistinctKeys(packages) && Keys(groups) <= cat.groupDefs.Keys
    requires !NoConflict(cat, Closure(cat, Base(cat, groups, packages)), Overrides(cat, packages, false))
    ensures exists p, d :: (forall t :: Serves(cat, groups, packages, t) ==> p in t)
                           && p in cat.packageDefs && d in cat.packageDefs[p].depends
                           && NamedAs(cat, packages, d, false)
  {
    var p, d :| p in Closure(cat, Base(cat, groups, packages)) && p in cat.packageDefs
                && d in cat.packageDefs[p].depends && d in Overrides(cat, packages, false);
    forall t | Serves(cat, groups, packages, t)
      ensures p in t
    {
      ServesBase(cat, groups, packages, t);
    }
    KeysSaid(packages, d, false);
    assert NamedAs(cat, packages, d, false);
  }

  // ----- loading, step by step -----

  lemma OnUpdate(m: Flags, k: Name, b: bool)
    ensures On(m[k := b]) == if b then On(m) + {k} else On(m) - {k}
  {
  }

  lemma ElementsSnoc(s: seq<Name>, i: nat)
    requires i < |s|
    ensures Elements(s[..i + 1]) == Elements(s[..i]) + {s[i]}
  {
    assert s[..i + 1] == s[..i] + [s[i]];
  }

  method AllFalse(names: seq<Name>) returns (m: Flags)
    ensures m.Keys == Elements(names) && On(m) == {}
  {
    m := map[];
    for i := 0 to |names|
      invariant m.Keys == Elements(names[..i]) && On(m) == {}
    {
      ElementsSnoc(names, i);
      m := m[names[i] := false];
    }
    assert names[..|names|] == names;
  }

  method EnableAll(names: seq<Name>, start: Flags) returns (m: Flags)
    requires Elements(names) <= start.Keys
    ensures m.Keys == start.Keys && On(m) == On(start) + Elements(names)
  {
    m := start;
    for i := 0 to |names|
      invariant m.Keys == start.Keys && On(m) == On(start) + Elements(names[..i])
    {
      ElementsSnoc(names, i);
      OnUpdate(m, names[i], true);
      m := m[names[i] := true];
    }
    assert names[..|names|] == names;
  }

  lemma KeysSnoc(t: Table, i: nat)
    requires i < |t|
    ensures Keys(t[..i + 1]) == Keys(t[..i]) + {t[i].0}
    ensures KeysSet(t[..i + 1], true) == KeysSet(t[..i], true) + (if t[i].1 then {t[i].0} else {})
  {
    assert t[..i + 1] == t[..i] + [t[i]];
    var u, v := t[..i + 1], t[..i];
    assert forall j :: 0 <= j < i ==> u[j] == v[j];
    forall x | x in Keys(u)
      ensures x in Keys(v) + {t[i].0}
    {
      var j :| 0 <= j < |u| && u[j].0 == x;
    }
    forall x | x in Keys(v) + {t[i].0}
      ensures x in Keys(u)
    {
      if x in Keys(v) {
        var j :| 0 <= j < |v| && v[j].0 == x;
        assert u[j].0 == x;
      } else {
        assert u[i].0 == x;
      }
    }
    forall x | x in KeysSet(u, true)
      ensures x in KeysSet(v, true) + (if t[i].1 then {t[i].0} else {})
    {
      var j :| 0 <= j < |u| && u[j].1 == true && u[j].0 == x;
    }
    forall x | x in KeysSet(v, true) + (if t[i].1 then {t[i].0} else {})
      ensures x in KeysSet(u, true)
    {
      if x in KeysSet(v, true) {
        var j :| 0 <= j < |v| && v[j].1 == true && v[j].0 == x;
        assert u[j].0 == x && u[j].1 == true;
      } else {
        assert u[i].0 == x && u[i].1 == true;
      }
    }
  }

  /** Assigning the table's entries whose key lies in `within`. */
  method Assign(t: Table, within: set<Name>, start: Flags) returns (m: Flags)
    requires DistinctKeys(t) && within <= start.Keys
    ensures m.Keys == start.Keys
    ensures On(m) == (On(start) - Keys(t) * within) + KeysSet(t, true) * within
  {
    m := start;
    for i := 0 to |t|
      invariant m.Keys == start.Keys
      invariant On(m) == (On(start) - Keys(t[..i]) * within) + KeysSet(t[..i], true) * within
    {
      KeysSnoc(t, i);
      assert t[i].0 !in Keys(t[..i]);
      assert KeysSet(t[..i], true) <= Keys(t[..i]);
      OnUpdate(m, t[i].0, t[i].1);
      if t[i].0 in within {
        m := m[t[i].0 := t[i].1];
      }
    }
    assert t[..|t|] == t;
  }

  lemma MembersUnion(cat: Catalog, gs: set<Name>, hs: set<Name>)
    ensures MembersOf(cat, gs + hs) == MembersOf(cat, gs) + MembersOf(cat, hs)
  {
  }

  lemma MembersAreKnown(cat: Catalog, gs: set<Name>)
    requires cat.Valid()
    ensures MembersOf(cat, gs) <= cat.Known()
  {
  }

  method EnableMembers(cat: Catalog, groupsOn: Flags, start: Flags) returns (m: Flags)
    requires cat.Valid() && Complete(cat, start) && groupsOn.Keys == cat.groupDefs.Keys
    ensures Complete(cat, m) && On(m) == On(start) + MembersOf(cat, On(groupsOn))
  {
    hide Catalog.DependenciesKnown;
    m := start;
    for i := 0 to |cat.groups|
      invariant Complete(cat, m)
      invariant On(m) == On(start) + MembersOf(cat, On(groupsOn) * Elements(cat.groups[..i]))
    {
      var g := cat.groups[i];
      ElementsSnoc(cat.groups, i);
      if groupsOn[g] {
        m := EnableAll(cat.groupDefs[g].members, m);
        MembersUnion(cat, On(groupsOn) * Elements(cat.groups[..i]), {g});
        assert MembersOf(cat, {g}) == Elements(cat.groupDefs[g].members);
        assert On(groupsOn) * Elements(cat.groups[..i + 1]) == On(groupsOn) * Elements(cat.groups[..i]) + {g};
      } else {
        assert On(groupsOn) * Elements(cat.groups[..i + 1]) == On(groupsOn) * Elements(cat.groups[..i]);
      }
    }
    assert cat.groups[..|cat.groups|] == cat.groups;
    assert On(groupsOn) * Elements(cat.groups) == On(groupsOn);
  }

  /** Flags for the immutable groups set, whatever the flavor said. */
  method ForceImmutable(cat: Catalog, start: Flags) returns (m: Flags)
    requires cat.Valid() && start.Keys == cat.groupDefs.Keys
    ensures m.Keys == start.Keys && On(m) == On(start) + ImmutableGroups(cat)
  {
    hide Catalog.DependenciesKnown;
    m := start;
    for i := 0 to |cat.groups|
      invariant m.Keys == start.Keys
      invariant On(m) == On(start) + ImmutableGroups(cat) * Elements(cat.groups[..i])
    {
      ElementsSnoc(cat.groups, i);
      OnUpdate(m, cat.groups[i], true);
      assert cat.groups[i] in cat.groupDefs;
      if cat.groupDefs[cat.groups[i]].immutable {
        m := m[cat.groups[i] := true];
      }
    }
    assert cat.groups[..|cat.groups|] == cat.groups;
    assert ImmutableGroups(cat) * Elements(cat.groups) == ImmutableGroups(cat);
  }

  /** One package of the closure sweep: its dependencies are switched on unless one is barred. */
  method EnableDependencies(cat: Catalog, p: Name, off: set<Name>, start: Flags)
    returns (conflict: bool, added: bool, m: Flags)
    requires cat.Valid() && Complete(cat, start) && p in cat.Known()
    ensures added <==> On(m) != On(start)
    ensures Complete(cat, m) && On(start) <= On(m) <= On(start) + Elements(cat.packageDefs[p].depends)
    ensures conflict ==> Elements(cat.packageDefs[p].depends) * off != {}
    ensures !conflict ==> Elements(cat.packageDefs[p].depends) <= On(m) - off
  {
    hide Catalog.Listed;
    var deps := cat.packageDefs[p].depends;
    m, conflict, added := start, false, false;
    for i := 0 to |deps|
      invariant added <==> On(m) != On(start)
      invariant Complete(cat, m) && On(m) == On(start) + Elements(deps[..i])
      invariant Elements(deps[..i]) * off == {}
    {
      ElementsSnoc(deps, i);
      OnUpdate(m, deps[i], true);
      assert deps[i] in Elements(deps);
      if deps[i] in off {
        assert deps[i] in Elements(deps) * off;
        conflict := true;
        return;
      }
      if !m[deps[i]] {
        m := m[deps[i] := true];
        added := true;
      }
    }
    assert deps[..|deps|] == deps;
  }

  /** The first n packages are settled: their dependencies are on and none is barred. */
  ghost predicate SettledUpTo(cat: Catalog, n: nat, on: set<Name>, off: set<Name>)
    requires n <= |cat.packages|
  {
    forall k :: 0 <= k < n && cat.packages[k] in on && cat.packages[k] in cat.packageDefs ==>
      Elements(cat.packageDefs[cat.packages[k]].depends) <= on - off
  }

  lemma SettledIsClosed(cat: Catalog, on: set<Name>, off: set<Name>)
    requires cat.Valid() && on <= cat.Known() && SettledUpTo(cat, |cat.packages|, on, off)
    ensures Closed(cat, on) && NoConflict(cat, on, off)
  {
    forall p, d | p in on && d in cat.packageDefs[p].depends
      ensures d in on && d !in off
    {
      var k :| 0 <= k < |cat.packages| && cat.packages[k] == p;
      assert d in Elements(cat.packageDefs[cat.packages[k]].depends);
    }
  }

  lemma SettleOne(cat: Catalog, i: nat, on: set<Name>, off: set<Name>)
    requires i < |cat.packages| && cat.packages[i] in cat.packageDefs && SettledUpTo(cat, i, on, off)
    requires cat.packages[i] in on ==> Elements(cat.packageDefs[cat.packages[i]].depends) <= on - off
    ensures SettledUpTo(cat, i + 1, on, off)
  {
  }

  lemma ConflictFound(cat: Catalog, p: Name, on: set<Name>, off: set<Name>)
    requires p in on && p in cat.packageDefs && Elements(cat.packageDefs[p].depends) * off != {}
    ensures !NoConflict(cat, on, off)
  {
    var d :| d in Elements(cat.packageDefs[p].depends) * off;
  }

  /**
   One pass over the catalog; `changed` reports whether it switched anything on.
   It stays within any closed set that contains what was on.
   */
  method CloseSweep(cat: Catalog, off: set<Name>, start: Flags, ghost bound: set<Name>)
    returns (conflict: bool, changed: bool, m: Flags)
    requires cat.Valid() && Complete(cat, start) && Closed(cat, bound) && On(start) <= bound
    ensures Complete(cat, m) && On(start) <= On(m) <= bound
    ensures conflict ==> !NoConflict(cat, On(m), off)
    ensures !conflict && changed ==> On(start) < On(m)
    ensures !conflict && !changed ==> On(m) == On(start) && Closed(cat, On(m)) && NoConflict(cat, On(m), off)
  {
    m, changed, conflict := start, false, false;
    var i := 0;
    while i < |cat.packages|
      invariant 0 <= i <= |cat.packages|
      invariant Complete(cat, m) && On(start) <= On(m) <= bound
      invariant if changed then On(start) < On(m) else On(m) == On(start)
      invariant !changed ==> SettledUpTo(cat, i, On(m), off)
    {
      var p := cat.packages[i];
      assert p in cat.packageDefs;
      if m[p] {
        assert Elements(cat.packageDefs[p].depends) <= bound;
        var added;
        conflict, added, m := EnableDependencies(cat, p, off, m);
        if conflict {
          ConflictFound(cat, p, On(m), off);
          return;
        }
        if added {
          changed := true;
        }
      }
      if !changed {
        SettleOne(cat, i, On(m), off);
      }
      i := i + 1;
    }
    if !changed {
      SettledIsClosed(cat, On(m), off);
    }
  }

  lemma SmallerDifference(u: set<Name>, a: set<Name>, b: set<Name>)
    requires a < b <= u
    ensures |u - b| < |u - a|
  {
    assert a == u - (u - a) && b == u - (u - b);
    SmallerSet(u - b, u - a);
  }

  lemma SmallerSet(a: set<Name>, b: set<Name>)
    requires a < b
    ensures |a| < |b|
  {
    assert |b| == |a| + |b - a|;
  }

  /** The sweeps of load_flavor, repeated until one changes nothing. */
  method SweepUntilClosed(cat: Catalog, off: set<Name>, start: Flags, ghost bound: set<Name>)
    returns (conflict: bool, m: Flags)
    requires cat.Valid() && Complete(cat, start) && Closed(cat, bound) && On(start) <= bound
    ensures Complete(cat, m) && On(start) <= On(m) <= bound
    ensures conflict ==> !NoConflict(cat, On(m), off)
    ensures !conflict ==> Closed(cat, On(m)) && NoConflict(cat, On(m), off)
  {
    m, conflict := start, false;
    var changed := true;
    while changed
      invariant Complete(cat, m) && On(start) <= On(m) <= bound
      invariant !changed ==> Closed(cat, On(m)) && NoConflict(cat, On(m), off)
      decreases |bound - On(m)|, changed
    {
      ghost var before := On(m);
      conflict, changed, m := CloseSweep(cat, off, m, bound);
      if conflict {
        return;
      }
      if changed {
        SmallerDifference(bound, before, On(m));
      }
    }
  }

  method CloseOver(cat: Catalog, off: set<Name>, start: Flags) returns (r: Result<Flags, Error>)
    requires cat.Valid() && Complete(cat, start)
    ensures var c := Closure(cat, On(start));
      if NoConflict(cat, c, off) then r.Success? && Complete(cat, r.value) && On(r.value) == c
      else r == Failure(RequiresDisabled)
  {
    ClosureIsLeast(cat, On(start));
    var conflict, m := SweepUntilClosed(cat, off, start, Closure(cat, On(start)));
    if conflict {
      return Failure(RequiresDisabled);
    }
    ClosureUnique(cat, On(start), On(m));
    r := Success(m);
  }

  /** The group flags after both tables and the immutable groups. */
  method LoadGroups(cat: Catalog, groups: Table, packages: Table) returns (m: Flags)
    requires cat.Valid() && DistinctKeys(groups) && DistinctKeys(packages)
    requires Keys(groups) <= cat.groupDefs.Keys
    ensures m.Keys == cat.groupDefs.Keys && On(m) == GroupsOn(cat, groups, packages)
  {
    m := AllFalse(cat.groups);
    m := Assign(groups, cat.groupDefs.Keys, m);
    m := Assign(packages, cat.groupDefs.Keys, m);
    m := ForceImmutable(cat, m);
  }

  /** load_flavor: the packages a flavor's two tables select, closed under dependencies. */
  method LoadFlavor(cat: Catalog, groups: Table, packages: Table) returns (r: Result<Flags, Error>)
    requires cat.Valid() && DistinctKeys(groups) && DistinctKeys(packages)
    ensures match LoadFlavorSpec(cat, groups, packages)
      case Success(s) => r.Success? && Complete(cat, r.value) && On(r.value) == s
      case Failure(e) => r == Failure(e)
  {
    if !(Keys(groups) <= cat.groupDefs.Keys) {
      return Failure(UnknownGroups);
    }
    if !(Keys(packages) <= cat.groupDefs.Keys + cat.Known()) {
      return Failure(UnknownPackages);
    }
    var off := Overrides(cat, packages, false);
    var groupsOn := LoadGroups(cat, groups, packages);
    if ImmutableMembers(cat) * off != {} {
      return Failure(DisabledImmutable);
    }
    var on := LoadBase(cat, groupsOn, groups, packages);
    r := CloseOver(cat, off, on);
  }

  /** Group members, then the overrides by name, then the immutable members. */
  method LoadBase(cat: Catalog, groupsOn: Flags, ghost groups: Table, packages: Table) returns (on: Flags)
    requires cat.Valid() && DistinctKeys(packages)
    requires groupsOn.Keys == cat.groupDefs.Keys && On(groupsOn) == GroupsOn(cat, groups, packages)
    requires Keys(packages) <= cat.groupDefs.Keys + cat.Known()
    ensures Complete(cat, on) && On(on) == Base(cat, groups, packages)
  {
    hide Catalog.DependenciesKnown, GroupsOn, MembersOf, ImmutableGroups;
    on := AllFalse(cat.packages);
    on := EnableMembers(cat, groupsOn, on);
    on := Assign(packages, cat.Known() - cat.groupDefs.Keys, on);
    OverridesSplit(cat, packages);
    MembersAreKnown(cat, ImmutableGroups(cat));
    var immutables := ListOf(ImmutableMembers(cat));
    on := EnableAll(immutables, on);
  }

  lemma OverridesSplit(cat: Catalog, packages: Table)
    requires DistinctKeys(packages)
    ensures KeysSet(packages, true) !! KeysSet(packages, false)
    ensures Keys(packages) == KeysSet(packages, true) + KeysSet(packages, false)
  {
    forall x | x in Keys(packages)
      ensures x in KeysSet(packages, true) + KeysSet(packages, false)
    {
      var j :| 0 <= j < |packages| && packages[j].0 == x;
      assert packages[j].1 == true || packages[j].1 == false;
    }
  }

  method ListOf(s: set<Name>) returns (q: seq<Name>)
    ensures Elements(q) == s
  {
    q := [];
    var rest := s;
    while rest != {}
      invariant rest <= s && Elements(q) == s - rest
      decreases rest
    {
      var x :| x in rest;
      assert Elements(q + [x]) == Elements(q) + {x};
      q, rest := q + [x], rest - {x};
    }
  }

  // ----- enabling and pruning -----

  /** The dependencies of `s` lie in `t`. */
  ghost predicate DemandsMet(cat: Catalog, s: set<Name>, t: set<Name>) {
    forall p :: p in s && p in cat.packageDefs ==> Elements(cat.packageDefs[p].depends) <= t
  }

  /** Between two pops: what is on or pending covers the request and every demand met so far. */
  ghost predicate WorkOk(cat: Catalog, start: set<Name>, required: set<Name>, bound: set<Name>,
                         on: set<Name>, pending: set<Name>)
  {
    && start <= on <= bound && pending <= bound
    && required <= on + pending
    && DemandsMet(cat, on - start, on + pending)
  }

  lemma TakingUp(cat: Catalog, start: set<Name>, required: set<Name>, bound: set<Name>,
                 on: set<Name>, p: Name, others: set<Name>)
    requires cat.Valid() && Closed(cat, bound) && WorkOk(cat, start, required, bound, on, others + {p})
    ensures p in on ==> WorkOk(cat, start, required, bound, on, others)
    ensures p !in on ==>
      WorkOk(cat, start, required, bound, on + {p}, others + Elements(cat.packageDefs[p].depends))
  {
    if p in on {
      assert on + others == on + (others + {p});
    }
  }

  /** Popping the worklist, taking a package up if it was off. */
  method TakeUp(cat: Catalog, enabled: Flags, pending: seq<Name>,
                ghost start: set<Name>, ghost required: set<Name>, ghost bound: set<Name>)
    returns (m: Flags, rest: seq<Name>)
    requires cat.Valid() && Complete(cat, enabled) && pending != [] && Closed(cat, bound)
    requires WorkOk(cat, start, required, bound, On(enabled), Elements(pending))
    ensures Complete(cat, m) && WorkOk(cat, start, required, bound, On(m), Elements(rest))
    ensures |bound - On(m)| < |bound - On(enabled)| || (m == enabled && |rest| < |pending|)
  {
    hide Catalog.Listed;
    var p := pending[|pending| - 1];
    m, rest := enabled, pending[..|pending| - 1];
    assert Elements(pending) == Elements(rest) + {p} by {
      ElementsSnoc(pending, |pending| - 1);
      assert pending[..|pending|] == pending;
    }
    TakingUp(cat, start, required, bound, On(enabled), p, Elements(rest));
    if !m[p] {
      OnUpdate(m, p, true);
      m := m[p := true];
      var deps := cat.packageDefs[p].depends;
      assert Elements(rest + deps) == Elements(rest) + Elements(deps);
      rest := rest + deps;
      SmallerDifference(bound, On(enabled), On(m));
    }
  }

  method EnableWorklist(cat: Catalog, enabled: Flags, required: set<Name>, ghost bound: set<Name>)
    returns (result: Flags)
    requires cat.Valid() && Complete(cat, enabled) && Closed(cat, bound)
    requires On(enabled) + required <= bound
    ensures Complete(cat, result) && On(enabled) + required <= On(result) <= bound
    ensures DemandsMet(cat, On(result) - On(enabled), On(result))
  {
    hide Catalog.Listed;
    result := enabled;
    var pending := ListOf(required);
    while pending != []
      invariant Complete(cat, result)
      invariant WorkOk(cat, On(enabled), required, bound, On(result), Elements(pending))
      decreases |bound - On(result)|, |pending|
    {
      result, pending := TakeUp(cat, result, pending, On(enabled), required, bound);
    }
    assert On(result) + Elements(pending) == On(result);
  }

  /**
   enable_required_packages: a worklist that does not look behind packages that
   are already on, which is right when its input is closed.
   */
  method EnableRequired(cat: Catalog, enabled: Flags, required: set<Name>) returns (r: Result<Flags, Error>)
    requires cat.Valid() && Complete(cat, enabled)
    ensures r.Failure? <==> !(required <= cat.Known())
    ensures r.Failure? ==> r.error == UnknownRequired
    ensures r.Success? ==> Complete(cat, r.value)
    ensures r.Success? && Closed(cat, On(enabled)) ==> On(r.value) == Closure(cat, On(enabled) + required)
  {
    if !(required <= cat.Known()) {
      return Failure(UnknownRequired);
    }
    ghost var s := On(enabled) + required;
    ClosureIsLeast(cat, s);
    var result := EnableWorklist(cat, enabled, required, Closure(cat, s));
    if Closed(cat, On(enabled)) {
      DemandsClose(cat, On(enabled), On(result));
      ClosureUnique(cat, s, On(result));
    }
    r := Success(result);
  }

  lemma DemandsClose(cat: Catalog, s: set<Name>, t: set<Name>)
    requires Closed(cat, s) && s <= t <= cat.Known() && DemandsMet(cat, t - s, t)
    ensures Closed(cat, t)
  {
    forall p, d | p in t && d in cat.packageDefs[p].depends
      ensures d in t
    {
      if p !in s {
        assert d in Elements(cat.packageDefs[p].depends);
      }
    }
  }

  method ApplyUpdateLayout(cat: Catalog, enabled: Flags, layout: string) returns (r: Result<Flags, Error>)
    requires cat.Valid() && Complete(cat, enabled) && Closed(cat, On(enabled))
    ensures layout !in {"ota", "single"} ==> r == Failure(UnknownLayout)
    ensures layout in {"ota", "single"} && !(LayoutRequired(layout) <= cat.Known()) ==> r == Failure(UnknownRequired)
    ensures layout in {"ota", "single"} && LayoutRequired(layout) <= cat.Known() ==>
      r.Success? && Complete(cat, r.value) && On(r.value) == Closure(cat, On(enabled) + LayoutRequired(layout))
  {
    if layout !in {"ota", "single"} {
      return Failure(UnknownLayout);
    }
    ClosureIsLeast(cat, On(enabled));
    if layout == "single" {
      assert On(enabled) + {} == On(enabled);
      return Success(enabled);
    }
    r := EnableRequired(cat, enabled, {LAYOUT_PACKAGE});
  }

  const LAYOUT_PACKAGE: Name := "service_ota"

  function LayoutRequired(layout: string): set<Name> {
    if layout == "ota" then {LAYOUT_PACKAGE} else {}
  }

  /** One in-place pass that drops packages with a missing dependency. */
  method PruneSweep(cat: Catalog, start: Flags, ghost keep: set<Name>) returns (changed: bool, m: Flags)
    requires cat.Valid() && Complete(cat, start) && Closed(cat, keep) && keep <= On(start)
    ensures Complete(cat, m) && keep <= On(m) <= On(start)
    ensures changed ==> On(m) < On(start)
    ensures !changed ==> On(m) == On(start) && Closed(cat, On(m))
  {
    m, changed := start, false;
    var i := 0;
    while i < |cat.packages|
      invariant 0 <= i <= |cat.packages|
      invariant Complete(cat, m) && keep <= On(m) <= On(start)
      invariant if changed then On(m) < On(start) else On(m) == On(start)
      invariant !changed ==> SettledUpTo(cat, i, On(m), {})
    {
      var p := cat.packages[i];
      assert p in cat.packageDefs;
      if m[p] {
        var deps := cat.packageDefs[p].depends;
        if exists d :: d in deps && !m[d] {
          ghost var d :| d in deps && !m[d];
          assert d !in keep;
          OnUpdate(m, p, false);
          m := m[p := false];
          changed := true;
        } else {
          assert Elements(deps) <= On(m);
        }
      }
      if !changed {
        SettleOne(cat, i, On(m), {});
      }
      i := i + 1;
    }
    if !changed {
      SettledIsClosed(cat, On(m), {});
    }
  }

  method DropUnfit(cat: Catalog, enabled: Flags, ok: set<Name>) returns (m: Flags)
    requires cat.Valid() && Complete(cat, enabled)
    ensures Complete(cat, m) && On(m) == On(enabled) * ok
  {
    m := enabled;
    for i := 0 to |cat.packages|
      invariant Complete(cat, m)
      invariant On(m) == On(enabled) - (Elements(cat.packages[..i]) - ok)
    {
      var p := cat.packages[i];
      ElementsSnoc(cat.packages, i);
      OnUpdate(m, p, false);
      if m[p] && p !in ok {
        m := m[p := false];
      }
    }
    assert cat.packages[..|cat.packages|] == cat.packages;
  }

  method SweepUntilPruned(cat: Catalog, start: Flags, ghost keep: set<Name>) returns (m: Flags)
    requires cat.Valid() && Complete(cat, start) && Closed(cat, keep) && keep <= On(start)
    ensures Complete(cat, m) && keep <= On(m) <= On(start) && Closed(cat, On(m))
  {
    m := start;
    var changed := true;
    while changed
      invariant Complete(cat, m) && keep <= On(m) <= On(start)
      invariant !changed ==> Closed(cat, On(m))
      decreases |On(m)|, changed
    {
      ghost var before := On(m);
      changed, m := PruneSweep(cat, m, keep);
      if changed {
        SmallerSet(On(m), before);
      }
    }
  }

  /** Both pruning functions: switching off what does not fit, then whatever depended on it. */
  method PruneTo(cat: Catalog, enabled: Flags, ok: set<Name>) returns (m: Flags)
    requires cat.Valid() && Complete(cat, enabled)
    ensures Complete(cat, m) && On(m) == Prune(cat, On(enabled), ok)
  {
    PruneIsGreatest(cat, On(enabled), ok);
    m := DropUnfit(cat, enabled, ok);
    m := SweepUntilPruned(cat, m, Prune(cat, On(enabled), ok));
    PruneUnique(cat, On(enabled), ok, On(m));
  }

  method ApplyTargetPruning(cat: Catalog, enabled: Flags, target: string) returns (r: Result<Flags, Error>)
    requires cat.Valid() && Complete(cat, enabled)
    ensures target == "" ==> r == Failure(MissingTarget)
    ensures target != "" ==> r.Success? && Complete(cat, r.value)
                             && On(r.value) == Prune(cat, On(enabled), OnTarget(cat, target))
    ensures r.Success? ==> forall p :: p in On(r.value) <==> RunsOnTarget(cat, On(enabled), target, p)
  {
    if target == "" {
      return Failure(MissingTarget);
    }
    TargetPruningMeans(cat, On(enabled), target);
    var m := PruneTo(cat, enabled, OnTarget(cat, target));
    r := Success(m);
  }

  method ApplyBoardCapabilityPruning(cat: Catalog, enabled: Flags, available: set<string>) returns (m: Flags)
    requires cat.Valid() && Complete(cat, enabled)
    ensures Complete(cat, m) && On(m) == Prune(cat, On(enabled), OnBoard(cat, available))
    ensures forall p :: p in On(m) <==> RunsOnBoard(cat, On(enabled), available, p)
  {
    BoardPruningMeans(cat, On(enabled), available);
    m := PruneTo(cat, enabled, OnBoard(cat, available));
  }

  // ----- the pipeline of main -----

  predicate Alphanumeric(c: char) {
    'A' <= c <= 'Z' || 'a' <= c <= 'z' || '0' <= c <= '9'
  }

  /** A flavor name fit to be shown: up to 64 plain characters, the first a letter or a digit. */
  predicate PublicName(name: string) {
    && 1 <= |name| <= 64 && Alphanumeric(name[0])
    && forall c :: c in name ==> Alphanumeric(c) || c in {'_', '.', '-'}
  }

  /** The name the build goes by: an override comes before the flavor's own. */
  function NameOf(configured: string, override: string): string {
    if override != "" then override else configured
  }

  ghost function BuildSpec(cat: Catalog, groups: Table, packages: Table, name: string, required: set<Name>,
                           layout: string, target: string, available: set<string>): Result<set<Name>, Error>
  {
    match LoadFlavorSpec(cat, groups, packages)
    case Failure(e) => Failure(e)
    case Success(s) =>
      if !PublicName(name) then Failure(InvalidName)
      else if !(required <= cat.Known()) then Failure(UnknownRequired)
      else if layout !in {"ota", "single"} then Failure(UnknownLayout)
      else if !(LayoutRequired(layout) <= cat.Known()) then Failure(UnknownRequired)
      else if target == "" then Failure(MissingTarget)
      else
        var all := Closure(cat, s + required + LayoutRequired(layout));
        var final := Prune(cat, Prune(cat, all, OnTarget(cat, target)), OnBoard(cat, available));
        if required <= final then Success(final) else Failure(UnavailableRequired)
  }

  /** A character that may stand at that place of a flavor name. */
  predicate Plain(c: char, at: nat) {
    'A' <= c <= 'Z' || 'a' <= c <= 'z' || '0' <= c <= '9' || (at > 0 && (c == '_' || c == '.' || c == '-'))
  }

  lemma PublicNamesArePlain(name: string)
    ensures PublicName(name) <==> 1 <= |name| <= 64 && forall i :: 0 <= i < |name| ==> Plain(name[i], i)
  {
    if 1 <= |name| <= 64 && forall i :: 0 <= i < |name| ==> Plain(name[i], i) {
      forall c | c in name
        ensures Alphanumeric(c) || c in {'_', '.', '-'}
      {
        var i :| 0 <= i < |name| && name[i] == c;
        assert Plain(name[i], i);
      }
      assert Plain(name[0], 0);
    } else if PublicName(name) {
      forall i | 0 <= i < |name|
        ensures Plain(name[i], i)
      {
        assert name[i] in name;
      }
    }
  }

  /** public_flavor_name */
  method PublicFlavorName(configured: string, override: string) returns (r: Result<string, Error>)
    ensures r == if PublicName(NameOf(configured, override)) then Success(NameOf(configured, override))
                 else Failure(InvalidName)
    ensures r.Success? ==> r.value == if override == "" then configured else override
    ensures var name := if override == "" then configured else override;
      r.Success? <==> 1 <= |name| <= 64 && forall i :: 0 <= i < |name| ==> Plain(name[i], i)
  {
    var name := NameOf(configured, override);
    PublicNamesArePlain(name);
    if !PublicName(name) {
      return Failure(InvalidName);
    }
    r := Success(name);
  }

  method Build(cat: Catalog, groups: Table, packages: Table, configured: string, override: string,
               required: set<Name>, layout: string, target: string, available: set<string>)
    returns (r: Result<Flags, Error>)
    requires cat.Valid() && DistinctKeys(groups) && DistinctKeys(packages)
    ensures match BuildSpec(cat, groups, packages, NameOf(configured, override), required, layout, target, available)
      case Success(s) => r.Success? && Complete(cat, r.value) && On(r.value) == s
      case Failure(e) => r == Failure(e)
  {
    r := LoadFlavor(cat, groups, packages);
    if r.Failure? {
      return;
    }
    LoadedIsClosed(cat, groups, packages);
    ghost var s := On(r.value);
    var name := PublicFlavorName(configured, override);
    if name.Failure? {
      return Failure(name.error);
    }
    r := EnableRequired(cat, r.value, required);
    if r.Failure? {
      return;
    }
    ClosureIsLeast(cat, s + required);
    r := ApplyUpdateLayout(cat, r.value, layout);
    if r.Failure? {
      return;
    }
    ClosureAbsorbs(cat, s + required, LayoutRequired(layout));
    r := ApplyTargetPruning(cat, r.value, target);
    if r.Failure? {
      return;
    }
    var m := ApplyBoardCapabilityPruning(cat, r.value, available);
    if !(required <= On(m)) {
      return Failure(UnavailableRequired);
    }
    r := Success(m);
  }

  /** A build that succeeds enables what, with all it needs, meets target and board, and nothing else. */
  lemma BuildMeans(cat: Catalog, groups: Table, packages: Table, name: string, required: set<Name>,
                   layout: string, target: string, available: set<string>)
    requires cat.Valid() && BuildSpec(cat, groups, packages, name, required, layout, target, available).Success?
    ensures LoadFlavorSpec(cat, groups, packages).Success?
    ensures var asked := LoadFlavorSpec(cat, groups, packages).value + required
                         + if layout == "ota" then {"service_ota"} else {};
      var built := BuildSpec(cat, groups, packages, name, required, layout, target, available).value;
      && required <= built
      && forall p :: p in built <==> Runs(cat, Closure(cat, asked), target, available, p)
  {
    var all := LoadFlavorSpec(cat, groups, packages).value + required + LayoutRequired(layout);
    LoadedIsClosed(cat, groups, packages);
    hide LoadFlavorSpec;
    ClosureIsLeast(cat, all);
    BothPruningsMean(cat, Closure(cat, all), target, available);
  }

  /** A build of a flavor that loads fails for one of five reasons, and for no other. */
  lemma BuildErrors(cat: Catalog, groups: Table, packages: Table, name: string, required: set<Name>,
                    layout: string, target: string, available: set<string>)
    requires cat.Valid() && LoadFlavorSpec(cat, groups, packages).Success?
    ensures match BuildSpec(cat, groups, packages, name, required, layout, target, available)
      case Success(_) => true
      case Failure(InvalidName) => !PublicName(name)
      case Failure(UnknownRequired) =>
        exists p :: p !in cat.Known() && (p in required || (layout == "ota" && p == "service_ota"))
      case Failure(UnknownLayout) => layout != "ota" && layout != "single"
      case Failure(MissingTarget) => target == ""
      case Failure(e) =>
        && e == UnavailableRequired
        && var asked := LoadFlavorSpec(cat, groups, packages).value + required
                        + if layout == "ota" then {"service_ota"} else {};
           exists p :: p in required && !Runs(cat, Closure(cat, asked), target, available, p)
  {
    var all := LoadFlavorSpec(cat, groups, packages).value + required + LayoutRequired(layout);
    LoadedIsClosed(cat, groups, packages);
    hide LoadFlavorSpec, PublicName, Prune, OnTarget, OnBoard, Runs;
    if required <= cat.Known() && LayoutRequired(layout) <= cat.Known() {
      ClosureIsLeast(cat, all);
      BothPruningsMean(cat, Closure(cat, all), target, available);
    }
  }

  /** A flavor that builds for a board builds for any board that has more, and loses nothing there. */
  lemma BetterBoardsBuildMore(cat: Catalog, groups: Table, packages: Table, name: string, required: set<Name>,
                              layout: string, target: string, less: set<string>, more: set<string>)
    requires cat.Valid() && less <= more
    requires BuildSpec(cat, groups, packages, name, required, layout, target, less).Success?
    ensures var better := BuildSpec(cat, groups, packages, name, required, layout, target, more);
      && better.Success?
      && BuildSpec(cat, groups, packages, name, required, layout, target, less).value <= better.value
  {
    var all := LoadFlavorSpec(cat, groups, packages).value + required + LayoutRequired(layout);
    LoadedIsClosed(cat, groups, packages);
    hide LoadFlavorSpec;
    ClosureIsLeast(cat, all);
    MoreCapabilitiesKeepMore(cat, Closure(cat, all), target, less, more);
  }

  lemma LoadedIsClosed(cat: Catalog, groups: Table, packages: Table)
    requires cat.Valid() && LoadFlavorSpec(cat, groups, packages).Success?
    ensures Closed(cat, LoadFlavorSpec(cat, groups, packages).value)
  {
    BaseIsKnown(cat, groups, packages);
    ClosureIsLeast(cat, Base(cat, groups, packages));
  }

  lemma BaseIsKnown(cat: Catalog, groups: Table, packages: Table)
    requires cat.Valid() && Keys(packages) <= cat.groupDefs.Keys + cat.Known()
    ensures Base(cat, groups, packages) <= cat.Known()
  {
    assert KeysSet(packages, true) <= Keys(packages);
  }
}
