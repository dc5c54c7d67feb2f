/** What the configurator saves is what the build enables, and what it loads back. */
module FlavorAgreement {
  import opened Wrappers
  import opened PackageAlgebra
  import opened FlavorBuild
  import opened FlavorConfig
  import opened CatalogCycles
  import opened CatalogLoading

  // ----- render_flavor -----

  /** The names of a list that lie in `keep`, in list order. */
  function Chosen(names: seq<Name>, keep: set<Name>): seq<Name> {
    if names == [] then []
    else if names[0] in keep then [names[0]] + Chosen(names[1..], keep)
    else Chosen(names[1..], keep)
  }

  function AllTrue(names: seq<Name>): Table {
    seq(|names|, i requires 0 <= i < |names| => (names[i], true))
  }

  /** Visible optional groups of which every member was chosen. */
  function CompleteGroups(cat: Catalog, requested: set<Name>): set<Name> {
    set g | g in cat.groupDefs
            && !cat.groupDefs[g].immutable && !cat.groupDefs[g].hidden && cat.groupDefs[g].members != []
            && Elements(cat.groupDefs[g].members) <= requested
  }

  /** Chosen packages that no complete group brings along. */
  function Individuals(cat: Catalog, requested: set<Name>): set<Name> {
    requested * cat.Known() - MembersOf(cat, CompleteGroups(cat, requested))
  }

  function RenderedGroups(cat: Catalog, requested: set<Name>): Table {
    AllTrue(Chosen(cat.groups, CompleteGroups(cat, requested)))
  }

  function RenderedPackages(cat: Catalog, requested: set<Name>): Table {
    AllTrue(Chosen(cat.packages, Individuals(cat, requested)))
  }

  lemma {:induction false} ChosenElements(names: seq<Name>, keep: set<Name>)
    ensures Elements(Chosen(names, keep)) == Elements(names) * keep
  {
    if names != [] {
      ChosenElements(names[1..], keep);
      assert names == [names[0]] + names[1..];
      ConsElements(names[0], names[1..]);
      ConsElements(names[0], Chosen(names[1..], keep));
    }
  }

  lemma ConsElements(x: Name, s: seq<Name>)
    ensures Elements([x] + s) == {x} + Elements(s)
  {
  }

  ghost predicate Distinct(s: seq<Name>) {
    forall i, j :: 0 <= i < j < |s| ==> s[i] != s[j]
  }

  lemma {:induction false} ChosenDistinct(names: seq<Name>, keep: set<Name>)
    requires Distinct(names)
    ensures Distinct(Chosen(names, keep))
  {
    if names != [] {
      ChosenDistinct(names[1..], keep);
      forall x | x in Chosen(names[1..], keep)
        ensures x != names[0]
      {
        ChosenWithin(names[1..], keep, x);
      }
      var rest, all := Chosen(names[1..], keep), Chosen(names, keep);
      if names[0] in keep {
        forall i, j | 0 <= i < j < |all|
          ensures all[i] != all[j]
        {
          assert all[j] == rest[j - 1] && all[j] in rest;
          assert i > 0 ==> all[i] == rest[i - 1];
        }
      }
    }
  }

  lemma {:induction false} ChosenWithin(names: seq<Name>, keep: set<Name>, x: Name)
    requires x in Chosen(names, keep)
    ensures x in names && x in keep
  {
    if !(names[0] in keep && x == names[0]) {
      ChosenWithin(names[1..], keep, x);
    }
  }

  lemma AllTrueKeys(names: seq<Name>)
    ensures Keys(AllTrue(names)) == KeysSet(AllTrue(names), true) == Elements(names)
    ensures KeysSet(AllTrue(names), false) == {}
    ensures Distinct(names) ==> DistinctKeys(AllTrue(names))
  {
    var t := AllTrue(names);
    forall x | x in Elements(names)
      ensures x in KeysSet(t, true) && x in Keys(t)
    {
      var i :| 0 <= i < |names| && names[i] == x;
      assert t[i].0 == x && t[i].1 == true;
    }
  }

  /** A group that is saved: one the user can see and switch off, with all its members chosen. */
  ghost predicate SavedWhole(cat: Catalog, requested: set<Name>, g: Name) {
    && g in cat.groupDefs && !cat.groupDefs[g].immutable && !cat.groupDefs[g].hidden
    && cat.groupDefs[g].members != [] && forall m :: m in cat.groupDefs[g].members ==> m in requested
  }

  /** The saved tables name exactly the complete groups and the remaining choices, all on. */
  lemma RenderedTables(cat: Catalog, requested: set<Name>)
    requires cat.Valid()
    ensures var t := RenderedGroups(cat, requested);
      DistinctKeys(t) && KeysSet(t, false) == {} && Keys(t) == KeysSet(t, true) == CompleteGroups(cat, requested)
    ensures var t := RenderedPackages(cat, requested);
      DistinctKeys(t) && KeysSet(t, false) == {} && Keys(t) == KeysSet(t, true) == Individuals(cat, requested)
  {
    var g, p := CompleteGroups(cat, requested), Individuals(cat, requested);
    ChosenElements(cat.groups, g);
    ChosenDistinct(cat.groups, g);
    AllTrueKeys(Chosen(cat.groups, g));
    assert Elements(cat.groups) * g == g;
    ChosenElements(cat.packages, p);
    ChosenDistinct(cat.packages, p);
    AllTrueKeys(Chosen(cat.packages, p));
    assert Elements(cat.packages) * p == p;
  }

  lemma RenderedEntries(cat: Catalog, requested: set<Name>)
    requires cat.Valid()
    ensures forall g :: g in CompleteGroups(cat, requested) <==> SavedWhole(cat, requested, g)
    ensures forall p :: p in Individuals(cat, requested) <==>
      p in requested && p in cat.packageDefs && !exists g :: SavedWhole(cat, requested, g) && MemberOf(cat, g, p)
  {
    forall g | g in cat.groupDefs
      ensures Elements(cat.groupDefs[g].members) <= requested
         <==> forall m :: m in cat.groupDefs[g].members ==> m in requested
    {
      assert forall m :: m in cat.groupDefs[g].members <==> m in Elements(cat.groupDefs[g].members);
    }
    forall p
      ensures p in MembersOf(cat, CompleteGroups(cat, requested))
         <==> exists g :: SavedWhole(cat, requested, g) && MemberOf(cat, g, p)
    {
      MembersMean(cat, CompleteGroups(cat, requested), p);
    }
  }

  lemma {:induction false} ChosenInOrder(names: seq<Name>, keep: set<Name>, i: nat, j: nat) returns (a: nat, b: nat)
    requires i < j < |Chosen(names, keep)|
    ensures a < b < |names| && names[a] == Chosen(names, keep)[i] && names[b] == Chosen(names, keep)[j]
  {
    if names[0] !in keep {
      a, b := ChosenInOrder(names[1..], keep, i, j);
      a, b := a + 1, b + 1;
    } else if i > 0 {
      a, b := ChosenInOrder(names[1..], keep, i - 1, j - 1);
      a, b := a + 1, b + 1;
    } else {
      var x := Chosen(names[1..], keep)[j - 1];
      ChosenWithin(names[1..], keep, x);
      var k :| 0 <= k < |names[1..]| && names[1..][k] == x;
      a, b := 0, k + 1;
    }
  }

  ghost predicate Behind(names: seq<Name>, x: Name, y: Name) {
    exists a, b :: 0 <= a < b < |names| && names[a] == x && names[b] == y
  }

  /**
   Entry by entry: the saved tables list the groups chosen whole and the chosen packages that
   no such group brings along, each in the order of the catalog.
   */
  lemma RenderedMeans(cat: Catalog, requested: set<Name>)
    requires cat.Valid()
    ensures var t := RenderedGroups(cat, requested);
      && (forall g :: Says(t, g, true) <==> SavedWhole(cat, requested, g))
      && (forall g :: !Says(t, g, false))
      && (forall i, j :: 0 <= i < j < |t| ==> Behind(cat.groups, t[i].0, t[j].0))
    ensures var t := RenderedPackages(cat, requested);
      && (forall p :: Says(t, p, true) <==>
            p in requested && p in cat.packageDefs && !exists g :: SavedWhole(cat, requested, g) && MemberOf(cat, g, p))
      && (forall p :: !Says(t, p, false))
      && (forall i, j :: 0 <= i < j < |t| ==> Behind(cat.packages, t[i].0, t[j].0))
  {
    RenderedTables(cat, requested);
    RenderedEntries(cat, requested);
    var g, p := RenderedGroups(cat, requested), RenderedPackages(cat, requested);
    forall x, b
      ensures Says(g, x, b) <==> x in KeysSet(g, b)
      ensures Says(p, x, b) <==> x in KeysSet(p, b)
    {
      KeysSaid(g, x, b);
      KeysSaid(p, x, b);
    }
    hide CompleteGroups, Individuals, Chosen, Says, SavedWhole, MemberOf, KeysSet;
    forall i, j | 0 <= i < j < |g|
      ensures Behind(cat.groups, g[i].0, g[j].0)
    {
      var a, b := ChosenInOrder(cat.groups, CompleteGroups(cat, requested), i, j);
    }
    forall i, j | 0 <= i < j < |p|
      ensures Behind(cat.packages, p[i].0, p[j].0)
    {
      var a, b := ChosenInOrder(cat.packages, Individuals(cat, requested), i, j);
    }
  }

  /** A choice falls apart into complete groups and individuals. */
  lemma ChoiceSplits(cat: Catalog, requested: set<Name>)
    requires cat.Valid()
    ensures MembersOf(cat, CompleteGroups(cat, requested)) + Individuals(cat, requested) == requested * cat.Known()
  {
  }

  // ----- load_requested_packages -----

  /** What the configurator reads from a flavor's two tables. */
  ghost function ReadBack(cat: Catalog, groups: Table, packages: Table): set<Name> {
    MembersOf(cat, KeysSet(groups, true) + KeysSet(packages, true)) + KeysSet(packages, true) * cat.Known()
    - KeysSet(packages, false) * cat.Known()
    - ImmutableClosure(cat)
  }

  /** The members of every group a table switches on. */
  method AddGroupMembers(cat: Catalog, table: Table, start: set<Name>) returns (requested: set<Name>)
    requires DistinctKeys(table)
    ensures requested == start + MembersOf(cat, KeysSet(table, true))
  {
    requested := start;
    for i := 0 to |table|
      invariant requested == start + MembersOf(cat, KeysSet(table[..i], true))
    {
      KeysSnoc(table, i);
      if table[i].0 in cat.groupDefs && table[i].1 {
        MembersUnion(cat, KeysSet(table[..i], true), {table[i].0});
        assert MembersOf(cat, {table[i].0}) == Elements(cat.groupDefs[table[i].0].members);
        requested := requested + Elements(cat.groupDefs[table[i].0].members);
      } else {
        MembersUnion(cat, KeysSet(table[..i], true), {table[i].0});
        assert table[i].1 ==> MembersOf(cat, {table[i].0}) == {};
      }
    }
    assert table[..|table|] == table;
  }

  /** Package entries in turn: one that is on joins the choice, one that is off leaves it. */
  method ApplyPackageEntries(cat: Catalog, packages: Table, start: set<Name>) returns (requested: set<Name>)
    requires DistinctKeys(packages)
    ensures requested == start - Keys(packages) * cat.Known() + KeysSet(packages, true) * cat.Known()
  {
    requested := start;
    for i := 0 to |packages|
      invariant requested == start - Keys(packages[..i]) * cat.Known() + KeysSet(packages[..i], true) * cat.Known()
    {
      KeysSnoc(packages, i);
      var name := packages[i].0;
      assert name !in Keys(packages[..i]);
      assert KeysSet(packages[..i], true) <= Keys(packages[..i]);
      if name in cat.packageDefs {
        if packages[i].1 {
          requested := requested + {name};
        } else {
          requested := requested - {name};
        }
      }
    }
    assert packages[..|packages|] == packages;
  }

  /** Entry by entry: a package is chosen by name, or by a group unless it is switched off by name. */
  lemma ReadBackMeans(cat: Catalog, groups: Table, packages: Table, p: Name)
    requires cat.Valid() && DistinctKeys(packages)
    ensures p in ReadBack(cat, groups, packages) <==>
      && p !in ImmutableClosure(cat) && p in cat.packageDefs && !Says(packages, p, false)
      && (Says(packages, p, true)
          || exists g :: MemberOf(cat, g, p) && (Says(groups, g, true) || Says(packages, g, true)))
  {
    MembersAreKnown(cat, KeysSet(groups, true) + KeysSet(packages, true));
    MembersMean(cat, KeysSet(groups, true) + KeysSet(packages, true), p);
    forall g
      ensures g in KeysSet(groups, true) <==> Says(groups, g, true)
      ensures g in KeysSet(packages, true) <==> Says(packages, g, true)
    {
      KeysSaid(groups, g, true);
      KeysSaid(packages, g, true);
    }
    KeysSaid(packages, p, false);
  }

  /** load_requested_packages */
  method LoadRequested(cat: Catalog, groups: Table, packages: Table) returns (requested: set<Name>)
    requires cat.Valid() && DistinctKeys(groups) && DistinctKeys(packages)
    ensures requested == ReadBack(cat, groups, packages)
    ensures forall p :: p in requested <==>
      && p !in ImmutableClosure(cat) && p in cat.packageDefs && !Says(packages, p, false)
      && (Says(packages, p, true)
          || exists g :: MemberOf(cat, g, p) && (Says(groups, g, true) || Says(packages, g, true)))
  {
    forall p { ReadBackMeans(cat, groups, packages, p); }
    hide Says, MemberOf;
    requested := AddGroupMembers(cat, groups, {});
    requested := AddGroupMembers(cat, packages, requested);
    MembersUnion(cat, KeysSet(groups, true), KeysSet(packages, true));
    requested := ApplyPackageEntries(cat, packages, requested);
    OverridesSplit(cat, packages);
    ImmutablesKnown(cat);
    var immutables := DependencyClosure(cat, ImmutableMembers(cat));
    requested := requested - immutables.value;
  }

  lemma RenderedReadsBack(cat: Catalog, requested: set<Name>)
    requires cat.Valid() && requested <= cat.Known()
    ensures ReadBack(cat, RenderedGroups(cat, requested), RenderedPackages(cat, requested))
         == requested + MembersOf(cat, Individuals(cat, requested)) - ImmutableClosure(cat)
  {
    RenderedTables(cat, requested);
    ChoiceSplits(cat, requested);
    var g, p := CompleteGroups(cat, requested), Individuals(cat, requested);
    MembersUnion(cat, g, p);
    assert requested * cat.Known() == requested && p * cat.Known() == p;
    assert MembersOf(cat, g) + MembersOf(cat, p) + p == requested + MembersOf(cat, p);
  }

  lemma NothingGained(a: set<Name>, m: set<Name>, i: set<Name>)
    ensures a + m - i == a - i <==> m <= a + i
  {
    if a + m - i == a - i {
      forall x | x in m
        ensures x in a + i
      {
        assert x in i || x in a + m - i;
      }
    }
  }

  /**
   Saving and loading returns the choice without what is immutable, unless a
   saved package has the name of a group: then that group's members come along,
   and the round trip is exact just when they were chosen or immutable anyway.
   */
  lemma ReadsBackTheChoice(cat: Catalog, requested: set<Name>)
    requires cat.Valid() && requested <= cat.Known()
    ensures ReadBack(cat, RenderedGroups(cat, requested), RenderedPackages(cat, requested))
         == requested - ImmutableClosure(cat)
       <==> MembersOf(cat, Individuals(cat, requested)) <= requested + ImmutableClosure(cat)
  {
    RenderedReadsBack(cat, requested);
    NothingGained(requested, MembersOf(cat, Individuals(cat, requested)), ImmutableClosure(cat));
  }

  // ----- agreement -----

  /** Chosen packages that are saved by name, where the name is also a group's. */
  function Shadowed(cat: Catalog, requested: set<Name>): set<Name> {
    Individuals(cat, requested) * cat.groupDefs.Keys
  }

  /** No saved package name is taken by a group. */
  ghost predicate NoShadow(cat: Catalog, requested: set<Name>) {
    Shadowed(cat, requested) == {}
  }

  /** The choice the build reads from the saved tables: a name shared with a group means the group. */
  function ReadAs(cat: Catalog, requested: set<Name>): set<Name> {
    requested - Shadowed(cat, requested) + MembersOf(cat, Shadowed(cat, requested))
  }

  lemma RenderedGroupsOn(cat: Catalog, requested: set<Name>)
    requires cat.Valid()
    ensures GroupsOn(cat, RenderedGroups(cat, requested), RenderedPackages(cat, requested))
         == CompleteGroups(cat, requested) + Shadowed(cat, requested) + ImmutableGroups(cat)
  {
    RenderedTables(cat, requested);
    var g, p := CompleteGroups(cat, requested), Individuals(cat, requested);
    assert (g - p) + p * cat.groupDefs.Keys == g + p * cat.groupDefs.Keys;
  }

  lemma RenderedBase(cat: Catalog, requested: set<Name>)
    requires cat.Valid() && requested <= cat.Known()
    ensures Base(cat, RenderedGroups(cat, requested), RenderedPackages(cat, requested))
         == ReadAs(cat, requested) + ImmutableMembers(cat)
  {
    RenderedGroupsOn(cat, requested);
    RenderedTables(cat, requested);
    ChoiceSplits(cat, requested);
    var packages := RenderedPackages(cat, requested);
    var g, p, s := CompleteGroups(cat, requested), Individuals(cat, requested), Shadowed(cat, requested);
    assert Overrides(cat, packages, true) == p - s && Overrides(cat, packages, false) == {};
    MembersUnion(cat, g, s);
    MembersUnion(cat, g + s, ImmutableGroups(cat));
    assert requested * cat.Known() == requested;
    RestOfChoice(requested, MembersOf(cat, g), p, s);
  }

  lemma RestOfChoice(requested: set<Name>, m: set<Name>, p: set<Name>, s: set<Name>)
    requires m + p == requested && m !! p && s <= p
    ensures m + (p - s) == requested - s
  {
  }

  lemma ReadAsIsKnown(cat: Catalog, requested: set<Name>)
    requires cat.Valid() && requested <= cat.Known()
    ensures Shadowed(cat, requested) <= requested && MembersOf(cat, Shadowed(cat, requested)) <= cat.Known()
    ensures ReadAs(cat, requested) <= cat.Known()
  {
    MembersAreKnown(cat, Shadowed(cat, requested));
  }

  lemma RenderedFlavorLoads(cat: Catalog, requested: set<Name>)
    requires cat.Valid() && requested <= cat.Known()
    ensures LoadFlavorSpec(cat, RenderedGroups(cat, requested), RenderedPackages(cat, requested))
         == Success(Closure(cat, ReadAs(cat, requested) + ImmutableMembers(cat)))
  {
    RenderedTables(cat, requested);
    RenderedBase(cat, requested);
    assert Overrides(cat, RenderedPackages(cat, requested), false) == {};
  }

  /** The unpruned sets of both sides are one closure. */
  lemma UnprunedAgree(cat: Catalog, choice: set<Name>, board: set<Name>, layout: string)
    requires cat.Valid() && choice + board + LayoutRequired(layout) <= cat.Known()
    requires layout in {"ota", "single"}
    ensures Closure(cat, choice + Mandatory(cat, board, Some(layout)))
         == Closure(cat, Closure(cat, choice + ImmutableMembers(cat)) + board + LayoutRequired(layout))
  {
    var imm, rest := ImmutableMembers(cat), board + LayoutRequired(layout);
    ImmutablesKnown(cat);
    assert LayoutNeeds(Some(layout)) == LayoutRequired(layout);
    ClosureAbsorbs(cat, choice + imm, rest);
    ClosureAbsorbs(cat, imm, rest);
    ClosureAbsorbs(cat, imm + rest, choice);
    assert ImmutableClosure(cat) + board + LayoutNeeds(Some(layout)) == ImmutableClosure(cat) + rest;
    assert choice + Closure(cat, imm + rest) == Closure(cat, imm + rest) + choice;
    assert Closure(cat, choice + imm) + board + LayoutRequired(layout) == Closure(cat, choice + imm) + rest;
    assert imm + rest + choice == choice + imm + rest;
  }

  /** Choosing more never costs a board its required packages, nor gains them. */
  lemma RequiredSurvive(cat: Catalog, requested: set<Name>, mandatory: set<Name>, board: set<Name>,
                        target: string, caps: set<string>)
    requires cat.Valid() && requested <= cat.Known() && target != ""
    requires board <= mandatory <= cat.Known()
    ensures board <= Resolve(cat, mandatory, target, Some(caps))
       <==> board <= Resolve(cat, requested + mandatory, target, Some(caps))
  {
    ClosureIsLeast(cat, mandatory);
    ClosureIsLeast(cat, requested + mandatory);
    var ok := OnTarget(cat, target) * OnBoard(cat, caps);
    PrunesCombine(cat, Closure(cat, mandatory), OnTarget(cat, target), OnBoard(cat, caps));
    PrunesCombine(cat, Closure(cat, requested + mandatory), OnTarget(cat, target), OnBoard(cat, caps));
    forall p | p in board
      ensures p in Prune(cat, Closure(cat, mandatory), ok) <==> p in Prune(cat, Closure(cat, requested + mandatory), ok)
    {
      PruneIsLocal(cat, Closure(cat, mandatory), ok, p);
      PruneIsLocal(cat, Closure(cat, requested + mandatory), ok, p);
    }
  }

  lemma MandatoryHolds(cat: Catalog, board: set<Name>, layout: Option<string>)
    requires cat.Valid() && board + LayoutNeeds(layout) <= cat.Known()
    ensures board + ImmutableClosure(cat) <= Mandatory(cat, board, layout) <= cat.Known()
  {
    ImmutablesKnown(cat);
    ClosureIsLeast(cat, ImmutableClosure(cat) + board + LayoutNeeds(layout));
  }

  lemma BuildOfRendered(cat: Catalog, requested: set<Name>, name: string, board: set<Name>, layout: string,
                        target: string, caps: set<string>)
    requires cat.Valid() && requested <= cat.Known() && PublicName(name)
    requires layout in {"ota", "single"} && target != "" && board + LayoutRequired(layout) <= cat.Known()
    ensures var built := Resolve(cat, ReadAs(cat, requested) + Mandatory(cat, board, Some(layout)), target, Some(caps));
      BuildSpec(cat, RenderedGroups(cat, requested), RenderedPackages(cat, requested),
                name, board, layout, target, caps)
      == if board <= built then Success(built) else Failure(UnavailableRequired)
  {
    ReadAsIsKnown(cat, requested);
    RenderedFlavorLoads(cat, requested);
    UnprunedAgree(cat, ReadAs(cat, requested), board, layout);
  }

  /** What the configurator makes of the same choice: its selection, or why it refuses to start. */
  ghost function Shown(cat: Catalog, requested: set<Name>, board: set<Name>, layout: string,
                       target: string, caps: set<string>): Result<set<Name>, Error>
  {
    var mandatory := Mandatory(cat, board, Some(layout));
    if !(board + LayoutNeeds(Some(layout)) <= cat.Known()) then Failure(UnknownRequired)
    else if !(board <= Resolve(cat, mandatory, target, Some(caps))) then Failure(UnavailableRequired)
    else Success(Resolve(cat, requested + mandatory, target, Some(caps)))
  }

  /** Read as a choice, the saved tables differ from what was chosen in the clashing names alone. */
  lemma BuildReadsAs(cat: Catalog, requested: set<Name>, name: string, board: set<Name>, layout: string,
                     target: string, caps: set<string>)
    requires cat.Valid() && requested <= cat.Known()
    requires layout in {"ota", "single"} && target != ""
    ensures BuildSpec(cat, RenderedGroups(cat, requested), RenderedPackages(cat, requested),
                      name, board, layout, target, caps)
         == if PublicName(name) then Shown(cat, ReadAs(cat, requested), board, layout, target, caps)
            else Failure(InvalidName)
  {
    assert LayoutNeeds(Some(layout)) == LayoutRequired(layout);
    ReadAsIsKnown(cat, requested);
    if PublicName(name) && board + LayoutRequired(layout) <= cat.Known() {
      BuildOfRendered(cat, requested, name, board, layout, target, caps);
      MandatoryHolds(cat, board, Some(layout));
      RequiredSurvive(cat, ReadAs(cat, requested), Mandatory(cat, board, Some(layout)), board, target, caps);
    } else {
      RenderedFlavorLoads(cat, requested);
    }
  }

  /**
   The main result: fed the tables the configurator writes, the build enables
   exactly the packages the configurator shows, and it rejects the board's
   required packages exactly when the configurator refuses to start. Only a
   name that is not fit to be shown, which the configurator lets pass, is an
   error of the build's own.
   */
  lemma BuildAgrees(cat: Catalog, requested: set<Name>, name: string, board: set<Name>, layout: string,
                    target: string, caps: set<string>)
    requires cat.Valid() && requested <= cat.Known() && NoShadow(cat, requested)
    requires layout in {"ota", "single"} && target != ""
    ensures BuildSpec(cat, RenderedGroups(cat, requested), RenderedPackages(cat, requested),
                      name, board, layout, target, caps)
         == if PublicName(name) then Shown(cat, requested, board, layout, target, caps) else Failure(InvalidName)
  {
    BuildReadsAs(cat, requested, name, board, layout, target, caps);
    assert ReadAs(cat, requested) == requested;
  }

  // ----- names shared by a package and a group -----

  /** The packages a board can have at all. */
  ghost function Supported(cat: Catalog, target: string, caps: Option<set<string>>): set<Name> {
    if target == "" || caps.None? then cat.Known() else OnTarget(cat, target) * OnBoard(cat, caps.value)
  }

  lemma ResolveIsPruning(cat: Catalog, s: set<Name>, target: string, caps: Option<set<string>>)
    requires cat.Valid() && s <= cat.Known()
    ensures Resolve(cat, s, target, caps) == Prune(cat, Closure(cat, s), Supported(cat, target, caps))
  {
    ClosureIsLeast(cat, s);
    if target == "" || caps.None? {
      PruneIsGreatest(cat, Closure(cat, s), cat.Known());
      assert Closure(cat, s) * cat.Known() == Closure(cat, s);
    } else {
      PrunesCombine(cat, Closure(cat, s), OnTarget(cat, target), OnBoard(cat, caps.value));
    }
  }

  /**
   On this board nothing is gained by the groups whose names were saved for
   packages, and nothing is lost with those packages.
   */
  ghost predicate ClashesHarmless(cat: Catalog, requested: set<Name>, mandatory: set<Name>,
                                  target: string, caps: Option<set<string>>)
  {
    var usable, clashing := Usable(cat, Supported(cat, target, caps)), Shadowed(cat, requested);
    && usable * Closure(cat, MembersOf(cat, clashing)) <= Closure(cat, requested + mandatory)
    && usable * Closure(cat, clashing) <= Closure(cat, ReadAs(cat, requested) + mandatory)
  }

  lemma ReadAsResolves(cat: Catalog, requested: set<Name>, mandatory: set<Name>,
                       target: string, caps: Option<set<string>>)
    requires cat.Valid() && requested + mandatory <= cat.Known()
    ensures Resolve(cat, ReadAs(cat, requested) + mandatory, target, caps)
         == Resolve(cat, requested + mandatory, target, caps)
       <==> ClashesHarmless(cat, requested, mandatory, target, caps)
  {
    var s, m := Shadowed(cat, requested), MembersOf(cat, Shadowed(cat, requested));
    var common := requested - s + mandatory;
    ReadAsIsKnown(cat, requested);
    assert common + s == requested + mandatory && common + m == ReadAs(cat, requested) + mandatory;
    SelectionsAgree(cat, common, s, m, Supported(cat, target, caps));
    ResolveIsPruning(cat, requested + mandatory, target, caps);
    ResolveIsPruning(cat, ReadAs(cat, requested) + mandatory, target, caps);
  }

  /**
   Without the premise on package names: the two sides agree exactly if the flavor's
   name is fit to be shown, and the configurator refuses to start or the clashes are
   harmless on this board.
   */
  lemma BuildAgreesExactly(cat: Catalog, requested: set<Name>, name: string, board: set<Name>, layout: string,
                           target: string, caps: set<string>)
    requires cat.Valid() && requested <= cat.Known()
    requires layout in {"ota", "single"} && target != ""
    ensures var shown := Shown(cat, requested, board, layout, target, caps);
      BuildSpec(cat, RenderedGroups(cat, requested), RenderedPackages(cat, requested),
                name, board, layout, target, caps)
      == shown
      <==>
      && PublicName(name)
      && (shown.Success? ==>
            ClashesHarmless(cat, requested, Mandatory(cat, board, Some(layout)), target, Some(caps)))
  {
    hide BuildSpec, ClashesHarmless, ReadAs, Mandatory, PublicName;
    BuildReadsAs(cat, requested, name, board, layout, target, caps);
    if Shown(cat, requested, board, layout, target, caps).Success? {
      MandatoryHolds(cat, board, Some(layout));
      ReadAsResolves(cat, requested, Mandatory(cat, board, Some(layout)), target, Some(caps));
    }
  }

  /**
   For a model that exists, whatever its user did to it: saved under a name fit to be
   shown it builds, and what is built is what it shows exactly if the clashes are harmless.
   */
  lemma ModelsBuild(model: SelectionModel, name: string)
    requires model.Valid() && model.requested <= model.cat.Known()
    requires model.target != "" && model.capabilities.Some? && model.layout in {Some("ota"), Some("single")}
    ensures var built := BuildSpec(
        model.cat, RenderedGroups(model.cat, model.requested), RenderedPackages(model.cat, model.requested), name,
        model.boardRequired, model.layout.value, model.target, model.capabilities.value);
      && (built.Success? <==> PublicName(name))
      && (built.Success? ==>
            (built.value
             == Resolve(model.cat, model.requested + model.mandatoryUnpruned, model.target, model.capabilities)
             <==> ClashesHarmless(model.cat, model.requested, model.mandatoryUnpruned, model.target,
                                  model.capabilities)))
  {
    hide PublicName;
    BuildReadsAs(model.cat, model.requested, name, model.boardRequired, model.layout.value, model.target,
                 model.capabilities.value);
    MandatoryHolds(model.cat, model.boardRequired, model.layout);
    ReadAsResolves(model.cat, model.requested, model.mandatoryUnpruned, model.target, model.capabilities);
  }

  // ----- reloading -----

  /** The choice of the model that is made from a saved flavor. */
  ghost function Reloaded(cat: Catalog, requested: set<Name>): set<Name> {
    ReadBack(cat, RenderedGroups(cat, requested), RenderedPackages(cat, requested)) - {LAYOUT_PACKAGE}
  }

  lemma MembersOfShadowed(cat: Catalog, requested: set<Name>)
    ensures MembersOf(cat, Individuals(cat, requested)) == MembersOf(cat, Shadowed(cat, requested))
  {
  }

  lemma ReloadedChoice(cat: Catalog, requested: set<Name>, mandatory: set<Name>)
    requires cat.Valid() && requested <= cat.Known() && ImmutableClosure(cat) <= mandatory
    ensures Reloaded(cat, requested) + mandatory
         == requested - {LAYOUT_PACKAGE} + mandatory + (MembersOf(cat, Shadowed(cat, requested)) - {LAYOUT_PACKAGE})
  {
    RenderedReadsBack(cat, requested);
    MembersOfShadowed(cat, requested);
  }

  /**
   Loading what was saved shows the same selection exactly if, on this board,
   the choice of the layout package brought nothing that does not come anyway
   (a new model drops that choice), and the groups whose names were saved for
   packages bring nothing new.
   */
  lemma ReloadShowsTheSame(cat: Catalog, requested: set<Name>, board: set<Name>, layout: Option<string>,
                           target: string, caps: Option<set<string>>)
    requires cat.Valid() && requested <= cat.Known()
    requires board + LayoutNeeds(layout) <= cat.Known()
    ensures
      var mandatory := Mandatory(cat, board, layout);
      var usable := Usable(cat, Supported(cat, target, caps));
      Resolve(cat, Reloaded(cat, requested) + mandatory, target, caps)
      == Resolve(cat, requested + mandatory, target, caps)
      <==>
      && usable * Closure(cat, requested * {LAYOUT_PACKAGE}) <= Closure(cat, Reloaded(cat, requested) + mandatory)
      && usable * Closure(cat, MembersOf(cat, Shadowed(cat, requested)) - {LAYOUT_PACKAGE})
         <= Closure(cat, requested + mandatory)
  {
    var mandatory := Mandatory(cat, board, layout);
    MandatoryHolds(cat, board, layout);
    ReadAsIsKnown(cat, requested);
    ReloadedChoice(cat, requested, mandatory);
    var common, own := requested - {LAYOUT_PACKAGE} + mandatory, requested * {LAYOUT_PACKAGE};
    var gained := MembersOf(cat, Shadowed(cat, requested)) - {LAYOUT_PACKAGE};
    assert common + own == requested + mandatory;
    SelectionsAgree(cat, common, own, gained, Supported(cat, target, caps));
    ResolveIsPruning(cat, common + own, target, caps);
    ResolveIsPruning(cat, common + gained, target, caps);
  }

  lemma NothingCloses(cat: Catalog)
    requires cat.Valid()
    ensures Closure(cat, {}) == {}
  {
    assert Closed(cat, {});
  }

  /**
   Without clashing names only the layout package can make a difference: it must not have
   been chosen, or must bring in nothing usable beyond what comes anyway.
   */
  lemma ReloadWithoutClashes(cat: Catalog, requested: set<Name>, board: set<Name>, layout: Option<string>,
                             target: string, caps: Option<set<string>>)
    requires cat.Valid() && requested <= cat.Known() && NoShadow(cat, requested)
    requires board + LayoutNeeds(layout) <= cat.Known()
    ensures
      var mandatory := Mandatory(cat, board, layout);
      Resolve(cat, Reloaded(cat, requested) + mandatory, target, caps)
      == Resolve(cat, requested + mandatory, target, caps)
      <==>
      LAYOUT_PACKAGE !in requested
      || Usable(cat, Supported(cat, target, caps)) * Closure(cat, {LAYOUT_PACKAGE})
         <= Closure(cat, requested - {LAYOUT_PACKAGE} + mandatory)
  {
    var mandatory := Mandatory(cat, board, layout);
    MandatoryHolds(cat, board, layout);
    ReloadedChoice(cat, requested, mandatory);
    assert Reloaded(cat, requested) + mandatory == requested - {LAYOUT_PACKAGE} + mandatory by {
      assert MembersOf(cat, {}) == {};
    }
    if LAYOUT_PACKAGE in requested {
      var common := requested - {LAYOUT_PACKAGE} + mandatory;
      assert common + {LAYOUT_PACKAGE} == requested + mandatory && common + {} == common;
      NothingCloses(cat);
      hide Closure, Usable, Prune, Resolve, Reloaded, Mandatory, Supported, Shadowed;
      SelectionsAgree(cat, common, {LAYOUT_PACKAGE}, {}, Supported(cat, target, caps));
      ResolveIsPruning(cat, requested + mandatory, target, caps);
      ResolveIsPruning(cat, common, target, caps);
    } else {
      assert requested - {LAYOUT_PACKAGE} == requested;
    }
  }

  // ----- a catalog on which the names clash -----

  const BOOT: Name := "boot"
  const TOOLS: Name := "tools"

  /**
   The immutable group boot holds the package boot, the group tools holds the
   packages x and y, and a group with the name of x holds y alone.
   */
  function ClashingCatalog(x: Name, y: Name): Catalog {
    var plain := PackageDef([], [], [], []);
    Catalog([BOOT, TOOLS, x], [BOOT, x, y],
            map[BOOT := GroupDef(true, true, [BOOT]), TOOLS := GroupDef(false, false, [x, y]),
                x := GroupDef(false, false, [y])],
            map[BOOT := plain, x := plain, y := plain])
  }

  predicate Apart(x: Name, y: Name) {
    x != y && x !in {BOOT, TOOLS} && y != BOOT
  }

  lemma ClashingIsValid(x: Name, y: Name)
    requires Apart(x, y)
    ensures ClashingCatalog(x, y).Valid() && ClashingCatalog(x, y).Known() == {BOOT, x, y}
    ensures forall s: set<Name> :: s <= {BOOT, x, y} ==> Closed(ClashingCatalog(x, y), s)
  {
    var cat := ClashingCatalog(x, y);
    assert cat.Known() == {BOOT, x, y};
  }

  lemma ClashingClosures(x: Name, y: Name, s: set<Name>)
    requires Apart(x, y) && s <= {BOOT, x, y}
    ensures Closure(ClashingCatalog(x, y), s) == s && Prune(ClashingCatalog(x, y), s, {BOOT, x, y}) == s
  {
    var cat := ClashingCatalog(x, y);
    ClashingIsValid(x, y);
    hide ClashingCatalog, Catalog.Valid, Catalog.Known;
    ClosureIsLeast(cat, s);
    PruneIsGreatest(cat, s, {BOOT, x, y});
    assert s * {BOOT, x, y} == s;
  }

  lemma MembersOfOne(cat: Catalog, g: Name)
    requires g in cat.groupDefs
    ensures MembersOf(cat, {g}) == Elements(cat.groupDefs[g].members)
  {
  }

  lemma ClashingMembers(x: Name, y: Name)
    requires Apart(x, y)
    ensures var cat := ClashingCatalog(x, y);
      && ImmutableMembers(cat) == {BOOT} && MembersOf(cat, {x}) == {y}
      && MembersOf(cat, cat.groupDefs.Keys) == {BOOT, x, y}
  {
    var cat := ClashingCatalog(x, y);
    assert ImmutableGroups(cat) == {BOOT} && cat.groupDefs.Keys == {BOOT} + {TOOLS} + {x};
    MembersOfOne(cat, BOOT);
    MembersOfOne(cat, TOOLS);
    MembersOfOne(cat, x);
    MembersUnion(cat, {BOOT} + {TOOLS}, {x});
    MembersUnion(cat, {BOOT}, {TOOLS});
    assert Elements([BOOT]) == {BOOT} && Elements([x, y]) == {x, y} && Elements([y]) == {y};
  }

  lemma ClashingGroups(x: Name, y: Name)
    requires Apart(x, y)
    ensures var cat := ClashingCatalog(x, y);
      && CompleteGroups(cat, {x}) == {} && Shadowed(cat, {x}) == {x} && ReadAs(cat, {x}) == {y}
  {
    var cat := ClashingCatalog(x, y);
    ClashingMembers(x, y);
    assert cat.groupDefs[x].members[0] == y && cat.groupDefs[TOOLS].members[1] == y;
    assert y in Elements(cat.groupDefs[x].members) && y in Elements(cat.groupDefs[TOOLS].members);
    assert CompleteGroups(cat, {x}) == {};
    assert MembersOf(cat, {}) == {};
    assert {x} - {x} + {y} == {y};
  }

  lemma ClashingIsAccepted(x: Name, y: Name)
    requires Apart(x, y)
    ensures Accepted(ClashingCatalog(x, y))
  {
    var cat := ClashingCatalog(x, y);
    ClashingMembers(x, y);
    ClashingIsValid(x, y);
    ClashingClosures(x, y, {BOOT, x, y});
    RankedIsAcyclic(cat.packageDefs, map[BOOT := 0, x := 0, y := 0]);
    assert BOOT in ImmutableGroups(cat);
  }

  lemma ClashingSupport(x: Name, y: Name, target: string)
    requires Apart(x, y)
    ensures OnTarget(ClashingCatalog(x, y), target) == {BOOT, x, y} == OnBoard(ClashingCatalog(x, y), {})
  {
  }

  lemma ClashingResolves(x: Name, y: Name, p: Name, target: string)
    requires Apart(x, y) && p in {x, y}
    ensures var cat := ClashingCatalog(x, y);
      Resolve(cat, {p} + Mandatory(cat, {}, Some("single")), target, Some({})) == {BOOT, p}
  {
    ClashingMembers(x, y);
    ClashingSupport(x, y, target);
    ClashingClosures(x, y, {BOOT});
    ClashingClosures(x, y, {BOOT, p});
    hide ClashingCatalog, Closure, Prune, OnTarget, OnBoard, ImmutableMembers;
    assert {BOOT} + {} + LayoutNeeds(Some("single")) == {BOOT} && {p} + {BOOT} == {BOOT, p};
  }

  /**
   Names do clash on catalogs that load: a chosen package x beside a group x is
   read by the build as the group, so x is lost and the group's member y comes in.
   */
  lemma ShadowedNamesDisagree(x: Name, y: Name, name: string, target: string)
    requires Apart(x, y) && PublicName(name) && target != ""
    ensures var cat := ClashingCatalog(x, y);
      && Accepted(cat) && {x} <= cat.Known() && !NoShadow(cat, {x})
      && BuildSpec(cat, RenderedGroups(cat, {x}), RenderedPackages(cat, {x}), name, {}, "single", target, {})
         == Success({BOOT, y})
      && Shown(cat, {x}, {}, "single", target, {}) == Success({BOOT, x})
      && !ClashesHarmless(cat, {x}, Mandatory(cat, {}, Some("single")), target, Some({}))
  {
    var cat := ClashingCatalog(x, y);
    ClashingIsAccepted(x, y);
    ClashingIsValid(x, y);
    ClashingGroups(x, y);
    ClashingResolves(x, y, x, target);
    ClashingResolves(x, y, y, target);
    assert {} + LayoutNeeds(Some("single")) == {};
    BuildReadsAs(cat, {x}, name, {}, "single", target, {});
    BuildAgreesExactly(cat, {x}, name, {}, "single", target, {});
    assert y !in {BOOT, x};
  }
}
