/** What a merged manifest holds, field by field and item by item, whatever order the merge works in. */
module OverlayLaw {
  import opened Wrappers
  import opened OverlayMerge
  import opened OverlayTheorems

  // ----- names and equal elements -----

  function Names(fields: seq<(string, Value)>): (names: seq<string>)
    ensures |names| == |fields|
  {
    seq(|fields|, i requires 0 <= i < |fields| => fields[i].0)
  }

  /** The first n fields of the overlay that the base does not have. */
  function NewNames(base: seq<(string, Value)>, overlay: seq<(string, Value)>, n: nat): seq<string>
    requires n <= |overlay|
  {
    if n == 0 then []
    else
      NewNames(base, overlay, n - 1)
      + (if overlay[n - 1].0 == "extends" || overlay[n - 1].0 in Names(base) then [] else [overlay[n - 1].0])
  }

  /** Equality of the values of the source language: True is 1 and False is 0. */
  predicate SameAtom(a: Atom, b: Atom) {
    match (a, b)
    case (Flag(p), Number(n)) => n == if p then 1 else 0
    case (Number(n), Flag(p)) => n == if p then 1 else 0
    case _ => a == b
  }

  lemma HashedAlike(a: Atom, b: Atom)
    ensures Hashed(a) == Hashed(b) <==> SameAtom(a, b)
  {
  }

  predicate SameLeaf(v: Value, w: Value) {
    v.Leaf? && w.Leaf? && SameAtom(v.atom, w.atom)
  }

  /** Position a holds a plain value that has no equal before it. */
  ghost predicate FirstOfItsKind(all: seq<Value>, a: nat) {
    a < |all| && all[a].Leaf? && forall c: nat :: c < a ==> !SameLeaf(all[c], all[a])
  }

  /** The list names, of all equal elements among the first n, the first, in their order. */
  ghost predicate ListsFirsts(all: seq<Value>, n: nat, result: seq<Value>, at: seq<nat>) {
    && |at| == |result|
    && (forall i :: 0 <= i < |at| ==> at[i] < n && FirstOfItsKind(all, at[i]) && result[i] == all[at[i]])
    && (forall i, j :: 0 <= i < j < |at| ==> at[i] < at[j])
    && (forall a: nat :: a < n && FirstOfItsKind(all, a) ==> a in at)
  }

  lemma OccursAlike(v: Value, items: seq<Value>)
    ensures Occurs(v, items) <==> exists w :: w in items && SameLeaf(w, v)
  {
    if Occurs(v, items) {
      var w :| w in items && w.Leaf? && Hashed(w.atom) == Hashed(v.atom);
      HashedAlike(w.atom, v.atom);
    }
    if exists w :: w in items && SameLeaf(w, v) {
      var w :| w in items && SameLeaf(w, v);
      HashedAlike(w.atom, v.atom);
    }
  }

  lemma ListedIsNoFirst(all: seq<Value>, n: nat, before: seq<Value>, at: seq<nat>)
    requires n < |all| && ListsFirsts(all, n, before, at) && exists w :: w in before && SameLeaf(w, all[n])
    ensures !FirstOfItsKind(all, n)
  {
    var w :| w in before && SameLeaf(w, all[n]);
    var i :| 0 <= i < |before| && before[i] == w;
    assert SameLeaf(all[at[i]], all[n]);
  }

  lemma NoFirstIsListed(all: seq<Value>, n: nat, before: seq<Value>, at: seq<nat>)
    requires n < |all| && AllLeaves(all) && ListsFirsts(all, n, before, at) && !FirstOfItsKind(all, n)
    ensures exists w :: w in before && SameLeaf(w, all[n])
  {
    var c: nat :| c < n && SameLeaf(all[c], all[n]);
    var a := FirstLike(all, c);
    var i :| 0 <= i < |at| && at[i] == a;
    assert before[i] in before && SameLeaf(before[i], all[n]);
  }

  lemma {:induction false} FirstLike(all: seq<Value>, c: nat) returns (a: nat)
    requires c < |all| && AllLeaves(all)
    ensures a <= c && FirstOfItsKind(all, a) && SameLeaf(all[a], all[c])
  {
    a := c;
    if !FirstOfItsKind(all, c) {
      var d: nat :| d < c && SameLeaf(all[d], all[c]);
      a := FirstLike(all, d);
    }
  }

  /** A union list names each element once, where it first stood. */
  lemma {:induction false} UnionListsFirsts(all: seq<Value>, n: nat) returns (at: seq<nat>)
    requires AllLeaves(all) && n <= |all|
    ensures ListsFirsts(all, n, Distinct(all[..n]), at)
  {
    hide FirstOfItsKind, Occurs, SameLeaf;
    if n == 0 {
      at := [];
    } else {
      at := UnionListsFirsts(all, n - 1);
      var before := Distinct(all[..n - 1]);
      assert all[..n][..n - 1] == all[..n - 1] && all[..n][n - 1] == all[n - 1];
      OccursAlike(all[n - 1], before);
      if Occurs(all[n - 1], before) {
        ListedIsNoFirst(all, n - 1, before, at);
      } else {
        if !FirstOfItsKind(all, n - 1) {
          NoFirstIsListed(all, n - 1, before, at);
        }
        at := OneMoreFirst(all, n, before, at);
      }
    }
  }

  lemma OneMoreFirst(all: seq<Value>, n: nat, before: seq<Value>, at: seq<nat>) returns (more: seq<nat>)
    requires 0 < n <= |all| && ListsFirsts(all, n - 1, before, at) && FirstOfItsKind(all, n - 1)
    ensures ListsFirsts(all, n, before + [all[n - 1]], more)
  {
    hide FirstOfItsKind;
    more := at + [n - 1];
    assert more[|at|] == n - 1;
    assert forall a :: a in at ==> a in more;
  }

  // ----- the law -----

  predicate TakesAway(item: Value) {
    item.Table? && Get(item.fields, "remove") == Some(Leaf(Flag(true)))
  }

  predicate IsUnionPath(path: Path) {
    |path| == 2 && path[0] == Field("build")
    && path[1] in {Field("drivers"), Field("capabilities"), Field("required_packages")}
  }

  function KeysAt(path: Path): seq<string> {
    if |path| != 1 then []
    else if path[0] == Field("buses") || path[0] == Field("devices") then ["name"]
    else if path[0] == Field("pins") then ["gpio"]
    else if path[0] == Field("connectors") then ["connector", "position"]
    else []
  }

  /**
   `result` is `base` under `overlay`. Tables: every field of the base that the overlay does not
   name is as it was and in its place, a new field is the overlay's and comes behind, and a field of
   both is overlaid in turn. Union lists: the elements of both, each once. Keyed lists: each key's
   item is what the overlay's items of that key, in turn, make of the base's. Anything else is the
   overlay's.
   */
  ghost predicate Overlaid(base: Value, overlay: Value, result: Value, path: Path)
    decreases overlay, 1, 0
  {
    if base.Table? && overlay.Table? then
      && result.Table?
      && Names(result.fields) == Names(base.fields) + NewNames(base.fields, overlay.fields, |overlay.fields|)
      && (forall name :: name == "extends" || name !in Names(overlay.fields) ==>
            Get(result.fields, name) == Get(base.fields, name))
      && (forall i :: 0 <= i < |overlay.fields| && overlay.fields[i].0 != "extends" ==>
            var (name, value) := overlay.fields[i];
            && Get(result.fields, name).Some?
            && match Get(base.fields, name)
               case None => Get(result.fields, name).value == value
               case Some(present) => Overlaid(present, value, Get(result.fields, name).value, path + [Field(name)]))
    else if base.List? && overlay.List? && IsUnionPath(path) then
      result.List? && AllLeaves(base.items + overlay.items)
      && exists at :: ListsFirsts(base.items + overlay.items, |base.items + overlay.items|, result.items, at)
    else if base.List? && overlay.List? && KeysAt(path) != [] then
      && result.List? && AllKeyed(base.items, KeysAt(path)) && AllKeyed(overlay.items, KeysAt(path))
      && (KeysDistinct(base.items, KeysAt(path)) ==>
            && KeysDistinct(result.items, KeysAt(path))
            && KeySeq(result.items, KeysAt(path))
               == OrderAfter(KeySeq(base.items, KeysAt(path)), overlay, |overlay.items|, KeysAt(path))
            && forall key ::
                 FoldedTo(Lookup(base.items, KeysAt(path), key), overlay, |overlay.items|, path, KeysAt(path), key,
                          Lookup(result.items, KeysAt(path), key)))
    else result == overlay
  }

  /** The first n items of the overlay lead from what a key held before to what it holds after. */
  ghost predicate FoldedTo(before: Option<Value>, overlay: Value, n: nat, path: Path, keys: seq<string>, key: Key,
                           after: Option<Value>)
    requires overlay.List? && n <= |overlay.items|
    decreases overlay, 0, n
  {
    if n == 0 then after == before
    else
      exists mid :: FoldedTo(before, overlay, n - 1, path, keys, key, mid)
                    && ItemOverlaid(mid, overlay, n, path, keys, key, after)
  }

  ghost predicate ItemOverlaid(mid: Option<Value>, overlay: Value, n: nat, path: Path, keys: seq<string>, key: Key,
                               after: Option<Value>)
    requires overlay.List? && 0 < n <= |overlay.items|
    decreases overlay, 0, n, 0
  {
    var item := overlay.items[n - 1];
    if KeyOf(item, keys) != Success(key) then after == mid
    else if TakesAway(item) then after == None
    else if mid.None? then after == Some(item)
    else after.Some? && Overlaid(mid.value, item, after.value, path + [Item(key)])
  }

  lemma PathsAgree(path: Path)
    ensures UnionList(path) <==> IsUnionPath(path)
    ensures KeysOf(path) == if KeysAt(path) == [] then None else Some(KeysAt(path))
    ensures "extends" !in KeysAt(path)
  {
    assert |path| == 2 ==> path == [path[0], path[1]];
    assert |path| == 1 ==> path == [path[0]];
    assert "extends"[0] != "name"[0] && "extends"[0] != "gpio"[0];
    assert "extends"[0] != "connector"[0] && "extends"[0] != "position"[0];
  }

  lemma {:induction false} NamesAfterPut(fields: seq<(string, Value)>, name: string, value: Value)
    ensures Names(Put(fields, name, value)) == if name in Names(fields) then Names(fields) else Names(fields) + [name]
  {
    if fields != [] {
      assert fields == [fields[0]] + fields[1..];
      assert Names(fields) == [fields[0].0] + Names(fields[1..]);
      if fields[0].0 == name {
        assert name == Names(fields)[0];
      } else {
        NamesAfterPut(fields[1..], name, value);
        assert Names(Put(fields, name, value)) == [fields[0].0] + Names(Put(fields[1..], name, value));
      }
    }
  }

  lemma {:induction false} GetNamed(fields: seq<(string, Value)>, name: string)
    ensures Get(fields, name).Some? <==> name in Names(fields)
  {
    if fields != [] {
      GetNamed(fields[1..], name);
      assert Names(fields) == [fields[0].0] + Names(fields[1..]);
    }
  }

  /** The law for the first n fields. */
  ghost predicate FieldsOverlaid(base: seq<(string, Value)>, overlay: Value, n: nat, path: Path,
                                 result: seq<(string, Value)>)
    requires overlay.Table? && n <= |overlay.fields|
  {
    && Names(result) == Names(base) + NewNames(base, overlay.fields, n)
    && (forall name :: name == "extends" || (forall i :: 0 <= i < n ==> overlay.fields[i].0 != name) ==>
          Get(result, name) == Get(base, name))
    && (forall i :: 0 <= i < n && overlay.fields[i].0 != "extends" ==>
          FieldOverlaid(base, overlay.fields[i].0, overlay.fields[i].1, path, result))
  }

  ghost predicate FieldOverlaid(base: seq<(string, Value)>, name: string, value: Value, path: Path,
                                result: seq<(string, Value)>)
  {
    && Get(result, name).Some?
    && match Get(base, name)
       case None => Get(result, name).value == value
       case Some(present) => Overlaid(present, value, Get(result, name).value, path + [Field(name)])
  }

  lemma {:induction false} FieldsObey(base: seq<(string, Value)>, overlay: Value, n: nat, path: Path)
    requires overlay.Table? && WellFormed(overlay) && n <= |overlay.fields|
    requires MergeFields(base, overlay, n, path).Success?
    ensures FieldsOverlaid(base, overlay, n, path, MergeFields(base, overlay, n, path).value)
    decreases overlay, 0, n
  {
    var result := MergeFields(base, overlay, n, path).value;
    if n > 0 {
      FieldsObey(base, overlay, n - 1, path);
      var before := MergeFields(base, overlay, n - 1, path).value;
      var (name, value) := overlay.fields[n - 1];
      assert forall i :: 0 <= i < n - 1 ==> overlay.fields[i].0 != name;
      if name != "extends" {
        assert Get(before, name) == Get(base, name);
        if Get(base, name).Some? {
          MergeObeys(Get(base, name).value, value, path + [Field(name)]);
        }
        var put := if Get(base, name).Some? then Merge(Get(base, name).value, value, path + [Field(name)]).value
                   else value;
        OneMoreField(base, overlay, n, path, before, put);
      }
    }
  }

  lemma OneMoreField(base: seq<(string, Value)>, overlay: Value, n: nat, path: Path, before: seq<(string, Value)>,
                     put: Value)
    requires overlay.Table? && WellFormed(overlay) && 0 < n <= |overlay.fields|
    requires FieldsOverlaid(base, overlay, n - 1, path, before) && overlay.fields[n - 1].0 != "extends"
    requires var (name, value) := overlay.fields[n - 1];
      match Get(base, name)
      case None => put == value
      case Some(present) => Overlaid(present, value, put, path + [Field(name)])
    ensures FieldsOverlaid(base, overlay, n, path, Put(before, overlay.fields[n - 1].0, put))
  {
    hide Overlaid, Put, Get;
    var name := overlay.fields[n - 1].0;
    var result := Put(before, name, put);
    forall other
      ensures Get(result, other) == if other == name then Some(put) else Get(before, other)
    {
      GetAfterPut(before, name, put, other);
    }
    NamesAfterPut(before, name, put);
    GetNamed(base, name);
    GetNamed(before, name);
    assert forall i :: 0 <= i < n - 1 ==> overlay.fields[i].0 != name;
    assert Get(before, name) == Get(base, name);
    forall i | 0 <= i < n && overlay.fields[i].0 != "extends"
      ensures FieldOverlaid(base, overlay.fields[i].0, overlay.fields[i].1, path, result)
    {
      if i < n - 1 {
        assert FieldOverlaid(base, overlay.fields[i].0, overlay.fields[i].1, path, before);
      }
    }
  }

  /** The overlay's items of one key, in turn. */
  lemma {:induction false} ItemsObey(base: Option<Value>, overlay: Value, n: nat, path: Path, keys: seq<string>,
                                     key: Key)
    requires overlay.List? && WellFormed(overlay) && n <= |overlay.items|
    requires FoldKey(base, overlay, n, path, keys, key).Success?
    ensures FoldedTo(base, overlay, n, path, keys, key, FoldKey(base, overlay, n, path, keys, key).value)
    decreases overlay, 0, n
  {
    if n > 0 {
      ItemsObey(base, overlay, n - 1, path, keys, key);
      var mid, item := FoldKey(base, overlay, n - 1, path, keys, key).value, overlay.items[n - 1];
      var after := FoldKey(base, overlay, n, path, keys, key).value;
      if KeyOf(item, keys) == Success(key) && !Removes(item) && mid.Some? {
        MergeObeys(mid.value, item, path + [Item(key)]);
      }
      assert ItemOverlaid(mid, overlay, n, path, keys, key, after);
    }
  }

  lemma {:induction false} ItemsKeyed(base: seq<Value>, overlay: Value, n: nat, path: Path, keys: seq<string>)
    requires overlay.List? && n <= |overlay.items| && MergeItems(base, overlay, n, path, keys).Success?
    ensures AllKeyed(base, keys) && forall i :: 0 <= i < n ==> KeyOf(overlay.items[i], keys).Success?
    decreases n
  {
    if n > 0 {
      ItemsKeyed(base, overlay, n - 1, path, keys);
    }
  }

  lemma KeyedListObeys(base: Value, overlay: Value, path: Path)
    requires base.List? && overlay.List? && WellFormed(overlay) && KeysAt(path) != [] && !IsUnionPath(path)
    requires MergeItems(base.items, overlay, |overlay.items|, path, KeysAt(path)).Success?
    ensures var items := MergeItems(base.items, overlay, |overlay.items|, path, KeysAt(path)).value;
      Overlaid(base, overlay, List(items), path)
    decreases overlay, 1, 0
  {
    var keys, n := KeysAt(path), |overlay.items|;
    var result := MergeItems(base.items, overlay, n, path, keys).value;
    PathsAgree(path);
    ItemsKeyed(base.items, overlay, n, path, keys);
    if KeysDistinct(base.items, keys) {
      KeyedMergeIsAnOrderedMap(base.items, overlay, n, path, keys, []);
      forall key
        ensures FoldedTo(Lookup(base.items, keys, key), overlay, n, path, keys, key, Lookup(result, keys, key))
      {
        KeyedMergeIsAnOrderedMap(base.items, overlay, n, path, keys, key);
        ItemsObey(Lookup(base.items, keys, key), overlay, n, path, keys, key);
      }
    }
  }

  /** Whatever the merge returns is the base under the overlay. */
  lemma {:induction false} MergeObeys(base: Value, overlay: Value, path: Path)
    requires WellFormed(overlay) && Merge(base, overlay, path).Success?
    ensures Overlaid(base, overlay, Merge(base, overlay, path).value, path)
    decreases overlay, 2, 0
  {
    PathsAgree(path);
    if base.Table? && overlay.Table? {
      FieldsObey(base.fields, overlay, |overlay.fields|, path);
      TableObeys(base, overlay, Table(MergeFields(base.fields, overlay, |overlay.fields|, path).value), path);
    } else if base.List? && overlay.List? && IsUnionPath(path) {
      var all := base.items + overlay.items;
      assert forall i :: 0 <= i < |all| ==> all[i] in all;
      var at := UnionListsFirsts(all, |all|);
      assert all[..|all|] == all;
    } else if base.List? && overlay.List? && KeysAt(path) != [] {
      KeyedListObeys(base, overlay, path);
    }
  }

  lemma TableObeys(base: Value, overlay: Value, result: Value, path: Path)
    requires base.Table? && overlay.Table? && result.Table?
    requires FieldsOverlaid(base.fields, overlay, |overlay.fields|, path, result.fields)
    ensures Overlaid(base, overlay, result, path)
  {
    forall name | name !in Names(overlay.fields)
      ensures Get(result.fields, name) == Get(base.fields, name)
    {
      assert forall i :: 0 <= i < |overlay.fields| ==> overlay.fields[i].0 == Names(overlay.fields)[i];
    }
    forall i | 0 <= i < |overlay.fields| && overlay.fields[i].0 != "extends"
      ensures FieldOverlaid(base.fields, overlay.fields[i].0, overlay.fields[i].1, path, result.fields)
    {
    }
  }

  // ----- manifests that merge -----

  /** At every list with a rule of its own the items are what the rule needs. */
  ghost predicate Clean(v: Value, path: Path) {
    match v
    case Leaf(_) => true
    case Table(fields) => forall i :: 0 <= i < |fields| ==> Clean(fields[i].1, path + [Field(fields[i].0)])
    case List(items) =>
      && (IsUnionPath(path) ==> AllLeaves(items))
      && (KeysAt(path) != [] ==>
            forall i :: 0 <= i < |items| ==>
              HasPlainParts(items[i], KeysAt(path)) && forall key :: Clean(items[i], path + [Item(key)]))
  }

  lemma {:induction false} GetClean(fields: seq<(string, Value)>, name: string, path: Path)
    requires Clean(Table(fields), path) && Get(fields, name).Some?
    ensures Clean(Get(fields, name).value, path + [Field(name)])
  {
    var i := GetFinds(fields, name);
    assert Table(fields).fields[i] == fields[i];
  }

  lemma {:induction false} PutClean(fields: seq<(string, Value)>, name: string, value: Value, path: Path)
    requires Clean(Table(fields), path) && Clean(value, path + [Field(name)])
    ensures Clean(Table(Put(fields, name, value)), path)
  {
    var put := Put(fields, name, value);
    if fields != [] {
      assert forall i :: 0 <= i < |fields| ==> Table(fields).fields[i] == fields[i];
      if fields[0].0 != name {
        assert forall i :: 0 <= i < |fields[1..]| ==> Table(fields[1..]).fields[i] == fields[i + 1];
        PutClean(fields[1..], name, value, path);
        var rest := Put(fields[1..], name, value);
        forall i | 0 <= i < |put|
          ensures Clean(put[i].1, path + [Field(put[i].0)])
        {
          assert i > 0 ==> put[i] == rest[i - 1] && Table(rest).fields[i - 1] == rest[i - 1];
        }
      }
    }
  }

  lemma {:induction false} CleanFieldsMerge(base: seq<(string, Value)>, overlay: Value, n: nat, path: Path)
    requires overlay.Table? && WellFormed(overlay) && n <= |overlay.fields|
    requires Clean(Table(base), path) && Clean(overlay, path)
    ensures MergeFields(base, overlay, n, path).Success?
    ensures Clean(Table(MergeFields(base, overlay, n, path).value), path)
    decreases overlay, 0, n
  {
    if n > 0 {
      CleanFieldsMerge(base, overlay, n - 1, path);
      var before := MergeFields(base, overlay, n - 1, path).value;
      var (name, value) := overlay.fields[n - 1];
      if name != "extends" {
        var put := value;
        if Get(before, name).Some? {
          GetClean(before, name, path);
          CleanMerge(Get(before, name).value, value, path + [Field(name)]);
          put := Merge(Get(before, name).value, value, path + [Field(name)]).value;
        }
        PutClean(before, name, put, path);
      }
    }
  }

  ghost predicate OneCleanItem(item: Value, path: Path, keys: seq<string>) {
    HasPlainParts(item, keys) && forall key :: Clean(item, path + [Item(key)])
  }

  /** Items that are keyed and clean below their own keys. */
  ghost predicate CleanItems(items: seq<Value>, path: Path, keys: seq<string>) {
    forall v :: v in items ==> OneCleanItem(v, path, keys)
  }

  lemma CleanItemsKeyed(items: seq<Value>, path: Path, keys: seq<string>)
    requires CleanItems(items, path, keys)
    ensures AllKeyed(items, keys)
  {
    forall i | 0 <= i < |items|
      ensures KeyOf(items[i], keys).Success?
    {
      assert OneCleanItem(items[i], path, keys);
      KeyErrors(items[i], keys);
    }
  }

  /** Below the items of keyed lists no list has a rule of its own. */
  lemma {:induction false} DeepIsClean(v: Value, path: Path)
    requires |path| >= 2 && path[1].Item?
    ensures Clean(v, path)
  {
    match v
    case Leaf(_) =>
    case List(_) =>
    case Table(fields) =>
      forall i | 0 <= i < |fields|
        ensures Clean(fields[i].1, path + [Field(fields[i].0)])
      {
        DeepIsClean(fields[i].1, path + [Field(fields[i].0)]);
      }
  }

  lemma {:induction false} CleanItemsMerge(base: seq<Value>, overlay: Value, n: nat, path: Path)
    requires overlay.List? && WellFormed(overlay) && n <= |overlay.items| && KeysAt(path) != []
    requires CleanItems(base, path, KeysAt(path)) && CleanItems(overlay.items, path, KeysAt(path))
    ensures MergeItems(base, overlay, n, path, KeysAt(path)).Success?
    ensures CleanItems(MergeItems(base, overlay, n, path, KeysAt(path)).value, path, KeysAt(path))
    decreases overlay, 0, n
  {
    hide Clean, Merge, HasPlainParts, KeysAt, CleanItems;
    var keys := KeysAt(path);
    CleanItemsKeyed(base, path, keys);
    CleanItemsKeyed(overlay.items, path, keys);
    if n > 0 {
      CleanItemsMerge(base, overlay, n - 1, path);
      var before, item := MergeItems(base, overlay, n - 1, path, keys).value, overlay.items[n - 1];
      var key := KeyOf(item, keys).value;
      var at := LastIndex(before, keys, key);
      assert OneCleanItem(item, path, keys) by { CleanItemAt(overlay.items, path, keys, n - 1); }
      var merged := item;
      if at.Some? && !Removes(item) {
        CleanItemAt(before, path, keys, at.value);
        MergedItemIsClean(before[at.value], item, path, key);
        merged := Merge(before[at.value], item, path + [Item(key)]).value;
      }
      EditedItemsAreClean(before, path, keys, if at.Some? then at.value else 0, merged);
    }
  }

  lemma CleanItemAt(items: seq<Value>, path: Path, keys: seq<string>, i: nat)
    requires CleanItems(items, path, keys) && i < |items|
    ensures OneCleanItem(items[i], path, keys)
  {
  }

  /** However a clean list is edited, at position i or at its end. */
  lemma EditedItemsAreClean(items: seq<Value>, path: Path, keys: seq<string>, i: nat, item: Value)
    requires CleanItems(items, path, keys) && OneCleanItem(item, path, keys)
    ensures CleanItems(items + [item], path, keys)
    ensures i < |items| ==> CleanItems(items[i := item], path, keys) && CleanItems(Without(items, i), path, keys)
  {
    hide OneCleanItem;
    assert forall v :: v in items + [item] ==> OneCleanItem(v, path, keys);
    if i < |items| {
      assert forall v :: v in items[i := item] ==> v in items || v == item;
      assert forall v :: v in Without(items, i) ==> v in items;
    }
  }

  lemma {:induction false} MergedItemIsClean(present: Value, item: Value, path: Path, key: Key)
    requires KeysAt(path) != [] && WellFormed(item) && KeyOf(item, KeysAt(path)) == Success(key)
    requires OneCleanItem(present, path, KeysAt(path)) && OneCleanItem(item, path, KeysAt(path))
    ensures var merged := Merge(present, item, path + [Item(key)]);
      merged.Success? && OneCleanItem(merged.value, path, KeysAt(path))
    decreases item, 3, 0
  {
    var below := path + [Item(key)];
    assert |path| == 1 && below[1] == Item(key);
    DeepIsClean(present, below);
    DeepIsClean(item, below);
    CleanMerge(present, item, below);
    PathsAgree(path);
    MergedKeepsKey(present, item, below, KeysAt(path));
    var merged := Merge(present, item, below).value;
    assert merged.Table?;
    KeyErrors(merged, KeysAt(path));
    forall other
      ensures Clean(merged, path + [Item(other)])
    {
      assert (path + [Item(other)])[1] == Item(other);
      DeepIsClean(merged, path + [Item(other)]);
    }
  }

  lemma CleanListMeans(items: seq<Value>, path: Path)
    ensures Clean(List(items), path) <==>
      && (IsUnionPath(path) ==> AllLeaves(items))
      && (KeysAt(path) != [] ==> CleanItems(items, path, KeysAt(path)))
  {
    var keys := KeysAt(path);
    assert List(items).items == items;
    if Clean(List(items), path) && keys != [] {
      forall v | v in items
        ensures OneCleanItem(v, path, keys)
      {
        var i :| 0 <= i < |items| && items[i] == v;
      }
    }
    if CleanItems(items, path, keys) {
      forall i | 0 <= i < |items|
        ensures HasPlainParts(items[i], keys) && forall key :: Clean(items[i], path + [Item(key)])
      {
        assert OneCleanItem(items[i], path, keys);
      }
    }
  }

  lemma {:induction false} CleanListsMerge(base: Value, overlay: Value, path: Path)
    requires base.List? && overlay.List? && WellFormed(overlay) && Clean(base, path) && Clean(overlay, path)
    ensures Merge(base, overlay, path).Success? && Clean(Merge(base, overlay, path).value, path)
    decreases overlay, 1, 0
  {
    PathsAgree(path);
    CleanListMeans(base.items, path);
    CleanListMeans(overlay.items, path);
    hide Clean, CleanItems, KeysAt, KeysOf;
    if IsUnionPath(path) {
      var all := base.items + overlay.items;
      UnionIsDistinct(all);
      CleanListMeans(Distinct(all), path);
      assert !exists v :: v in all && !v.Leaf?;
      UnionPathsHaveNoKeys(path);
      assert Merge(base, overlay, path) == Success(List(Distinct(all)));
    } else if KeysAt(path) != [] {
      CleanItemsMerge(base.items, overlay, |overlay.items|, path);
      var items := MergeItems(base.items, overlay, |overlay.items|, path, KeysAt(path)).value;
      CleanListMeans(items, path);
      assert Merge(base, overlay, path) == Success(List(items));
    } else {
      assert Merge(base, overlay, path) == Success(overlay);
    }
  }

  lemma UnionPathsHaveNoKeys(path: Path)
    requires IsUnionPath(path)
    ensures KeysAt(path) == []
  {
  }

  /** Clean manifests always merge, and what they merge to is clean. */
  lemma {:induction false} CleanMerge(base: Value, overlay: Value, path: Path)
    requires WellFormed(overlay) && Clean(base, path) && Clean(overlay, path)
    ensures Merge(base, overlay, path).Success? && Clean(Merge(base, overlay, path).value, path)
    decreases overlay, 2, 0
  {
    if base.Table? && overlay.Table? {
      assert Table(base.fields) == base;
      CleanFieldsMerge(base.fields, overlay, |overlay.fields|, path);
    } else if base.List? && overlay.List? {
      CleanListsMerge(base, overlay, path);
    }
  }
}
