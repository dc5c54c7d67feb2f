/** A keyed list under its overlay is an ordered map: keys stay unique, and each key folds alone. */
module OverlayTheorems {
  import opened Wrappers
  import opened OverlayMerge

  ghost predicate AllKeyed(items: seq<Value>, keys: seq<string>) {
    forall i :: 0 <= i < |items| ==> KeyOf(items[i], keys).Success?
  }

  ghost predicate KeysDistinct(items: seq<Value>, keys: seq<string>) {
    AllKeyed(items, keys) && forall i, j :: 0 <= i < j < |items| ==> KeyOf(items[i], keys) != KeyOf(items[j], keys)
  }

  lemma {:induction false} LastIndexFinds(items: seq<Value>, keys: seq<string>, key: Key, i: nat)
    requires i < |items| && KeyOf(items[i], keys) == Success(key)
    ensures LastIndex(items, keys, key).Some? && LastIndex(items, keys, key).value >= i
  {
    if KeyOf(items[|items| - 1], keys) != Success(key) {
      LastIndexFinds(items[..|items| - 1], keys, key, i);
    }
  }

  lemma OnlyIndex(items: seq<Value>, keys: seq<string>, key: Key, i: nat)
    requires KeysDistinct(items, keys) && i < |items| && KeyOf(items[i], keys) == Success(key)
    ensures LastIndex(items, keys, key) == Some(i)
  {
    LastIndexFinds(items, keys, key, i);
  }

  lemma NoIndex(items: seq<Value>, keys: seq<string>, key: Key)
    requires forall i :: 0 <= i < |items| ==> KeyOf(items[i], keys) != Success(key)
    ensures LastIndex(items, keys, key) == None
  {
  }

  /** The item of a key. */
  function Lookup(items: seq<Value>, keys: seq<string>, key: Key): Option<Value> {
    var i := LastIndex(items, keys, key);
    if i.Some? then Some(items[i.value]) else None
  }

  lemma LookupIs(items: seq<Value>, keys: seq<string>, key: Key, i: nat)
    requires KeysDistinct(items, keys) && i < |items| && KeyOf(items[i], keys) == Success(key)
    ensures Lookup(items, keys, key) == Some(items[i])
  {
    OnlyIndex(items, keys, key, i);
  }

  lemma LookupAfterAppend(items: seq<Value>, keys: seq<string>, v: Value, key: Key, other: Key)
    requires KeysDistinct(items, keys) && KeyOf(v, keys) == Success(key) && LastIndex(items, keys, key).None?
    ensures KeysDistinct(items + [v], keys)
    ensures Lookup(items + [v], keys, other) == if other == key then Some(v) else Lookup(items, keys, other)
  {
    forall i | 0 <= i < |items|
      ensures KeyOf(items[i], keys) != Success(key)
    {
      if KeyOf(items[i], keys) == Success(key) {
        LastIndexFinds(items, keys, key, i);
      }
    }
    assert (items + [v])[..|items|] == items;
  }

  lemma LookupAfterReplace(items: seq<Value>, keys: seq<string>, i: nat, v: Value, key: Key, other: Key)
    requires KeysDistinct(items, keys) && i < |items|
    requires KeyOf(items[i], keys) == Success(key) == KeyOf(v, keys)
    ensures KeysDistinct(items[i := v], keys)
    ensures Lookup(items[i := v], keys, other) == if other == key then Some(v) else Lookup(items, keys, other)
  {
    var after := items[i := v];
    if other == key {
      LookupIs(after, keys, key, i);
    } else if LastIndex(items, keys, other).Some? {
      LookupIs(after, keys, other, LastIndex(items, keys, other).value);
    } else {
      NoneAnywhere(items, keys, other);
      NoIndex(after, keys, other);
    }
  }

  lemma NoneAnywhere(items: seq<Value>, keys: seq<string>, key: Key)
    requires LastIndex(items, keys, key).None?
    ensures forall i :: 0 <= i < |items| ==> KeyOf(items[i], keys) != Success(key)
  {
    forall i | 0 <= i < |items|
      ensures KeyOf(items[i], keys) != Success(key)
    {
      if KeyOf(items[i], keys) == Success(key) {
        LastIndexFinds(items, keys, key, i);
      }
    }
  }

  lemma LookupAfterRemove(items: seq<Value>, keys: seq<string>, i: nat, key: Key, other: Key)
    requires KeysDistinct(items, keys) && i < |items| && KeyOf(items[i], keys) == Success(key)
    ensures KeysDistinct(Without(items, i), keys)
    ensures Lookup(Without(items, i), keys, other) == if other == key then None else Lookup(items, keys, other)
  {
    var after := Without(items, i);
    assert forall j :: 0 <= j < |after| ==> after[j] == items[if j < i then j else j + 1];
    if other == key {
      NoIndex(after, keys, key);
    } else if LastIndex(items, keys, other).Some? {
      var j := LastIndex(items, keys, other).value;
      assert after[if j < i then j else j - 1] == items[j];
      LookupIs(after, keys, other, if j < i then j else j - 1);
    } else {
      NoneAnywhere(items, keys, other);
      NoIndex(after, keys, other);
    }
  }

  // ----- the ordered map -----

  /** What the overlay's items of one key, in turn, make of what that key held. */
  function FoldKey(present: Option<Value>, overlay: Value, n: nat, path: Path, keys: seq<string>, key: Key)
    : Result<Option<Value>, MergeError>
    requires overlay.List? && n <= |overlay.items|
  {
    if n == 0 then Success(present)
    else
      var before, item := FoldKey(present, overlay, n - 1, path, keys, key), overlay.items[n - 1];
      if before.Failure? || KeyOf(item, keys) != Success(key) then before
      else if Removes(item) then Success(None)
      else if before.value.None? then Success(Some(item))
      else
        var merged := Merge(before.value.value, item, path + [Item(key)]);
        if merged.Failure? then Failure(merged.error) else Success(Some(merged.value))
  }

  function KeySeq(items: seq<Value>, keys: seq<string>): (ks: seq<Key>)
    requires forall i :: 0 <= i < |items| ==> KeyOf(items[i], keys).Success?
    ensures |ks| == |items|
  {
    seq(|items|, i requires 0 <= i < |items| => KeyOf(items[i], keys).value)
  }

  function Dropped(order: seq<Key>, key: Key): seq<Key> {
    if order == [] then []
    else if order[0] == key then Dropped(order[1..], key)
    else [order[0]] + Dropped(order[1..], key)
  }

  /** The order of keys: removed keys leave it, new ones join at its end. */
  function OrderAfter(order: seq<Key>, overlay: Value, n: nat, keys: seq<string>): seq<Key>
    requires overlay.List? && n <= |overlay.items|
  {
    if n == 0 then order
    else
      var before, item := OrderAfter(order, overlay, n - 1, keys), overlay.items[n - 1];
      match KeyOf(item, keys)
      case Failure(_) => before
      case Success(key) =>
        if Removes(item) then Dropped(before, key)
        else if key in before then before
        else before + [key]
  }

  lemma {:induction false} DroppedIsRemoval(order: seq<Key>, key: Key, i: nat)
    requires i < |order| && order[i] == key
    requires forall j, k :: 0 <= j < k < |order| ==> order[j] != order[k]
    ensures Dropped(order, key) == order[..i] + order[i + 1..]
  {
    if i == 0 {
      DroppedAbsent(order[1..], key);
    } else {
      DroppedIsRemoval(order[1..], key, i - 1);
      assert order[..i] == [order[0]] + order[1..][..i - 1];
    }
  }

  lemma {:induction false} DroppedAbsent(order: seq<Key>, key: Key)
    requires key !in order
    ensures Dropped(order, key) == order
  {
    if order != [] {
      DroppedAbsent(order[1..], key);
    }
  }

  /** Two lists agree on every key but one. */
  ghost predicate AgreeElsewhere(a: seq<Value>, b: seq<Value>, keys: seq<string>, key: Key) {
    forall other :: other != key ==> Lookup(b, keys, other) == Lookup(a, keys, other)
  }

  lemma ItemRemoved(items: seq<Value>, keys: seq<string>, key: Key)
    requires KeysDistinct(items, keys)
    ensures var at := LastIndex(items, keys, key);
      var after := if at.Some? then Without(items, at.value) else items;
      && KeysDistinct(after, keys) && KeySeq(after, keys) == Dropped(KeySeq(items, keys), key)
      && Lookup(after, keys, key) == None && AgreeElsewhere(items, after, keys, key)
  {
    var at, order := LastIndex(items, keys, key), KeySeq(items, keys);
    if at.None? {
      NoneAnywhere(items, keys, key);
      DroppedAbsent(order, key);
    } else {
      assert order[at.value] == key;
      DroppedIsRemoval(order, key, at.value);
      forall other { LookupAfterRemove(items, keys, at.value, key, other); }
      assert KeySeq(Without(items, at.value), keys) == order[..at.value] + order[at.value + 1..];
    }
  }

  lemma ItemAdded(items: seq<Value>, keys: seq<string>, item: Value, key: Key)
    requires KeysDistinct(items, keys) && KeyOf(item, keys) == Success(key) && LastIndex(items, keys, key).None?
    ensures var after := items + [item];
      && KeysDistinct(after, keys) && key !in KeySeq(items, keys) && KeySeq(after, keys) == KeySeq(items, keys) + [key]
      && Lookup(after, keys, key) == Some(item) && AgreeElsewhere(items, after, keys, key)
  {
    NoneAnywhere(items, keys, key);
    forall other { LookupAfterAppend(items, keys, item, key, other); }
  }

  lemma ItemReplaced(items: seq<Value>, keys: seq<string>, i: nat, v: Value, key: Key)
    requires KeysDistinct(items, keys) && i < |items| && LastIndex(items, keys, key) == Some(i)
    requires KeyOf(v, keys) == Success(key)
    ensures var after := items[i := v];
      && KeysDistinct(after, keys) && KeySeq(after, keys) == KeySeq(items, keys) && key in KeySeq(items, keys)
      && Lookup(after, keys, key) == Some(v) && AgreeElsewhere(items, after, keys, key)
  {
    assert KeySeq(items, keys)[i] == key;
    LookupAfterReplace(items, keys, i, v, key, key);
    assert KeySeq(items[i := v], keys) == KeySeq(items, keys);
    forall other { LookupAfterReplace(items, keys, i, v, key, other); }
  }

  /** The state after item n, in terms of the state before it. */
  ghost predicate FollowsOrder(before: seq<Value>, after: seq<Value>, item: Value, path: Path, keys: seq<string>,
                               key: Key)
    requires AllKeyed(before, keys) && AllKeyed(after, keys)
  {
    && KeySeq(after, keys) == (if Removes(item) then Dropped(KeySeq(before, keys), key)
                               else if key in KeySeq(before, keys) then KeySeq(before, keys)
                               else KeySeq(before, keys) + [key])
    && AgreeElsewhere(before, after, keys, key)
    && var held := Lookup(before, keys, key);
       if Removes(item) then Lookup(after, keys, key) == None
       else if held.None? then Lookup(after, keys, key) == Some(item)
       else
         var merged := Merge(held.value, item, path + [Item(key)]);
         merged.Success? && Lookup(after, keys, key) == Some(merged.value)
  }

  lemma OneItem(base: seq<Value>, overlay: Value, n: nat, path: Path, keys: seq<string>)
    requires overlay.List? && 0 < n <= |overlay.items| && WellFormed(overlay) && "extends" !in keys
    requires MergeItems(base, overlay, n, path, keys).Success?
    requires KeysDistinct(MergeItems(base, overlay, n - 1, path, keys).value, keys)
    ensures var before := MergeItems(base, overlay, n - 1, path, keys).value;
      var after := MergeItems(base, overlay, n, path, keys).value;
      && KeysDistinct(after, keys) && KeyOf(overlay.items[n - 1], keys).Success?
      && FollowsOrder(before, after, overlay.items[n - 1], path, keys, KeyOf(overlay.items[n - 1], keys).value)
  {
    var before, item := MergeItems(base, overlay, n - 1, path, keys).value, overlay.items[n - 1];
    var key := KeyOf(item, keys).value;
    var at := LastIndex(before, keys, key);
    if Removes(item) {
      ItemRemoved(before, keys, key);
    } else if at.None? {
      ItemAdded(before, keys, item, key);
    } else {
      MergedKeepsKey(before[at.value], item, path + [Item(key)], keys);
      ItemReplaced(before, keys, at.value, Merge(before[at.value], item, path + [Item(key)]).value, key);
    }
  }

  /**
   Merging an overlay into a keyed list is folding it over an ordered map: keys
   stay unique, keep their order with removals and additions at the end, and the
   item of each key is the fold of that key's overlay items alone.
   */
  lemma {:induction false} KeyedMergeIsAnOrderedMap(base: seq<Value>, overlay: Value, n: nat, path: Path,
                                                    keys: seq<string>, key: Key)
    requires overlay.List? && n <= |overlay.items| && WellFormed(overlay) && "extends" !in keys
    requires KeysDistinct(base, keys) && MergeItems(base, overlay, n, path, keys).Success?
    ensures var result := MergeItems(base, overlay, n, path, keys).value;
      && KeysDistinct(result, keys)
      && KeySeq(result, keys) == OrderAfter(KeySeq(base, keys), overlay, n, keys)
      && FoldKey(Lookup(base, keys, key), overlay, n, path, keys, key) == Success(Lookup(result, keys, key))
  {
    if n > 0 {
      KeyedMergeIsAnOrderedMap(base, overlay, n - 1, path, keys, key);
      OneItem(base, overlay, n, path, keys);
    }
  }

  // ----- union lists -----

  ghost predicate AllLeaves(items: seq<Value>) {
    forall i :: 0 <= i < |items| ==> items[i].Leaf?
  }

  /** A union list names each element once, and names all of them. */
  lemma {:induction false} UnionIsDistinct(items: seq<Value>)
    requires AllLeaves(items)
    ensures var d := Distinct(items);
      && AllLeaves(d)
      && (forall i, j :: 0 <= i < j < |d| ==> Hashed(d[i].atom) != Hashed(d[j].atom))
      && (forall v :: v in items ==> Occurs(v, d))
      && (forall v :: v in d ==> v in items)
  {
    if items != [] {
      var init, last := items[..|items| - 1], items[|items| - 1];
      UnionIsDistinct(init);
      assert items == init + [last];
      forall v | v in items
        ensures Occurs(v, Distinct(items))
      {
        if v in init {
          var w :| w in Distinct(init) && w.Leaf? && Hashed(w.atom) == Hashed(v.atom);
          assert w in Distinct(items);
        } else {
          assert v == last && (Occurs(last, Distinct(init)) || last in Distinct(items));
        }
      }
    }
  }

  /** The base's elements come first, in their order. */
  lemma {:induction false} UnionExtendsBase(base: seq<Value>, more: seq<Value>)
    ensures Distinct(base) <= Distinct(base + more)
    decreases |more|
  {
    if more == [] {
      assert base + more == base;
    } else {
      UnionExtendsBase(base, more[..|more| - 1]);
      assert (base + more)[..|base + more| - 1] == base + more[..|more| - 1];
    }
  }
}
