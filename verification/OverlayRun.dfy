/** merge_board_overlay as it runs: dictionaries updated field by field, lists edited beside an index. */
module OverlayRun {
  import opened Wrappers
  import opened OverlayMerge
  import OverlayLaw

  /** The index dictionary holds the position of the last item of each key, and nothing else. */
  ghost predicate IndexOk(items: seq<Value>, keys: seq<string>, indexes: map<Key, nat>) {
    forall key :: LastIndex(items, keys, key) == if key in indexes then Some(indexes[key]) else None
  }

  lemma IndexOfPrefix(items: seq<Value>, keys: seq<string>, indexes: map<Key, nat>, i: nat)
    requires i < |items| && IndexOk(items[..i], keys, indexes) && KeyOf(items[i], keys).Success?
    ensures IndexOk(items[..i + 1], keys, indexes[KeyOf(items[i], keys).value := i])
  {
    assert items[..i + 1][..i] == items[..i];
  }

  lemma {:induction false} SameKeysSameIndex(a: seq<Value>, b: seq<Value>, keys: seq<string>, key: Key)
    requires |a| == |b| && forall i :: 0 <= i < |a| ==> KeyOf(a[i], keys) == KeyOf(b[i], keys)
    ensures LastIndex(a, keys, key) == LastIndex(b, keys, key)
  {
    if a != [] {
      SameKeysSameIndex(a[..|a| - 1], b[..|b| - 1], keys, key);
    }
  }

  lemma IndexAfterReplace(items: seq<Value>, keys: seq<string>, indexes: map<Key, nat>, i: nat, v: Value)
    requires IndexOk(items, keys, indexes) && i < |items| && KeyOf(v, keys) == KeyOf(items[i], keys)
    ensures IndexOk(items[i := v], keys, indexes)
  {
    forall key
      ensures LastIndex(items[i := v], keys, key) == LastIndex(items, keys, key)
    {
      SameKeysSameIndex(items[i := v], items, keys, key);
    }
  }

  lemma IndexAfterAppend(items: seq<Value>, keys: seq<string>, indexes: map<Key, nat>, v: Value)
    requires IndexOk(items, keys, indexes) && KeyOf(v, keys).Success?
    ensures IndexOk(items + [v], keys, indexes[KeyOf(v, keys).value := |items|])
  {
    assert (items + [v])[..|items|] == items;
  }

  /** The dictionary comprehension over a list; it fails at the first item without a key. */
  method BuildIndex(items: seq<Value>, keys: seq<string>) returns (r: Result<map<Key, nat>, MergeError>)
    ensures match FirstBadKey(items, keys)
      case Some(e) => r == Failure(e)
      case None => r.Success? && IndexOk(items, keys, r.value)
  {
    var indexes: map<Key, nat> := map[];
    for i := 0 to |items|
      invariant IndexOk(items[..i], keys, indexes)
      invariant FirstBadKey(items, keys) == FirstBadKey(items[i..], keys)
    {
      var key := KeyOf(items[i], keys);
      assert items[i..][0] == items[i] && items[i..][1..] == items[i + 1..];
      if key.Failure? {
        return Failure(key.error);
      }
      IndexOfPrefix(items, keys, indexes, i);
      indexes := indexes[key.value := i];
    }
    assert items[..|items|] == items;
    r := Success(indexes);
  }

  lemma KeyedPathsAreClean(path: Path)
    ensures KeysOf(path).Some? ==> "extends" !in KeysOf(path).value
  {
    assert "extends"[0] != "name"[0] && "extends"[0] != "gpio"[0];
    assert "extends"[0] != "connector"[0] && "extends"[0] != "position"[0];
  }

  lemma MergeIsLawful(base: Value, overlay: Value, path: Path)
    requires WellFormed(overlay)
    ensures var r := Merge(base, overlay, path);
      && (r.Success? ==> OverlayLaw.Overlaid(base, overlay, r.value, path))
      && (OverlayLaw.Clean(base, path) && OverlayLaw.Clean(overlay, path) ==> r.Success?)
  {
    if Merge(base, overlay, path).Success? {
      OverlayLaw.MergeObeys(base, overlay, path);
    }
    if OverlayLaw.Clean(base, path) && OverlayLaw.Clean(overlay, path) {
      OverlayLaw.CleanMerge(base, overlay, path);
    }
  }

  /** merge_board_overlay */
  method MergeOverlay(base: Value, overlay: Value, path: Path) returns (r: Result<Value, MergeError>)
    requires WellFormed(overlay)
    ensures r == Merge(base, overlay, path)
    ensures r.Success? ==> OverlayLaw.Overlaid(base, overlay, r.value, path)
    ensures OverlayLaw.Clean(base, path) && OverlayLaw.Clean(overlay, path) ==> r.Success?
    decreases overlay
  {
    MergeIsLawful(base, overlay, path);
    if base.Table? && overlay.Table? {
      r := MergeTables(base.fields, overlay, path);
    } else if base.List? && overlay.List? {
      if UnionList(path) {
        return Union(base.items + overlay.items);
      }
      var keys := KeysOf(path);
      if keys.None? {
        return Success(overlay);
      }
      KeyedPathsAreClean(path);
      r := MergeKeyed(base.items, overlay, path, keys.value);
    } else {
      r := Success(overlay);
    }
  }

  method MergeTables(base: seq<(string, Value)>, overlay: Value, path: Path) returns (r: Result<Value, MergeError>)
    requires overlay.Table? && WellFormed(overlay)
    ensures var fields := MergeFields(base, overlay, |overlay.fields|, path);
      r == if fields.Failure? then Failure(fields.error) else Success(Table(fields.value))
    decreases overlay, 0
  {
    var result := base;
    var n := 0;
    while n < |overlay.fields|
      invariant n <= |overlay.fields| && MergeFields(base, overlay, n, path) == Success(result)
    {
      var (name, value) := overlay.fields[n];
      if name != "extends" {
        var present := Get(result, name);
        var merged := Success(value);
        if present.Some? {
          merged := MergeOverlay(present.value, value, path + [Field(name)]);
        }
        if merged.Failure? {
          FieldsStayFailed(base, overlay, n + 1, |overlay.fields|, path);
          return Failure(merged.error);
        }
        result := Put(result, name, merged.value);
      }
      n := n + 1;
    }
    r := Success(Table(result));
  }

  lemma {:induction false} FieldsStayFailed(base: seq<(string, Value)>, overlay: Value, n: nat, m: nat, path: Path)
    requires overlay.Table? && n <= m <= |overlay.fields| && MergeFields(base, overlay, n, path).Failure?
    ensures MergeFields(base, overlay, m, path) == MergeFields(base, overlay, n, path)
    decreases m
  {
    if n < m {
      FieldsStayFailed(base, overlay, n, m - 1, path);
    }
  }

  lemma {:induction false} ItemsStayFailed(base: seq<Value>, overlay: Value, n: nat, m: nat, path: Path,
                                           keys: seq<string>)
    requires overlay.List? && n <= m <= |overlay.items| && MergeItems(base, overlay, n, path, keys).Failure?
    ensures MergeItems(base, overlay, m, path, keys) == MergeItems(base, overlay, n, path, keys)
    decreases m
  {
    if n < m {
      ItemsStayFailed(base, overlay, n, m - 1, path, keys);
    }
  }

  /** A keyed list and its index, edited together for each overlay item. */
  method MergeKeyed(base: seq<Value>, overlay: Value, path: Path, keys: seq<string>)
    returns (r: Result<Value, MergeError>)
    requires overlay.List? && WellFormed(overlay) && "extends" !in keys
    ensures var items := MergeItems(base, overlay, |overlay.items|, path, keys);
      r == if items.Failure? then Failure(items.error) else Success(List(items.value))
    decreases overlay, 1
  {
    var built := BuildIndex(base, keys);
    if built.Failure? {
      ItemsStayFailed(base, overlay, 0, |overlay.items|, path, keys);
      return Failure(built.error);
    }
    var result, indexes := base, built.value;
    var n := 0;
    while n < |overlay.items|
      invariant n <= |overlay.items| && MergeItems(base, overlay, n, path, keys) == Success(result)
      invariant IndexOk(result, keys, indexes) && FirstBadKey(result, keys).None?
    {
      var step, next := MergeItem(base, result, indexes, overlay, n, path, keys);
      if step.Failure? {
        ItemsStayFailed(base, overlay, n + 1, |overlay.items|, path, keys);
        return Failure(step.error);
      }
      result, indexes := step.value, next;
      n := n + 1;
    }
    r := Success(List(result));
  }

  /** One overlay item: removal rebuilds the index, a merge leaves it, an addition extends it. */
  method MergeItem(ghost base: seq<Value>, result: seq<Value>, indexes: map<Key, nat>, overlay: Value, n: nat,
                   path: Path, keys: seq<string>)
    returns (r: Result<seq<Value>, MergeError>, next: map<Key, nat>)
    requires overlay.List? && n < |overlay.items| && WellFormed(overlay) && "extends" !in keys
    requires MergeItems(base, overlay, n, path, keys) == Success(result)
    requires IndexOk(result, keys, indexes) && FirstBadKey(result, keys).None?
    ensures r == MergeItems(base, overlay, n + 1, path, keys)
    ensures r.Success? ==> IndexOk(r.value, keys, next) && FirstBadKey(r.value, keys).None?
    decreases overlay, 0
  {
    var item := overlay.items[n];
    next := indexes;
    var key := KeyOf(item, keys);
    if key.Failure? {
      return Failure(key.error), indexes;
    }
    assert LastIndex(result, keys, key.value) == if key.value in indexes then Some(indexes[key.value]) else None;
    if Removes(item) {
      if key.value in indexes {
        var left := Without(result, indexes[key.value]);
        var built := BuildIndex(left, keys);
        return Success(left), built.value;
      }
      return Success(result), indexes;
    }
    if key.value in indexes {
      var merged := MergeOverlay(result[indexes[key.value]], item, path + [Item(key.value)]);
      if merged.Failure? {
        return Failure(merged.error), indexes;
      }
      MergedKeepsKey(result[indexes[key.value]], item, path + [Item(key.value)], keys);
      IndexAfterReplace(result, keys, indexes, indexes[key.value], merged.value);
      return Success(result[indexes[key.value] := merged.value]), indexes;
    }
    IndexAfterAppend(result, keys, indexes, item);
    return Success(result + [item]), indexes[key.value := |result|];
  }
}
