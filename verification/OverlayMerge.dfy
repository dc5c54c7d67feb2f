/** Merging a board overlay into its base manifest, with an index kept beside each keyed list. */
module OverlayMerge {
  import opened Wrappers

  datatype Atom = Text(text: string) | Number(number: int) | Flag(flag: bool)

  /** A TOML value; a table keeps the order in which its fields were set. */
  datatype Value =
    | Leaf(atom: Atom)
    | List(items: seq<Value>)
    | Table(fields: seq<(string, Value)>)

  datatype Step = Field(name: string) | Item(key: Key)

  type Path = seq<Step>
  type Key = seq<Atom>

  datatype MergeError = MissingKey | NotATable | Unhashable

  // ----- which lists are merged how -----

  predicate UnionList(path: Path) {
    path in {[Field("build"), Field("drivers")], [Field("build"), Field("capabilities")],
             [Field("build"), Field("required_packages")]}
  }

  function KeysOf(path: Path): Option<seq<string>> {
    if path == [Field("buses")] || path == [Field("devices")] then Some(["name"])
    else if path == [Field("pins")] then Some(["gpio"])
    else if path == [Field("connectors")] then Some(["connector", "position"])
    else None
  }

  // ----- tables -----

  /** The value of a field, looking from the front. */
  function Get(fields: seq<(string, Value)>, name: string): Option<Value> {
    if fields == [] then None
    else if fields[0].0 == name then Some(fields[0].1)
    else Get(fields[1..], name)
  }

  /** Setting a field keeps its place, or puts it last. */
  function Put(fields: seq<(string, Value)>, name: string, value: Value): seq<(string, Value)> {
    if fields == [] then [(name, value)]
    else if fields[0].0 == name then [(name, value)] + fields[1..]
    else [fields[0]] + Put(fields[1..], name, value)
  }

  lemma {:induction false} GetAfterPut(fields: seq<(string, Value)>, name: string, value: Value, other: string)
    ensures Get(Put(fields, name, value), other) == if other == name then Some(value) else Get(fields, other)
  {
    if fields != [] {
      if fields[0].0 == name {
        assert ([(name, value)] + fields[1..])[1..] == fields[1..];
      } else {
        GetAfterPut(fields[1..], name, value, other);
        assert ([fields[0]] + Put(fields[1..], name, value))[1..] == Put(fields[1..], name, value);
      }
    }
  }

  // ----- keys -----

  /** Equal numbers and truth values are one dictionary key. */
  function Hashed(a: Atom): Atom {
    match a
    case Flag(b) => Number(if b then 1 else 0)
    case _ => a
  }

  /** _item_key, and the hashing of its result: the parts are looked up before any is hashed. */
  function KeyOf(item: Value, keys: seq<string>): Result<Key, MergeError> {
    if !item.Table? then Failure(NotATable)
    else if keys == [] then Success([])
    else
      match Get(item.fields, keys[0])
      case None => Failure(MissingKey)
      case Some(v) =>
        var rest := KeyOf(item, keys[1..]);
        if rest.Failure? then rest
        else if !v.Leaf? then Failure(Unhashable)
        else Success([Hashed(v.atom)] + rest.value)
  }

  ghost predicate HasParts(item: Value, keys: seq<string>) {
    item.Table? && forall k :: k in keys ==> Get(item.fields, k).Some?
  }

  ghost predicate HasPlainParts(item: Value, keys: seq<string>) {
    item.Table? && forall k :: k in keys ==> Get(item.fields, k).Some? && Get(item.fields, k).value.Leaf?
  }

  /** A key is made of the named parts; a missing part is reported before one that is no plain value. */
  lemma {:induction false} KeyErrors(item: Value, keys: seq<string>)
    requires item.Table?
    ensures
      if !HasParts(item, keys) then KeyOf(item, keys) == Failure(MissingKey)
      else if !HasPlainParts(item, keys) then KeyOf(item, keys) == Failure(Unhashable)
      else
        && KeyOf(item, keys).Success? && |KeyOf(item, keys).value| == |keys|
        && forall i :: 0 <= i < |keys| ==>
             KeyOf(item, keys).value[i] == Hashed(Get(item.fields, keys[i]).value.atom)
  {
    if keys != [] {
      KeyErrors(item, keys[1..]);
      assert keys[0] in keys;
      assert forall k :: k in keys <==> k == keys[0] || k in keys[1..];
    }
  }

  /** Where the last item with a key stands; the index dictionary holds exactly these. */
  function LastIndex(items: seq<Value>, keys: seq<string>, key: Key): (i: Option<nat>)
    ensures i.Some? ==> i.value < |items| && KeyOf(items[i.value], keys) == Success(key)
  {
    if items == [] then None
    else if KeyOf(items[|items| - 1], keys) == Success(key) then Some(|items| - 1)
    else LastIndex(items[..|items| - 1], keys, key)
  }

  predicate Removes(item: Value) {
    item.Table? && Get(item.fields, "remove") == Some(Leaf(Flag(true)))
  }

  function Without(items: seq<Value>, i: nat): seq<Value>
    requires i < |items|
  {
    items[..i] + items[i + 1..]
  }

  // ----- the merge -----

  /** merge_board_overlay */
  function Merge(base: Value, overlay: Value, path: Path): Result<Value, MergeError>
    decreases overlay
  {
    if base.Table? && overlay.Table? then
      var fields := MergeFields(base.fields, overlay, |overlay.fields|, path);
      if fields.Failure? then Failure(fields.error) else Success(Table(fields.value))
    else if base.List? && overlay.List? then
      if UnionList(path) then Union(base.items + overlay.items)
      else if KeysOf(path).None? then Success(overlay)
      else
        var items := MergeItems(base.items, overlay, |overlay.items|, path, KeysOf(path).value);
        if items.Failure? then Failure(items.error) else Success(List(items.value))
    else Success(overlay)
  }

  /** The first n fields of an overlay table, one after the other. */
  function MergeFields(base: seq<(string, Value)>, overlay: Value, n: nat, path: Path)
    : Result<seq<(string, Value)>, MergeError>
    requires overlay.Table? && n <= |overlay.fields|
    decreases overlay, n
  {
    if n == 0 then Success(base)
    else
      var before := MergeFields(base, overlay, n - 1, path);
      var name, value := overlay.fields[n - 1].0, overlay.fields[n - 1].1;
      if before.Failure? || name == "extends" then before
      else
        match Get(before.value, name)
        case None => Success(Put(before.value, name, value))
        case Some(present) =>
          var merged := Merge(present, value, path + [Field(name)]);
          if merged.Failure? then Failure(merged.error) else Success(Put(before.value, name, merged.value))
  }

  /** The first n items of an overlay of a keyed list, one after the other. */
  function MergeItems(base: seq<Value>, overlay: Value, n: nat, path: Path, keys: seq<string>)
    : Result<seq<Value>, MergeError>
    requires overlay.List? && n <= |overlay.items|
    decreases overlay, n
  {
    if n == 0 then
      if FirstBadKey(base, keys).Some? then Failure(FirstBadKey(base, keys).value) else Success(base)
    else
      var before := MergeItems(base, overlay, n - 1, path, keys);
      var item := overlay.items[n - 1];
      if before.Failure? then before
      else
        match KeyOf(item, keys)
        case Failure(error) => Failure(error)
        case Success(key) =>
          var at := LastIndex(before.value, keys, key);
          if Removes(item) then Success(if at.Some? then Without(before.value, at.value) else before.value)
          else if at.None? then Success(before.value + [item])
          else
            var merged := Merge(before.value[at.value], item, path + [Item(key)]);
            if merged.Failure? then Failure(merged.error) else Success(before.value[at.value := merged.value])
  }

  /** The first item of a list that has no key. */
  function FirstBadKey(items: seq<Value>, keys: seq<string>): (e: Option<MergeError>)
    ensures e.None? <==> forall i :: 0 <= i < |items| ==> KeyOf(items[i], keys).Success?
  {
    if items == [] then None
    else if KeyOf(items[0], keys).Failure? then Some(KeyOf(items[0], keys).error)
    else
      var rest := FirstBadKey(items[1..], keys);
      assert forall i :: 1 <= i < |items| ==> items[i] == items[1..][i - 1];
      rest
  }

  /** The distinct elements of a list, each where it first occurred. */
  function Union(items: seq<Value>): Result<Value, MergeError> {
    if exists v :: v in items && !v.Leaf? then Failure(Unhashable) else Success(List(Distinct(items)))
  }

  function Distinct(items: seq<Value>): seq<Value> {
    if items == [] then []
    else
      var before := Distinct(items[..|items| - 1]);
      if Occurs(items[|items| - 1], before) then before else before + [items[|items| - 1]]
  }

  predicate Occurs(v: Value, items: seq<Value>) {
    v.Leaf? && exists w :: w in items && w.Leaf? && Hashed(w.atom) == Hashed(v.atom)
  }

  // ----- a merged item keeps its key -----

  /** Tables are dictionaries: no field twice, at any depth. */
  ghost predicate WellFormed(v: Value) {
    match v
    case Leaf(_) => true
    case List(items) => forall i :: 0 <= i < |items| ==> WellFormed(items[i])
    case Table(fields) =>
      && (forall i, j :: 0 <= i < j < |fields| ==> fields[i].0 != fields[j].0)
      && (forall i :: 0 <= i < |fields| ==> WellFormed(fields[i].1))
  }

  lemma {:induction false} GetFinds(fields: seq<(string, Value)>, name: string) returns (i: nat)
    requires Get(fields, name).Some?
    ensures i < |fields| && fields[i].0 == name && fields[i].1 == Get(fields, name).value
  {
    if fields[0].0 == name {
      i := 0;
    } else {
      var j := GetFinds(fields[1..], name);
      i := j + 1;
    }
  }

  /** A plain value in the overlay is the value after the merge. */
  lemma {:induction false} LeafFieldWins(base: seq<(string, Value)>, overlay: Value, n: nat, path: Path, i: nat)
    requires overlay.Table? && WellFormed(overlay) && i < n <= |overlay.fields|
    requires overlay.fields[i].0 != "extends" && overlay.fields[i].1.Leaf?
    requires MergeFields(base, overlay, n, path).Success?
    ensures Get(MergeFields(base, overlay, n, path).value, overlay.fields[i].0) == Some(overlay.fields[i].1)
    decreases n
  {
    var before := MergeFields(base, overlay, n - 1, path).value;
    var name, value := overlay.fields[n - 1].0, overlay.fields[n - 1].1;
    if i < n - 1 {
      LeafFieldWins(base, overlay, n - 1, path, i);
      assert overlay.fields[i].0 != name;
    }
    if name != "extends" {
      var present := Get(before, name);
      var merged := if present.Some? then Merge(present.value, value, path + [Field(name)]).value else value;
      GetAfterPut(before, name, merged, overlay.fields[i].0);
    }
  }

  lemma {:induction false} KeyFields(a: Value, b: Value, keys: seq<string>)
    requires a.Table? && b.Table? && KeyOf(b, keys).Success?
    requires forall k :: k in keys ==>
      Get(b.fields, k).Some? && (Get(b.fields, k).value.Leaf? ==> Get(a.fields, k) == Get(b.fields, k))
    ensures KeyOf(a, keys) == KeyOf(b, keys)
  {
    if keys != [] {
      assert keys[0] in keys;
      KeyFields(a, b, keys[1..]);
    }
  }

  lemma {:induction false} KeyHasFields(b: Value, keys: seq<string>, k: string)
    requires KeyOf(b, keys).Success? && k in keys
    ensures b.Table? && Get(b.fields, k).Some?
  {
    if keys[0] != k {
      KeyHasFields(b, keys[1..], k);
    }
  }

  /** What a merge makes of an item has the key the overlay gave it. */
  lemma MergedKeepsKey(base: Value, item: Value, path: Path, keys: seq<string>)
    requires WellFormed(item) && base.Table? && "extends" !in keys
    requires KeyOf(item, keys).Success? && Merge(base, item, path).Success?
    ensures KeyOf(Merge(base, item, path).value, keys) == KeyOf(item, keys)
  {
    if keys == [] {
      assert item.Table?;
    } else {
      KeyHasFields(item, keys, keys[0]);
      var merged := Merge(base, item, path).value;
      forall k | k in keys
        ensures Get(item.fields, k).Some?
        ensures Get(item.fields, k).value.Leaf? ==> Get(merged.fields, k) == Get(item.fields, k)
      {
        KeyHasFields(item, keys, k);
        var i := GetFinds(item.fields, k);
        if item.fields[i].1.Leaf? {
          LeafFieldWins(base.fields, item, |item.fields|, path, i);
        }
      }
      KeyFields(merged, item, keys);
    }
  }
}
