/**
 * What a server may fill in, exactly. A schema says which values the normalisers take away where; a live
 * mapping fits a desired one when every difference is such a value or an omitted empty. The main result is
 * that fitting is what acceptance decides, whatever the documents.
 */
module ReleaseFilling {
  import opened Common
  import opened ReleaseTrees
  import opened ReleaseNormalisation

  /** Where the normalisers look in a mapping: table defaults, the pull policy of an image, allocated keys,
      mappings below (always, or only beside a desired one), lists of named items, a restored empty value, and
      mappings that go when they have become empty. */
  datatype Schema = Schema(
    defaults: Table,
    pullPolicy: bool,
    granted: set<string>,
    objects: map<string, Schema>,
    guarded: map<string, Schema>,
    items: map<string, Schema>,
    restores: bool,
    dropsEmptied: set<string>)

  const NOTHING := Schema([], false, {}, map[], map[], map[], false, {})

  function Only(table: Table): Schema { NOTHING.(defaults := table) }

  function TableOf(s: Schema, ref: Object): Table { s.defaults + if s.pullPolicy then PullPolicyTable(ref) else [] }

  ghost predicate InTable(table: Table, key: string, value: Tree) {
    exists i :: 0 <= i < |table| && table[i] == (key, value)
  }

  // ---------------------------------------------------------------- what fits

  /** A live value that the normaliser takes away because the desired item `ref` does not mention its key. */
  ghost predicate TakenAway(s: Schema, live: Object, ref: Object, key: string)
    requires key in live
    decreases s, 0
  {
    && key !in ref
    && (|| InTable(TableOf(s, ref), key, live[key])
        || key in s.granted
        || (key in s.dropsEmptied && live[key].Map?
            && if key in s.objects then AllTakenAway(s.objects[key], live[key].entries, map[])
               else live[key] == Map(map[])))
  }

  ghost predicate AllTakenAway(s: Schema, live: Object, ref: Object)
    decreases s, 1
  {
    !Restores(s, live, ref) && forall k | k in live :: TakenAway(s, live, ref, k)
  }

  /** An environment value that is explicitly empty in `ref` and missing from the live item. */
  predicate Restores(s: Schema, live: Object, ref: Object) {
    && s.restores && "value" in ref && ref["value"] == Str("")
    && "value" !in live && "valueFrom" !in live
  }

  /** A value of which nothing is left but an omitted empty. */
  ghost predicate Vanishes(s: Schema, value: Tree, ref: Object, key: string) {
    if value.Map? && key in s.objects then AllTakenAway(s.objects[key], value.entries, ObjectAt(ref, key))
    else if value.Map? && key in s.guarded && HasObject(ref, key) then
      AllTakenAway(s.guarded[key], value.entries, ref[key].entries)
    else Empty(value)
  }

  /** Every key of the live or the desired mapping is accounted for. */
  ghost predicate Fits(s: Schema, live: Object, ref: Object, desired: Object)
    decreases s, 2
  {
    forall k | k in live || k in desired || k == "value" :: KeyFits(s, live, ref, desired, k)
  }

  ghost predicate KeyFits(s: Schema, live: Object, ref: Object, desired: Object, key: string)
    decreases s, 1
  {
    if key in live && !TakenAway(s, live, ref, key) then
      if key in desired then ValueFits(s, live[key], ref, desired[key], key) else Vanishes(s, live[key], ref, key)
    else if key == "value" && Restores(s, live, ref) then key in desired && desired[key] == Str("")
    else key in desired ==> Empty(desired[key])
  }

  ghost predicate ValueFits(s: Schema, value: Tree, ref: Object, desired: Tree, key: string)
    decreases s, 0
  {
    if value.Map? && key in s.objects then
      desired.Map? && Fits(s.objects[key], value.entries, ObjectAt(ref, key), desired.entries)
    else if value.Map? && key in s.guarded && HasObject(ref, key) then
      desired.Map? && Fits(s.guarded[key], value.entries, ref[key].entries, desired.entries)
    else if value.List? && key in s.items then
      && desired.List? && |value.items| == |desired.items|
      && forall i | 0 <= i < |value.items| :: ItemFits(s.items[key], value.items[i], ref, key, desired.items[i])
    else Related(value, desired)
  }

  /** An item is normalised against the desired item of its name, and compared with the one at its place. */
  ghost predicate ItemFits(s: Schema, item: Tree, ref: Object, key: string, desired: Tree)
    decreases s, 3
  {
    if item.Map? then desired.Map? && Fits(s, item.entries, MatchingItem(ref, key, item.entries), desired.entries)
    else Related(item, desired)
  }

  // ---------------------------------------------------------------- what normalising by a schema leaves

  ghost function Edit(s: Schema, live: Object, ref: Object): Object
    decreases s, 1
  {
    map k | k in live.Keys + {"value"} && (if k in live then !TakenAway(s, live, ref, k) else Restores(s, live, ref)) ::
      if k in live then EditValue(s, live[k], ref, k) else Str("")
  }

  ghost function EditValue(s: Schema, value: Tree, ref: Object, key: string): Tree
    decreases s, 0
  {
    if value.Map? && key in s.objects then Map(Edit(s.objects[key], value.entries, ObjectAt(ref, key)))
    else if value.Map? && key in s.guarded && HasObject(ref, key) then
      Map(Edit(s.guarded[key], value.entries, ref[key].entries))
    else if value.List? && key in s.items then
      List(EditList(s.items[key], value.items, ref, key))
    else value
  }

  ghost function EditList(s: Schema, items: seq<Tree>, ref: Object, key: string): (r: seq<Tree>)
    ensures |r| == |items| && forall i | 0 <= i < |items| :: r[i] == EditItem(s, items[i], ref, key)
    decreases s, 3
  {
    seq(|items|, i requires 0 <= i < |items| => EditItem(s, items[i], ref, key))
  }

  ghost function EditItem(s: Schema, item: Tree, ref: Object, key: string): Tree
    decreases s, 2
  {
    if item.Map? then Map(Edit(s, item.entries, MatchingItem(ref, key, item.entries))) else item
  }

  lemma EditEmpties(s: Schema, live: Object, ref: Object)
    ensures Edit(s, live, ref) == map[] <==> AllTakenAway(s, live, ref)
  {
    var left := Edit(s, live, ref);
    if left == map[] {
      forall k | k in live ensures TakenAway(s, live, ref, k) { assert k !in left; }
      assert "value" !in left;
    }
    if AllTakenAway(s, live, ref) { assert forall k :: k !in left; }
  }

  lemma VanishingIsExact(s: Schema, value: Tree, ref: Object, key: string)
    ensures Empty(EditValue(s, value, ref, key)) <==> Vanishes(s, value, ref, key)
  {
    if value.Map? && key in s.objects {
      EditEmpties(s.objects[key], value.entries, ObjectAt(ref, key));
    } else if value.Map? && key in s.guarded && HasObject(ref, key) {
      EditEmpties(s.guarded[key], value.entries, ref[key].entries);
    }
  }

  lemma {:induction false} RelatedByIndex(a: seq<Tree>, b: seq<Tree>)
    ensures RelatedItems(a, b) <==> |a| == |b| && forall i | 0 <= i < |a| :: Related(a[i], b[i])
  {
    if a != [] && |a| == |b| {
      RelatedByIndex(a[1..], b[1..]);
      assert forall i | 0 < i < |a| :: a[i] == a[1..][i - 1] && b[i] == b[1..][i - 1];
    }
  }

  /** How one key of an edited mapping compares with the desired one. */
  ghost predicate KeyRelated(left: Object, desired: Object, key: string) {
    if key in left then
      if key in desired then Related(left[key], desired[key]) else Empty(left[key])
    else key in desired ==> Empty(desired[key])
  }

  lemma RelatedByKey(left: Object, desired: Object)
    ensures Related(Map(left), Map(desired)) <==> forall k | k in left || k in desired :: KeyRelated(left, desired, k)
  {
  }

  /** What normalising leaves relates to the desired mapping exactly when the live one fits it. */
  lemma {:induction false} FittingIsExact(s: Schema, live: Object, ref: Object, desired: Object)
    ensures Related(Map(Edit(s, live, ref)), Map(desired)) <==> Fits(s, live, ref, desired)
    decreases s, 2
  {
    var left := Edit(s, live, ref);
    RelatedByKey(left, desired);
    forall k ensures KeyRelated(left, desired, k) <==> KeyFits(s, live, ref, desired, k) {
      KeyIsExact(s, live, ref, desired, k);
    }
    forall k | k !in live && k !in desired && k != "value" ensures k !in left {}
    forall k | k !in left && k !in desired ensures KeyRelated(left, desired, k) {}
  }

  lemma KeyIsExact(s: Schema, live: Object, ref: Object, desired: Object, key: string)
    ensures KeyRelated(Edit(s, live, ref), desired, key) <==> KeyFits(s, live, ref, desired, key)
    decreases s, 1
  {
    var left := Edit(s, live, ref);
    if key in live && !TakenAway(s, live, ref, key) {
      assert key in left && left[key] == EditValue(s, live[key], ref, key);
      if key in desired {
        ValueIsExact(s, live[key], ref, desired[key], key);
      } else {
        VanishingIsExact(s, live[key], ref, key);
      }
    }
  }

  lemma ValueIsExact(s: Schema, value: Tree, ref: Object, desired: Tree, key: string)
    ensures Related(EditValue(s, value, ref, key), desired) <==> ValueFits(s, value, ref, desired, key)
    decreases s, 0
  {
    if value.Map? && key in s.objects {
      if desired.Map? { FittingIsExact(s.objects[key], value.entries, ObjectAt(ref, key), desired.entries); }
    } else if value.Map? && key in s.guarded && HasObject(ref, key) {
      if desired.Map? { FittingIsExact(s.guarded[key], value.entries, ref[key].entries, desired.entries); }
    } else if value.List? && key in s.items {
      var edited := EditValue(s, value, ref, key);
      if desired.List? {
        RelatedByIndex(edited.items, desired.items);
        forall i | 0 <= i < |value.items| && |value.items| == |desired.items|
          ensures Related(edited.items[i], desired.items[i]) <==>
            ItemFits(s.items[key], value.items[i], ref, key, desired.items[i])
        {
          ItemIsExact(s.items[key], value.items[i], ref, key, desired.items[i]);
        }
      }
    }
  }

  lemma ItemIsExact(s: Schema, item: Tree, ref: Object, key: string, desired: Tree)
    ensures Related(EditItem(s, item, ref, key), desired) <==> ItemFits(s, item, ref, key, desired)
    decreases s, 3
  {
    if item.Map? && desired.Map? {
      FittingIsExact(s, item.entries, MatchingItem(ref, key, item.entries), desired.entries);
    }
  }
}
