/**
 * Release documents as parsed trees, and the pruning of omitted empty values that precedes their
 * comparison. Scalars are taken up to the equality the comparison uses, under which a boolean equals
 * the number 0 or 1; a mapping is a finite map, so key order does not matter and list order does.
 */
module ReleaseTrees {
  datatype Tree =
    | Null
    | Num(number: real)
    | Str(text: string)
    | List(items: seq<Tree>)
    | Map(entries: map<string, Tree>)

  const TRUE := Num(1.0)
  const FALSE := Num(0.0)

  predicate Empty(t: Tree) { t == Null || t == List([]) || t == Map(map[]) }

  /** A mapping's entries; any other value has none. */
  function Entries(t: Tree): map<string, Tree> {
    if t.Map? then t.entries else map[]
  }

  /** `live` after its empty values that `desired` omits have been taken out. */
  function Prune(live: Tree, desired: Tree): Tree
    decreases live
  {
    match live
    case Map(m) =>
      var d := Entries(desired);
      Map(map k | k in m && (k in d || !Empty(m[k])) :: if k in d then Prune(m[k], d[k]) else m[k])
    case List(xs) => if desired.List? then List(PruneItems(xs, desired.items)) else live
    case _ => live
  }

  /** Items are pruned against the desired item at the same index; surplus items are left alone. */
  function PruneItems(live: seq<Tree>, desired: seq<Tree>): (r: seq<Tree>)
    ensures |r| == |live|
    decreases live
  {
    if live == [] then []
    else if desired == [] then live
    else [Prune(live[0], desired[0])] + PruneItems(live[1..], desired[1..])
  }

  /** Equal up to omitted empties: the same scalar, lists that relate item by item, or mappings that
      relate on the keys they share and are empty on the keys they do not. */
  ghost predicate Related(a: Tree, b: Tree)
    decreases a
  {
    match a
    case Map(m) =>
      && b.Map?
      && (forall k | k in m && k in b.entries :: Related(m[k], b.entries[k]))
      && (forall k | k in m && k !in b.entries :: Empty(m[k]))
      && (forall k | k in b.entries && k !in m :: Empty(b.entries[k]))
    case List(xs) => b.List? && RelatedItems(xs, b.items)
    case _ => a == b
  }

  ghost predicate RelatedItems(a: seq<Tree>, b: seq<Tree>)
    decreases a
  {
    |a| == |b| && (a != [] ==> Related(a[0], b[0]) && RelatedItems(a[1..], b[1..]))
  }

  /** What the two passes compare: live pruned by desired, then desired pruned by the result. */
  ghost predicate EqualAfterPruning(live: Tree, desired: Tree) {
    var left := Prune(live, desired);
    left == Prune(desired, left)
  }

  lemma {:induction false} PruningDecides(live: Tree, desired: Tree)
    ensures EqualAfterPruning(live, desired) <==> Related(live, desired)
    decreases live
  {
    match live
    case Map(m) =>
      if desired.Map? {
        MapPruningDecides(live, desired);
      } else if desired.List? {
        assert Prune(live, desired).Map?;
      }
    case List(xs) =>
      if desired.List? {
        ItemsPruningDecides(xs, desired.items);
      } else {
        assert Prune(live, desired) == live;
        assert !Prune(desired, live).List?;
      }
    case _ =>
      assert Prune(live, desired) == live;
      if desired.Map? {
        assert Prune(desired, live).Map?;
      }
  }

  lemma MapPruningDecides(live: Tree, desired: Tree)
    requires live.Map? && desired.Map?
    ensures EqualAfterPruning(live, desired) <==> Related(live, desired)
    decreases live, 0
  {
    var m, d := live.entries, desired.entries;
    var left := Prune(live, desired);
    var right := Prune(desired, left);
    forall k | k in m && k in d
      ensures k in left.entries && k in right.entries
      ensures left.entries[k] == right.entries[k] <==> Related(m[k], d[k])
    {
      PruningDecides(m[k], d[k]);
      assert left.entries[k] == Prune(m[k], d[k]);
      assert right.entries[k] == Prune(d[k], left.entries[k]);
    }
    assert forall k | k in m && k !in d :: k !in right.entries && (k in left.entries <==> !Empty(m[k]));
    assert forall k | k in d && k !in m :: k !in left.entries && (k in right.entries <==> !Empty(d[k]));
  }

  lemma {:induction false} ItemsPruningDecides(xs: seq<Tree>, ys: seq<Tree>)
    ensures
      var left := PruneItems(xs, ys);
      left == PruneItems(ys, left) <==> RelatedItems(xs, ys)
    decreases xs
  {
    var left := PruneItems(xs, ys);
    if xs != [] && ys != [] {
      PruningDecides(xs[0], ys[0]);
      ItemsPruningDecides(xs[1..], ys[1..]);
      var right := PruneItems(ys, left);
      assert left[1..] == PruneItems(xs[1..], ys[1..]);
      assert right[1..] == PruneItems(ys[1..], left[1..]);
      assert left == [left[0]] + left[1..] && right == [right[0]] + right[1..];
    }
  }

  lemma {:induction false} RelatedReflexive(a: Tree)
    ensures Related(a, a)
    decreases a
  {
    match a
    case Map(m) =>
      forall k | k in m ensures Related(m[k], m[k]) { RelatedReflexive(m[k]); }
    case List(xs) => RelatedItemsReflexive(xs);
    case _ =>
  }

  lemma {:induction false} RelatedItemsReflexive(xs: seq<Tree>)
    ensures RelatedItems(xs, xs)
    decreases xs
  {
    if xs != [] {
      RelatedReflexive(xs[0]);
      RelatedItemsReflexive(xs[1..]);
    }
  }

  lemma {:induction false} RelatedSymmetric(a: Tree, b: Tree)
    requires Related(a, b)
    ensures Related(b, a)
    decreases a
  {
    match a
    case Map(m) =>
      forall k | k in b.entries && k in m ensures Related(b.entries[k], m[k]) { RelatedSymmetric(m[k], b.entries[k]); }
    case List(xs) => RelatedItemsSymmetric(xs, b.items);
    case _ =>
  }

  lemma {:induction false} RelatedItemsSymmetric(xs: seq<Tree>, ys: seq<Tree>)
    requires RelatedItems(xs, ys)
    ensures RelatedItems(ys, xs)
    decreases xs
  {
    if xs != [] {
      RelatedSymmetric(xs[0], ys[0]);
      RelatedItemsSymmetric(xs[1..], ys[1..]);
    }
  }

  /** Which side is pruned first does not matter to the verdict. */
  lemma PassOrderIsIrrelevant(a: Tree, b: Tree)
    ensures EqualAfterPruning(a, b) <==> EqualAfterPruning(b, a)
  {
    PruningDecides(a, b);
    PruningDecides(b, a);
    if Related(a, b) { RelatedSymmetric(a, b); }
    if Related(b, a) { RelatedSymmetric(b, a); }
  }

  /** The relation is no equivalence: an omitted key goes with null and with an empty list, but these
      two do not go with each other. */
  lemma RelatedIsNotTransitive()
    ensures exists a, b, c :: Related(a, b) && Related(b, c) && !Related(a, c)
  {
    var a, b, c := Map(map["k" := Null]), Map(map[]), Map(map["k" := List([])]);
    assert "k" in a.entries && "k" in c.entries && !Related(a.entries["k"], c.entries["k"]);
    assert Related(a, b) && Related(b, c) && !Related(a, c);
  }

  /** The pass as the script runs it: over the keys the mapping had at the start, popping as it goes,
      or over the items both lists have. */
  method PruneOmittedEmpty(live: Tree, desired: Tree) returns (pruned: Tree)
    ensures pruned == Prune(live, desired)
    decreases live, 1
  {
    if live.Map? {
      pruned := PruneMapping(live, Entries(desired));
    } else if live.List? && desired.List? {
      pruned := PruneList(live, desired.items);
    } else {
      pruned := live;
    }
  }

  method PruneMapping(live: Tree, d: map<string, Tree>) returns (pruned: Tree)
    requires live.Map?
    ensures pruned == Prune(live, Map(d))
    decreases live, 0
  {
    var m := live.entries;
    var left, keys := m, m.Keys;
    while keys != {}
      invariant keys <= m.Keys && left.Keys <= m.Keys
      invariant forall k | k in keys :: k in left && left[k] == m[k]
      invariant forall k | k in m && k !in keys :: k in left <==> k in d || !Empty(m[k])
      invariant forall k | k in left && k !in keys :: left[k] == if k in d then Prune(m[k], d[k]) else m[k]
      decreases keys
    {
      var k :| k in keys;
      if k !in d && Empty(m[k]) {
        left := left - {k};
      } else if k in d {
        var v := PruneOmittedEmpty(m[k], d[k]);
        left := left[k := v];
      }
      keys := keys - {k};
    }
    pruned := Map(left);
    assert left == Prune(live, Map(d)).entries;
  }

  method PruneList(live: Tree, ys: seq<Tree>) returns (pruned: Tree)
    requires live.List?
    ensures pruned == Prune(live, List(ys))
    decreases live, 0
  {
    var xs := live.items;
    var done, i := [], 0;
    while i < |xs| && i < |ys|
      invariant i <= |xs| && i <= |ys|
      invariant PruneItems(xs, ys) == done + PruneItems(xs[i..], ys[i..])
    {
      var v := PruneOmittedEmpty(xs[i], ys[i]);
      assert xs[i..][1..] == xs[i + 1..] && ys[i..][1..] == ys[i + 1..];
      done := done + [v];
      i := i + 1;
    }
    pruned := List(done + xs[i..]);
  }
}
