/**
 * Values at paths of a tree, and what it means for one tree to keep another's explicit values. Only
 * solid values count: a non-empty text or a number (so also a boolean) at the end of a path.
 */
module ReleasePaths {
  import opened Common
  import opened ReleaseTrees

  datatype Step = Key(name: string) | Item(index: nat)

  type Path = seq<Step>

  function At(t: Tree, p: Path): Option<Tree>
    decreases |p|
  {
    if p == [] then Some(t)
    else
      match p[0]
      case Key(k) => if t.Map? && k in t.entries then At(t.entries[k], p[1..]) else None
      case Item(i) => if t.List? && i < |t.items| then At(t.items[i], p[1..]) else None
  }

  predicate Solid(t: Tree) { t.Num? || (t.Str? && t.text != "") }

  predicate SolidAt(t: Tree, p: Path) { At(t, p).Some? && Solid(At(t, p).value) }

  /** One step of an exempted path; a list is entered at any index. */
  datatype Pattern = InKey(name: string) | InAnyItem

  /** A value the comparison may overlook: this very value at this path, or with `None` anything
      at the path or below it. */
  datatype Exemption = Exemption(path: seq<Pattern>, value: Option<Tree>)

  predicate StepFits(pattern: Pattern, step: Step) {
    match pattern
    case InKey(k) => step == Key(k)
    case InAnyItem => step.Item?
  }

  predicate Covers(e: Exemption, p: Path, v: Tree)
    decreases |p|
  {
    if e.path == [] then e.value.None? || (p == [] && e.value == Some(v))
    else p != [] && StepFits(e.path[0], p[0]) && Covers(Exemption(e.path[1..], e.value), p[1..], v)
  }

  ghost predicate Excused(exempt: set<Exemption>, p: Path, v: Tree) { exists e | e in exempt :: Covers(e, p, v) }

  /** The same exemptions, one step further down. */
  function Under(step: Pattern, exempt: set<Exemption>): set<Exemption> {
    set e | e in exempt :: Exemption([step] + e.path, e.value)
  }

  /** Every solid value of `a` is in `b` at the same path, or is exempted. */
  ghost predicate Keeps(a: Tree, b: Tree, exempt: set<Exemption>) {
    forall p: Path | SolidAt(a, p) :: At(b, p) == At(a, p) || Excused(exempt, p, At(a, p).value)
  }

  lemma KeepsItself(a: Tree, exempt: set<Exemption>)
    ensures Keeps(a, a, exempt)
  {
  }

  lemma KeepsTransitive(a: Tree, b: Tree, c: Tree, exempt: set<Exemption>)
    requires Keeps(a, b, exempt) && Keeps(b, c, exempt)
    ensures Keeps(a, c, exempt)
  {
    forall p: Path | SolidAt(a, p) && !Excused(exempt, p, At(a, p).value) ensures At(c, p) == At(a, p) {
      assert At(b, p) == At(a, p);
      assert SolidAt(b, p);
    }
  }

  lemma KeepsWithMore(a: Tree, b: Tree, few: set<Exemption>, many: set<Exemption>)
    requires Keeps(a, b, few) && few <= many
    ensures Keeps(a, b, many)
  {
  }

  lemma ExcusedUnder(step: Step, pattern: Pattern, exempt: set<Exemption>, p: Path, v: Tree)
    requires Excused(exempt, p, v) && StepFits(pattern, step)
    ensures Excused(Under(pattern, exempt), [step] + p, v)
  {
    var e :| e in exempt && Covers(e, p, v);
    var lower := Exemption([pattern] + e.path, e.value);
    assert lower.path[1..] == e.path && ([step] + p)[1..] == p;
    assert lower in Under(pattern, exempt) && Covers(lower, [step] + p, v);
  }

  /** A key is accounted for if it is unchanged, kept below, dropped by exemption, or never solid. */
  ghost predicate KeyAccounted(m: map<string, Tree>, n: map<string, Tree>, k: string, exempt: set<Exemption>)
    requires k in m
  {
    || (k in n && n[k] == m[k])
    || (k in n && exists below :: Keeps(m[k], n[k], below) && Under(InKey(k), below) <= exempt)
    || Exemption([InKey(k)], None) in exempt
    || (Exemption([InKey(k)], Some(m[k])) in exempt && !m[k].Map? && !m[k].List?)
    || m[k] == Null
    || Empty(m[k])
  }

  lemma KeepsMapping(m: map<string, Tree>, n: map<string, Tree>, exempt: set<Exemption>)
    requires forall k | k in m :: KeyAccounted(m, n, k, exempt)
    ensures Keeps(Map(m), Map(n), exempt)
  {
    forall p: Path | SolidAt(Map(m), p)
      ensures At(Map(n), p) == At(Map(m), p) || Excused(exempt, p, At(Map(m), p).value)
    {
      var k, q := p[0].name, p[1..];
      assert p == [Key(k)] + q;
      var v := At(Map(m), p).value;
      assert KeyAccounted(m, n, k, exempt);
      if k in n && n[k] == m[k] {
      } else if k in n && exists below :: Keeps(m[k], n[k], below) && Under(InKey(k), below) <= exempt {
        var below :| Keeps(m[k], n[k], below) && Under(InKey(k), below) <= exempt;
        assert SolidAt(m[k], q);
        if At(n[k], q) != At(m[k], q) { ExcusedUnder(Key(k), InKey(k), below, q, v); }
      } else if Exemption([InKey(k)], None) in exempt {
        assert Covers(Exemption([InKey(k)], None), p, v);
      } else {
        assert SolidAt(m[k], q);
        EmptyHasNothingSolid(m[k], q);
        assert q == [] && v == m[k];
        assert Covers(Exemption([InKey(k)], Some(v)), p, v);
      }
    }
  }

  lemma EmptyHasNothingSolid(t: Tree, p: Path)
    requires (!t.Map? && !t.List?) || Empty(t)
    ensures SolidAt(t, p) ==> p == [] && !Empty(t)
  {
  }

  /** Replacing the value under a key keeps what the new value keeps of the old. */
  lemma KeepsReplaced(m: map<string, Tree>, key: string, value: Tree, exempt: set<Exemption>)
    requires key in m && Keeps(m[key], value, exempt)
    ensures Keeps(Map(m), Map(m[key := value]), Under(InKey(key), exempt))
  {
    var n := m[key := value];
    assert KeyAccounted(m, n, key, Under(InKey(key), exempt));
    assert forall k | k in m :: KeyAccounted(m, n, k, Under(InKey(key), exempt));
    KeepsMapping(m, n, Under(InKey(key), exempt));
  }

  lemma KeepsItems(xs: seq<Tree>, ys: seq<Tree>, exempt: set<Exemption>)
    requires |xs| == |ys|
    requires forall i | 0 <= i < |xs| :: Keeps(xs[i], ys[i], exempt)
    ensures Keeps(List(xs), List(ys), Under(InAnyItem, exempt))
  {
    forall p: Path | SolidAt(List(xs), p)
      ensures At(List(ys), p) == At(List(xs), p) || Excused(Under(InAnyItem, exempt), p, At(List(xs), p).value)
    {
      var i, q := p[0].index, p[1..];
      assert p == [Item(i)] + q;
      assert SolidAt(xs[i], q);
      if At(ys[i], q) != At(xs[i], q) { ExcusedUnder(Item(i), InAnyItem, exempt, q, At(xs[i], q).value); }
    }
  }

  /** Pruning removes nothing solid and adds nothing. */
  lemma {:induction false} PruneAt(live: Tree, desired: Tree, p: Path)
    ensures SolidAt(live, p) ==> At(Prune(live, desired), p) == At(live, p)
    ensures SolidAt(Prune(live, desired), p) ==> At(live, p) == At(Prune(live, desired), p)
    decreases |p|
  {
    if p != [] {
      var pruned := Prune(live, desired);
      match p[0]
      case Key(k) =>
        if live.Map? && k in live.entries {
          if k in Entries(desired) {
            PruneAt(live.entries[k], Entries(desired)[k], p[1..]);
          } else {
            if Empty(live.entries[k]) { EmptyHasNothingSolid(live.entries[k], p[1..]); }
          }
        }
      case Item(i) =>
        if live.List? && i < |live.items| && desired.List? {
          PruneItemsAt(live.items, desired.items, i);
          if i < |desired.items| { PruneAt(live.items[i], desired.items[i], p[1..]); }
        }
    }
  }

  lemma {:induction false} PruneItemsAt(xs: seq<Tree>, ys: seq<Tree>, i: nat)
    requires i < |xs|
    ensures PruneItems(xs, ys)[i] == if i < |ys| then Prune(xs[i], ys[i]) else xs[i]
  {
    if ys != [] && i > 0 { PruneItemsAt(xs[1..], ys[1..], i - 1); }
  }

  lemma PruneKeeps(live: Tree, desired: Tree)
    ensures Keeps(live, Prune(live, desired), {}) && Keeps(Prune(live, desired), live, {})
  {
    forall p: Path { PruneAt(live, desired, p); }
  }

  /** Trees that the pruning comparison accepts have the same solid values at the same paths. */
  lemma RelatedTreesAgree(live: Tree, desired: Tree)
    requires EqualAfterPruning(live, desired)
    ensures Keeps(live, desired, {}) && Keeps(desired, live, {})
  {
    var left := Prune(live, desired);
    PruneKeeps(live, desired);
    PruneKeeps(desired, left);
    KeepsTransitive(live, left, desired, {});
    KeepsTransitive(desired, left, live, {});
  }
}
