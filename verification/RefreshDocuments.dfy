/**
 * What the refresh-gate checker looks at, on the documents themselves: which of them are hooks, what key each
 * stands under, and what replacing the gate literal changes in a Deployment.
 */
module RefreshDocuments {
  import opened Common
  import opened ReleaseTrees
  import opened RefreshGate

  // ---------------------------------------------------------------- documents

  /** The document's metadata has annotations, one of them the Helm hook's. */
  predicate IsAnnotated(doc: Object) {
    && "metadata" in doc && doc["metadata"].Map? && "annotations" in doc["metadata"].entries
    && var a := doc["metadata"].entries["annotations"];
       a.Map? && "helm.sh/hook" in a.entries
  }

  /** The packet is parted into its hooks and its other documents, and each part keeps its documents as often as
      they were there. */
  lemma {:induction false} PacketIsParted(docs: seq<Object>)
    ensures forall doc :: doc in Select(docs, true) <==> doc in docs && IsAnnotated(doc)
    ensures forall doc :: doc in Select(docs, false) <==> doc in docs && !IsAnnotated(doc)
    ensures multiset(Select(docs, true)) + multiset(Select(docs, false)) == multiset(docs)
  {
    if docs != [] {
      PacketIsParted(docs[1..]);
      assert docs == [docs[0]] + docs[1..];
      assert IsHook(docs[0]) <==> IsAnnotated(docs[0]);
    }
  }

  predicate HasName(doc: Object) {
    "metadata" in doc && doc["metadata"].Map? && "name" in doc["metadata"].entries
    && doc["metadata"].entries["name"].Str?
  }

  /** A document's key: its API version, kind, namespace and name, with no text for what it leaves out. */
  function KeyFor(doc: Object, render: Render): ResourceKey
    requires HasName(doc)
  {
    var m := doc["metadata"].entries;
    ResourceKey(
      if "apiVersion" in doc then render(doc["apiVersion"]) else "",
      if "kind" in doc then render(doc["kind"]) else "",
      if "namespace" in m then render(m["namespace"]) else "",
      m["name"].text)
  }

  lemma KeyIsOfFields(doc: Object, render: Render)
    ensures KeyOf(doc, render) == if HasName(doc) then Some(KeyFor(doc, render)) else None
  {
  }

  /** Every document has a name, and no two have one key. */
  ghost predicate KeysAreDistinct(docs: seq<Object>, render: Render) {
    && (forall i | 0 <= i < |docs| :: HasName(docs[i]))
    && (forall i, j | 0 <= i < j < |docs| :: DifferInKey(docs[i], docs[j], render))
  }

  predicate DifferInKey(a: Object, b: Object, render: Render) {
    HasName(a) && HasName(b) ==> KeyFor(a, render) != KeyFor(b, render)
  }

  /** The index holds each document under its key, and nothing else. */
  ghost predicate IsIndexOf(index: map<ResourceKey, Object>, docs: seq<Object>, render: Render) {
    && (forall i | 0 <= i < |docs| :: HasName(docs[i])
          && KeyFor(docs[i], render) in index && index[KeyFor(docs[i], render)] == docs[i])
    && (forall k | k in index :: index[k] in docs && HasName(index[k]) && KeyFor(index[k], render) == k)
  }

  /** There is an index exactly when every document has a name and no two have one key. */
  lemma {:induction false} IndexIffKeysAreDistinct(docs: seq<Object>, render: Render)
    ensures Indexed(docs, render).Some? <==> KeysAreDistinct(docs, render)
    ensures Indexed(docs, render).Some? ==> IsIndexOf(Indexed(docs, render).value, docs, render)
  {
    if docs != [] {
      var front, last := docs[..|docs| - 1], docs[|docs| - 1];
      IndexIffKeysAreDistinct(front, render);
      IndexUnfolds(docs, render);
      assert docs == front + [last];
      IndexSteps(Indexed(front, render), front, last, render, Indexed(docs, render));
    }
  }

  lemma IndexSteps(
    index: Option<map<ResourceKey, Object>>, front: seq<Object>, last: Object, render: Render,
    next: Option<map<ResourceKey, Object>>)
    requires index.Some? <==> KeysAreDistinct(front, render)
    requires index.Some? ==> IsIndexOf(index.value, front, render)
    requires next ==
      if index.Some? && HasName(last) && KeyFor(last, render) !in index.value
      then Some(index.value[KeyFor(last, render) := last])
      else None
    ensures next.Some? <==> KeysAreDistinct(front + [last], render)
    ensures next.Some? ==> IsIndexOf(next.value, front + [last], render)
  {
    OneMore(front, last, render);
    if index.Some? && HasName(last) {
      KeyIsTaken(index.value, front, last, render);
      if next.Some? { IndexGrows(index.value, front, last, render); }
    }
  }

  lemma IndexUnfolds(docs: seq<Object>, render: Render)
    requires docs != []
    ensures
      var index, last := Indexed(docs[..|docs| - 1], render), docs[|docs| - 1];
      Indexed(docs, render) ==
      if index.Some? && HasName(last) && KeyFor(last, render) !in index.value
      then Some(index.value[KeyFor(last, render) := last])
      else None
  {
    KeyIsOfFields(docs[|docs| - 1], render);
  }

  lemma OneMore(front: seq<Object>, last: Object, render: Render)
    ensures
      KeysAreDistinct(front + [last], render) <==>
      && KeysAreDistinct(front, render) && HasName(last)
      && forall i | 0 <= i < |front| :: DifferInKey(front[i], last, render)
  {
    var docs := front + [last];
    forall i | 0 <= i < |front| ensures front[i] == docs[i] {}
    assert docs[|front|] == last;
  }

  lemma KeyIsTaken(index: map<ResourceKey, Object>, front: seq<Object>, last: Object, render: Render)
    requires IsIndexOf(index, front, render) && HasName(last)
    ensures KeyFor(last, render) !in index <==> forall i | 0 <= i < |front| :: DifferInKey(front[i], last, render)
  {
    if KeyFor(last, render) in index {
      var i :| 0 <= i < |front| && front[i] == index[KeyFor(last, render)];
      assert !DifferInKey(front[i], last, render);
    }
  }

  lemma IndexGrows(index: map<ResourceKey, Object>, front: seq<Object>, last: Object, render: Render)
    requires IsIndexOf(index, front, render) && HasName(last) && KeyFor(last, render) !in index
    ensures IsIndexOf(index[KeyFor(last, render) := last], front + [last], render)
  {
    var docs, grown := front + [last], index[KeyFor(last, render) := last];
    forall i | 0 <= i < |docs|
      ensures HasName(docs[i]) && KeyFor(docs[i], render) in grown && grown[KeyFor(docs[i], render)] == docs[i]
    {
      if i < |front| { assert docs[i] == front[i]; }
    }
  }

  // ---------------------------------------------------------------- the one edit

  /** An environment item named after the gate has the new value and is otherwise the same; others are the same. */
  ghost predicate ItemEdited(a: Tree, b: Tree, gate: string, value: Tree) {
    if a.Map? && "name" in a.entries && a.entries["name"] == Str(gate) then b == Map(a.entries["value" := value])
    else a == b
  }

  /** A container named `dashboard` with a list as its environment has the gate's items edited in it, and is
      otherwise the same; others are the same. */
  ghost predicate ContainerEdited(a: Tree, b: Tree, gate: string, value: Tree) {
    if && a.Map? && "name" in a.entries && a.entries["name"] == Str("dashboard")
       && "env" in a.entries && a.entries["env"].List?
    then
      && b.Map? && "env" in b.entries && b.entries["env"].List?
      && b.entries - {"env"} == a.entries - {"env"}
      && ListEdited(
           a.entries["env"].items, b.entries["env"].items, (x: Tree, y: Tree) => ItemEdited(x, y, gate, value))
    else a == b
  }

  ghost predicate ListEdited(a: seq<Tree>, b: seq<Tree>, edited: (Tree, Tree) -> bool) {
    |a| == |b| && forall i | 0 <= i < |a| :: edited(a[i], b[i])
  }

  /** The trees are the same but for what a path of keys leads to. */
  ghost predicate SameOffPath(a: Tree, b: Tree, path: seq<string>, atEnd: (Tree, Tree) -> bool)
    decreases |path|
  {
    if path == [] then atEnd(a, b)
    else if a.Map? && path[0] in a.entries then
      && b.Map? && path[0] in b.entries && a.entries - {path[0]} == b.entries - {path[0]}
      && SameOffPath(a.entries[path[0]], b.entries[path[0]], path[1..], atEnd)
    else a == b
  }

  ghost predicate ContainersEdited(a: Tree, b: Tree, gate: string, value: Tree) {
    if a.List? then
      b.List? && ListEdited(a.items, b.items, (x: Tree, y: Tree) => ContainerEdited(x, y, gate, value))
    else a == b
  }

  lemma {:induction false} ItemsAreEdited(items: seq<Tree>, gate: string, value: Tree)
    ensures ListEdited(items, SetItems(items, gate, value), (x: Tree, y: Tree) => ItemEdited(x, y, gate, value))
  {
    if items != [] { ItemsAreEdited(items[1..], gate, value); }
  }

  lemma ContainerIsEdited(c: Tree, gate: string, value: Tree)
    ensures ContainerEdited(c, SetContainer(c, gate, value), gate, value)
  {
    if c.Map? && "env" in c.entries && c.entries["env"].List? {
      ItemsAreEdited(c.entries["env"].items, gate, value);
      var edited := List(SetItems(c.entries["env"].items, gate, value));
      assert c.entries["env" := edited] - {"env"} == c.entries - {"env"};
    }
  }

  lemma {:induction false} ContainersAreEdited(items: seq<Tree>, gate: string, value: Tree)
    ensures
      ListEdited(items, SetContainers(items, gate, value), (x: Tree, y: Tree) => ContainerEdited(x, y, gate, value))
  {
    if items != [] {
      ContainersAreEdited(items[1..], gate, value);
      ContainerIsEdited(items[0], gate, value);
    }
  }

  lemma {:induction false} BelowIsEdited(t: Tree, path: seq<string>, gate: string, value: Tree)
    ensures
      SameOffPath(t, SetBelow(t, path, gate, value), path, (x: Tree, y: Tree) => ContainersEdited(x, y, gate, value))
    decreases |path|
  {
    if path == [] {
      if t.List? { ContainersAreEdited(t.items, gate, value); }
    } else if t.Map? && path[0] in t.entries {
      BelowIsEdited(t.entries[path[0]], path[1..], gate, value);
      var edited := SetBelow(t.entries[path[0]], path[1..], gate, value);
      assert t.entries[path[0] := edited] - {path[0]} == t.entries - {path[0]};
    }
  }

  /** Replacing the gate literal changes the value of the gate's items in the dashboard container's environment,
      and nothing else in the Deployment. */
  lemma GateEditIsLocal(doc: Tree, gate: string, value: Tree)
    ensures
      SameOffPath(
        doc, WithGate(doc, gate, value), ["spec", "template", "spec", "containers"],
        (x: Tree, y: Tree) => ContainersEdited(x, y, gate, value))
  {
    BelowIsEdited(doc, CONTAINERS_PATH, gate, value);
  }
}
