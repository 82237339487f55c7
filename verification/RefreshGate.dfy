/**
 * The checker that a refresh-gate rollout changes one reviewed literal and nothing else.
 */
module RefreshGate {
  import opened Common
  import opened ReleaseTrees

  type Object = map<string, Tree>

  // ---------------------------------------------------------------- reading a packet

  datatype ResourceKey = ResourceKey(apiVersion: string, kind: string, namespace: string, name: string)

  /** Python's text of a value; only its effect on keys matters. */
  type Render = Tree -> string

  function Field(doc: Object, key: string, render: Render): string {
    if key in doc then render(doc[key]) else ""
  }

  function KeyOf(doc: Object, render: Render): Option<ResourceKey> {
    if "metadata" !in doc || !doc["metadata"].Map? then None
    else
      var m := doc["metadata"].entries;
      if "name" !in m || !m["name"].Str? then None
      else Some(ResourceKey(Field(doc, "apiVersion", render), Field(doc, "kind", render), Field(m, "namespace", render),
          m["name"].text))
  }

  /** Documents by key; none if one has no key or two share one. */
  function Indexed(docs: seq<Object>, render: Render): Option<map<ResourceKey, Object>> {
    if docs == [] then Some(map[])
    else
      match (Indexed(docs[..|docs| - 1], render), KeyOf(docs[|docs| - 1], render))
      case (Some(m), Some(key)) => if key in m then None else Some(m[key := docs[|docs| - 1]])
      case _ => None
  }

  predicate IsHook(doc: Object) {
    && "metadata" in doc && doc["metadata"].Map?
    && "annotations" in doc["metadata"].entries && doc["metadata"].entries["annotations"].Map?
    && "helm.sh/hook" in doc["metadata"].entries["annotations"].entries
  }

  function Select(docs: seq<Object>, hooks: bool): seq<Object> {
    if docs == [] then []
    else (if IsHook(docs[0]) == hooks then [docs[0]] else []) + Select(docs[1..], hooks)
  }

  predicate IsNamed(t: Tree, name: string) { t.Map? && "name" in t.entries && t.entries["name"] == Str(name) }

  function CountNamed(items: seq<Tree>, name: string): nat {
    if items == [] then 0 else (if IsNamed(items[0], name) then 1 else 0) + CountNamed(items[1..], name)
  }

  /** The list of containers at spec.template.spec.containers. */
  function Containers(doc: Tree): seq<Tree> {
    var list := Child(Child(Child(Child(doc, "spec"), "template"), "spec"), "containers");
    if list.List? then list.items else []
  }

  function Child(t: Tree, key: string): Tree {
    if t.Map? && key in t.entries then t.entries[key] else Null
  }

  predicate HasDashboard(doc: Tree) { CountNamed(Containers(doc), "dashboard") == 1 }

  function Dashboard(doc: Tree): (c: Tree)
    requires HasDashboard(doc)
    ensures IsNamed(c, "dashboard")
  {
    FirstNamed(Containers(doc), "dashboard")
  }

  function FirstNamed(items: seq<Tree>, name: string): (t: Tree)
    requires CountNamed(items, name) > 0
    ensures IsNamed(t, name) && t in items
  {
    if IsNamed(items[0], name) then items[0] else FirstNamed(items[1..], name)
  }

  /** Environment items by name; none unless all are objects with distinct non-empty names. */
  function EnvironmentIndex(items: seq<Tree>): Option<map<string, Object>> {
    if items == [] then Some(map[]) else IndexWith(EnvironmentIndex(items[..|items| - 1]), items[|items| - 1])
  }

  /** The index with one more item. */
  function IndexWith(index: Option<map<string, Object>>, item: Tree): Option<map<string, Object>> {
    if !item.Map? || "name" !in item.entries || !item.entries["name"].Str? || item.entries["name"].text == "" then None
    else if index.None? || item.entries["name"].text in index.value then None
    else Some(index.value[item.entries["name"].text := item.entries])
  }

  function Environment(container: Tree): Option<map<string, Object>> {
    if Child(container, "env").List? then EnvironmentIndex(Child(container, "env").items) else None
  }

  // ---------------------------------------------------------------- setting the gate

  function SetItem(item: Tree, gate: string, value: Tree): Tree {
    if IsNamed(item, gate) then Map(item.entries["value" := value]) else item
  }

  function SetItems(items: seq<Tree>, gate: string, value: Tree): (r: seq<Tree>)
    ensures |r| == |items|
  {
    if items == [] then [] else [SetItem(items[0], gate, value)] + SetItems(items[1..], gate, value)
  }

  function SetContainer(container: Tree, gate: string, value: Tree): Tree {
    if IsNamed(container, "dashboard") && Child(container, "env").List?
    then Map(container.entries["env" := List(SetItems(Child(container, "env").items, gate, value))])
    else container
  }

  function SetContainers(items: seq<Tree>, gate: string, value: Tree): (r: seq<Tree>)
    ensures |r| == |items|
  {
    if items == [] then [] else [SetContainer(items[0], gate, value)] + SetContainers(items[1..], gate, value)
  }

  /** Follow a path of keys; at its end, set the gate in the list of containers. */
  function SetBelow(t: Tree, path: seq<string>, gate: string, value: Tree): Tree
    decreases |path|
  {
    if path == [] then if t.List? then List(SetContainers(t.items, gate, value)) else t
    else if t.Map? && path[0] in t.entries then
      Map(t.entries[path[0] := SetBelow(t.entries[path[0]], path[1..], gate, value)])
    else t
  }

  const CONTAINERS_PATH := ["spec", "template", "spec", "containers"]

  /** The Deployment with the dashboard's gate set to a value, wherever the gate is in its list. */
  function WithGate(doc: Tree, gate: string, value: Tree): Tree { SetBelow(doc, CONTAINERS_PATH, gate, value) }

  lemma {:induction false} SetItemsTwice(items: seq<Tree>, gate: string, a: Tree, b: Tree)
    ensures SetItems(SetItems(items, gate, a), gate, b) == SetItems(items, gate, b)
  {
    if items != [] {
      SetItemsTwice(items[1..], gate, a, b);
      var first := SetItems(items, gate, a);
      assert first[1..] == SetItems(items[1..], gate, a);
      var t := items[0];
      if IsNamed(t, gate) { assert t.entries["value" := a]["value" := b] == t.entries["value" := b]; }
    }
  }

  lemma SetContainerTwice(c: Tree, gate: string, a: Tree, b: Tree)
    ensures SetContainer(SetContainer(c, gate, a), gate, b) == SetContainer(c, gate, b)
  {
    if IsNamed(c, "dashboard") && Child(c, "env").List? {
      SetItemsTwice(Child(c, "env").items, gate, a, b);
      var x, y := SetContainer(c, gate, a), SetContainer(c, gate, b);
      assert SetContainer(x, gate, b).entries == y.entries;
    }
  }

  lemma {:induction false} SetContainersTwice(items: seq<Tree>, gate: string, a: Tree, b: Tree)
    ensures SetContainers(SetContainers(items, gate, a), gate, b) == SetContainers(items, gate, b)
  {
    if items != [] {
      SetContainerTwice(items[0], gate, a, b);
      SetContainersTwice(items[1..], gate, a, b);
      assert SetContainers(items, gate, a)[1..] == SetContainers(items[1..], gate, a);
    }
  }

  lemma SetTwice(entries: Object, key: string, a: Tree, b: Tree)
    ensures entries[key := a][key := b] == entries[key := b]
  {
  }

  /** Setting the gate twice is setting it once. */
  lemma {:induction false} SetBelowTwice(t: Tree, path: seq<string>, gate: string, a: Tree, b: Tree)
    ensures SetBelow(SetBelow(t, path, gate, a), path, gate, b) == SetBelow(t, path, gate, b)
    decreases |path|
  {
    if path == [] {
      if t.List? { SetContainersTwice(t.items, gate, a, b); }
    } else if t.Map? && path[0] in t.entries {
      var child, rest := t.entries[path[0]], path[1..];
      SetBelowTwice(child, rest, gate, a, b);
      SetTwice(t.entries, path[0], SetBelow(child, rest, gate, a), SetBelow(child, rest, gate, b));
    }
  }

  /** Every gate item of every dashboard container already carries the value. */
  ghost predicate GateIs(items: seq<Tree>, gate: string, value: Tree) {
    forall i | 0 <= i < |items| && IsNamed(items[i], gate) ::
      "value" in items[i].entries && items[i].entries["value"] == value
  }

  ghost predicate AllGatesAre(containers: seq<Tree>, gate: string, value: Tree) {
    forall i | 0 <= i < |containers| && IsNamed(containers[i], "dashboard") && Child(containers[i], "env").List? ::
      GateIs(Child(containers[i], "env").items, gate, value)
  }

  lemma {:induction false} SetItemsSame(items: seq<Tree>, gate: string, value: Tree)
    requires GateIs(items, gate, value)
    ensures SetItems(items, gate, value) == items
  {
    if items != [] {
      assert forall i | 0 <= i < |items[1..]| :: items[1..][i] == items[i + 1];
      SetItemsSame(items[1..], gate, value);
      if IsNamed(items[0], gate) { assert items[0].entries["value" := value] == items[0].entries; }
    }
  }

  lemma {:induction false} SetContainersSame(items: seq<Tree>, gate: string, value: Tree)
    requires AllGatesAre(items, gate, value)
    ensures SetContainers(items, gate, value) == items
  {
    if items != [] {
      assert forall i | 0 <= i < |items[1..]| :: items[1..][i] == items[i + 1];
      SetContainersSame(items[1..], gate, value);
      var c := items[0];
      if IsNamed(c, "dashboard") && Child(c, "env").List? {
        SetItemsSame(Child(c, "env").items, gate, value);
        assert c.entries["env" := List(Child(c, "env").items)] == c.entries;
      }
    }
  }

  /** What a path of keys leads to. */
  function Below(t: Tree, path: seq<string>): Tree
    decreases |path|
  {
    if path == [] then t else if t.Map? && path[0] in t.entries then Below(t.entries[path[0]], path[1..]) else Null
  }

  lemma {:induction false} SetBelowSame(t: Tree, path: seq<string>, gate: string, value: Tree)
    requires Below(t, path).List? ==> AllGatesAre(Below(t, path).items, gate, value)
    ensures SetBelow(t, path, gate, value) == t
    decreases |path|
  {
    if path == [] {
      if t.List? { SetContainersSame(t.items, gate, value); }
    } else if t.Map? && path[0] in t.entries {
      SetBelowSame(t.entries[path[0]], path[1..], gate, value);
      assert t.entries[path[0] := t.entries[path[0]]] == t.entries;
    }
  }

  // ---------------------------------------------------------------- the checker

  const PLACEHOLDER := Str("__reviewed_refresh_gate_transition__")

  /** The Deployment part of the check, in the script's order. */
  predicate DeploymentAccepted(before: Tree, after: Tree, gate: string) {
    && HasDashboard(before) && HasDashboard(after)
    && var b, a := Environment(Dashboard(before)), Environment(Dashboard(after));
    && b.Some? && a.Some?
    && b.value.Keys == a.value.Keys
    && (forall name | name in b.value && name != gate :: b.value[name] == a.value[name])
    && WithGate(before, gate, PLACEHOLDER) == WithGate(after, gate, PLACEHOLDER)
  }

  function Deployments(index: map<ResourceKey, Object>): set<ResourceKey> {
    set k | k in index && k.kind == "Deployment"
  }

  /** The check on the indexed resources. */
  ghost predicate IndexesAccepted(c: map<ResourceKey, Object>, d: map<ResourceKey, Object>, gate: string) {
    && c.Keys == d.Keys
    && exists key | key in c :: Deployments(c) == {key}
         && (forall k | k in c && k != key :: c[k] == d[k])
         && DeploymentAccepted(Map(c[key]), Map(d[key]), gate)
  }

  ghost predicate Accepted(current: seq<Object>, desired: seq<Object>, gate: string, render: Render) {
    match (Indexed(Select(current, true), render), Indexed(Select(desired, true), render),
        Indexed(Select(current, false), render), Indexed(Select(desired, false), render))
    case (Some(ch), Some(dh), Some(c), Some(d)) => ch == dh && IndexesAccepted(c, d, gate)
    case _ => false
  }

  /** The packet check on the gate: the dashboard's environment has it as this literal. */
  predicate GateLiteral(doc: Tree, gate: string, value: string) {
    && HasDashboard(doc)
    && var env := Environment(Dashboard(doc));
    env.Some? && gate in env.value && env.value[gate] == map["name" := Str(gate), "value" := Str(value)]
  }

  lemma {:induction false} UniqueNamed(items: seq<Tree>, name: string, i: nat)
    requires i < |items| && IsNamed(items[i], name)
    ensures CountNamed(items, name) > 0
    ensures CountNamed(items, name) == 1 ==> FirstNamed(items, name) == items[i]
  {
    if i > 0 { UniqueNamed(items[1..], name, i - 1); }
    if i == 0 && CountNamed(items[1..], name) > 0 { assert CountNamed(items, name) > 1; }
  }

  lemma {:induction false} IndexedItem(items: seq<Tree>, i: nat)
    requires EnvironmentIndex(items).Some? && i < |items|
    ensures items[i].Map? && "name" in items[i].entries && items[i].entries["name"].Str?
    ensures items[i].entries["name"].text in EnvironmentIndex(items).value
    ensures EnvironmentIndex(items).value[items[i].entries["name"].text] == items[i].entries
  {
    if i < |items| - 1 { IndexedItem(items[..|items| - 1], i); }
  }

  lemma ContainersAreBelow(doc: Tree)
    ensures Below(doc, CONTAINERS_PATH).List? ==> Below(doc, CONTAINERS_PATH).items == Containers(doc)
    ensures !Below(doc, CONTAINERS_PATH).List? ==> Containers(doc) == []
  {
    var p := CONTAINERS_PATH;
    assert p[1..][0] == "template" && p[1..][1..][0] == "spec" && p[1..][1..][1..][0] == "containers"
      && p[1..][1..][1..][1..] == [];
    var a := Child(doc, "spec");
    var b := Child(a, "template");
    var c := Child(b, "spec");
    assert Below(c, p[1..][1..][1..]) == Child(c, "containers");
    assert Below(b, p[1..][1..]) == Child(c, "containers");
    assert Below(a, p[1..]) == Child(c, "containers");
  }

  /** Setting the gate to the literal it already has changes nothing. */
  lemma GateAlreadySet(doc: Tree, gate: string, value: string)
    requires GateLiteral(doc, gate, value)
    ensures WithGate(doc, gate, Str(value)) == doc
  {
    ContainersAreBelow(doc);
    var cs := Containers(doc);
    forall i | 0 <= i < |cs| && IsNamed(cs[i], "dashboard") && Child(cs[i], "env").List?
      ensures GateIs(Child(cs[i], "env").items, gate, Str(value))
    {
      UniqueNamed(cs, "dashboard", i);
      var items := Child(cs[i], "env").items;
      forall j | 0 <= j < |items| && IsNamed(items[j], gate)
        ensures "value" in items[j].entries && items[j].entries["value"] == Str(value)
      {
        IndexedItem(items, j);
      }
    }
    SetBelowSame(doc, CONTAINERS_PATH, gate, Str(value));
  }

  // Setting the gate leaves the container's place and the rest of its environment alone.

  lemma {:induction false} SetContainersFinds(items: seq<Tree>, gate: string, value: Tree)
    ensures CountNamed(SetContainers(items, gate, value), "dashboard") == CountNamed(items, "dashboard")
    ensures CountNamed(items, "dashboard") > 0 ==>
      FirstNamed(SetContainers(items, gate, value), "dashboard") ==
        SetContainer(FirstNamed(items, "dashboard"), gate, value)
  {
    if items != [] {
      SetContainersFinds(items[1..], gate, value);
      assert IsNamed(SetContainer(items[0], gate, value), "dashboard") == IsNamed(items[0], "dashboard");
      assert SetContainers(items, gate, value)[1..] == SetContainers(items[1..], gate, value);
    }
  }

  lemma {:induction false} SetBelowReaches(t: Tree, path: seq<string>, gate: string, value: Tree)
    ensures Below(t, path).List? ==>
      Below(SetBelow(t, path, gate, value), path) == List(SetContainers(Below(t, path).items, gate, value))
    decreases |path|
  {
    if path != [] && t.Map? && path[0] in t.entries { SetBelowReaches(t.entries[path[0]], path[1..], gate, value); }
  }

  lemma {:induction false} SetItemsIndex(items: seq<Tree>, gate: string, value: Tree)
    requires EnvironmentIndex(items).Some?
    ensures EnvironmentIndex(SetItems(items, gate, value)).Some?
    ensures
      var m, n := EnvironmentIndex(items).value, EnvironmentIndex(SetItems(items, gate, value)).value;
      m.Keys == n.Keys && forall name | name in m && name != gate :: n[name] == m[name]
  {
    if items != [] {
      var front, last := items[..|items| - 1], items[|items| - 1];
      SetItemsIndex(front, gate, value);
      SetItemsSplit(front, [last], gate, value);
      assert front + [last] == items;
      IndexAppend(front, last);
      IndexAppend(SetItems(front, gate, value), SetItem(last, gate, value));
    }
  }

  lemma IndexAppend(items: seq<Tree>, item: Tree)
    ensures EnvironmentIndex(items + [item]) == IndexWith(EnvironmentIndex(items), item)
  {
    assert (items + [item])[..|items|] == items;
  }

  lemma {:induction false} SetItemsSplit(a: seq<Tree>, b: seq<Tree>, gate: string, value: Tree)
    ensures SetItems(a + b, gate, value) == SetItems(a, gate, value) + SetItems(b, gate, value)
  {
    if a == [] {
      assert a + b == b;
    } else {
      assert (a + b)[1..] == a[1..] + b;
      SetItemsSplit(a[1..], b, gate, value);
    }
  }

  /** A Deployment that differs from `before` in the gate's literal alone passes the check. */
  lemma GateChangeAccepted(before: Tree, gate: string, oldValue: string, newValue: string)
    requires GateLiteral(before, gate, oldValue)
    ensures DeploymentAccepted(before, WithGate(before, gate, Str(newValue)), gate)
  {
    var after := WithGate(before, gate, Str(newValue));
    ContainersAreBelow(before);
    ContainersAreBelow(after);
    SetBelowReaches(before, CONTAINERS_PATH, gate, Str(newValue));
    SetContainersFinds(Containers(before), gate, Str(newValue));
    assert Dashboard(after) == SetContainer(Dashboard(before), gate, Str(newValue));
    SetItemsIndex(Child(Dashboard(before), "env").items, gate, Str(newValue));
    SetBelowTwice(before, CONTAINERS_PATH, gate, Str(newValue), PLACEHOLDER);
  }

  /** A Deployment that passes is `before` with the gate at its own literal. */
  lemma AcceptedGateChange(before: Tree, after: Tree, gate: string, newValue: string)
    requires DeploymentAccepted(before, after, gate) && GateLiteral(after, gate, newValue)
    ensures after == WithGate(before, gate, Str(newValue))
  {
    GateAlreadySet(after, gate, newValue);
    SetBelowTwice(after, CONTAINERS_PATH, gate, PLACEHOLDER, Str(newValue));
    SetBelowTwice(before, CONTAINERS_PATH, gate, PLACEHOLDER, Str(newValue));
  }

  /** A packet with an index, whose only Deployment carries the gate as a literal. */
  ghost predicate ValidPacket(docs: seq<Object>, key: ResourceKey, gate: string, value: string, render: Render) {
    && Indexed(Select(docs, true), render).Some? && Indexed(Select(docs, false), render).Some?
    && ValidIndex(Indexed(Select(docs, false), render).value, key, gate, value)
  }

  ghost predicate ValidIndex(index: map<ResourceKey, Object>, key: ResourceKey, gate: string, value: string) {
    key in index && Deployments(index) == {key} && GateLiteral(Map(index[key]), gate, value)
  }

  lemma AcceptedIndexes(
    c: map<ResourceKey, Object>, d: map<ResourceKey, Object>, key: ResourceKey, target: ResourceKey, gate: string,
    oldValue: string, newValue: string)
    requires ValidIndex(c, key, gate, oldValue) && ValidIndex(d, target, gate, newValue)
    requires IndexesAccepted(c, d, gate)
    ensures d == c[key := WithGate(Map(c[key]), gate, Str(newValue)).entries]
  {
    assert Deployments(d) == Deployments(c);
    assert target in Deployments(d);
    AcceptedGateChange(Map(c[key]), Map(d[key]), gate, newValue);
    assert d == c[key := d[key]];
  }

  lemma ChangedIndexes(
    c: map<ResourceKey, Object>, d: map<ResourceKey, Object>, key: ResourceKey, gate: string, oldValue: string,
    newValue: string)
    requires ValidIndex(c, key, gate, oldValue)
    requires d == c[key := WithGate(Map(c[key]), gate, Str(newValue)).entries]
    ensures IndexesAccepted(c, d, gate)
  {
    GateChangeAccepted(Map(c[key]), gate, oldValue, newValue);
    assert Map(d[key]) == WithGate(Map(c[key]), gate, Str(newValue));
  }

  /** The checker is exact: between valid packets it accepts when and only when the hooks are equal and
      the desired resources are the current ones with the one gate literal replaced. */
  lemma RefreshGateIsExact(
    current: seq<Object>, desired: seq<Object>, key: ResourceKey, target: ResourceKey, gate: string, oldValue: string,
    newValue: string, render: Render)
    requires ValidPacket(current, key, gate, oldValue, render) && ValidPacket(desired, target, gate, newValue, render)
    ensures
      Accepted(current, desired, gate, render) <==>
        var c, d := Indexed(Select(current, false), render).value, Indexed(Select(desired, false), render).value;
        && Indexed(Select(current, true), render) == Indexed(Select(desired, true), render)
        && d == c[key := WithGate(Map(c[key]), gate, Str(newValue)).entries]
  {
    var c, d := Indexed(Select(current, false), render).value, Indexed(Select(desired, false), render).value;
    if IndexesAccepted(c, d, gate) { AcceptedIndexes(c, d, key, target, gate, oldValue, newValue); }
    if d == c[key := WithGate(Map(c[key]), gate, Str(newValue)).entries] {
      ChangedIndexes(c, d, key, gate, oldValue, newValue);
    }
  }
}
