/**
 * Which live documents are accepted, exactly: for every kind a pair is accepted when and only when the
 * stripped live document fits the stripped desired one by the kind's schema. In particular a document in which
 * the server has only added table defaults and allocated values is accepted; and what it may fill in of a
 * Deployment's strategy that is not desired.
 */
module ReleaseFilled {
  import opened Common
  import opened ReleaseTrees
  import opened ReleaseNormalisation
  import opened ReleaseComparison
  import opened ReleaseAcceptance
  import opened ReleaseFilling
  import opened ReleaseSchemas

  // ---------------------------------------------------------------- the kinds

  lemma GrantedAndDefaultsEdit(table: Table, keys: set<string>, live: Object, ref: Object)
    ensures DropDefaults(DropAllocated(live, ref, keys), ref, table) == Edit(Only(table).(granted := keys), live, ref)
    ensures DropAllocated(DropDefaults(live, ref, table), ref, keys) == Edit(Only(table).(granted := keys), live, ref)
  {
    var s := Only(table).(granted := keys);
    assert TableOf(s, ref) == table;
    var a := DropDefaults(DropAllocated(live, ref, keys), ref, table);
    var b := DropAllocated(DropDefaults(live, ref, table), ref, keys);
    forall k
      ensures (k in a <==> k in Edit(s, live, ref)) && (k in b <==> k in Edit(s, live, ref))
      ensures k in Edit(s, live, ref) ==> a[k] == Edit(s, live, ref)[k] && b[k] == Edit(s, live, ref)[k]
    {
      LeftAsIs(s, live, ref, k);
      DropDefaultsExact(DropAllocated(live, ref, keys), ref, table, k);
      DropDefaultsExact(live, ref, table, k);
    }
    SameMaps(a, Edit(s, live, ref));
    SameMaps(b, Edit(s, live, ref));
  }

  lemma ServiceEdits(live: Object, ref: Object)
    ensures NormaliseServiceSpec(live, ref) == Edit(SERVICE, live, ref)
  {
    var a := Only(SERVICE_DEFAULTS).(granted := SERVICE_ALLOCATED);
    GrantedAndDefaultsEdit(SERVICE_DEFAULTS, SERVICE_ALLOCATED, live, ref);
    forall o: Object, d: Object ensures NormaliseServicePort(o, d) == Edit(SERVICE_PORT, o, d) {
      GrantedAndDefaultsEdit(SERVICE_PORT_DEFAULTS, {"nodePort"}, o, d);
    }
    ItemsAdd(a, "ports", SERVICE_PORT, live, ref, NormaliseServicePort);
    assert a.items["ports" := SERVICE_PORT] == SERVICE.items;
  }

  lemma StrategyEdits(live: Object, ref: Object)
    ensures NormaliseStrategy(live, ref) == Edit(STRATEGY, live, ref)
  {
    OnlyDropsDefaults(STRATEGY_DEFAULTS, live, ref);
    DefaultsAtEdit(Only(STRATEGY_DEFAULTS), "rollingUpdate", ROLLING_DEFAULTS, live, ref);
    assert map[]["rollingUpdate" := Only(ROLLING_DEFAULTS)] == STRATEGY.objects;
  }

  lemma TemplateOfEdits(s: Schema, live: Object, ref: Object)
    requires Leaves(s, "template")
    ensures NormaliseTemplateOf(Edit(s, live, ref), ref) ==
      Edit(s.(objects := s.objects["template" := TEMPLATE]), live, ref)
  {
    var edit := (t: Object) => NormalisePodTemplate(t, ObjectAt(ref, "template"));
    forall o: Object ensures edit(o) == Edit(TEMPLATE, o, ObjectAt(ref, "template")) {
      TemplateEdits(o, ObjectAt(ref, "template"));
    }
    ObjectAdds(s, "template", TEMPLATE, live, ref, edit);
  }

  lemma DeploymentEdits(live: Object, ref: Object)
    ensures NormaliseDeploymentSpec(live, ref) == Edit(DEPLOYMENT, live, ref)
  {
    var a := Only(DEPLOYMENT_DEFAULTS);
    var b := a.(objects := a.objects["strategy" := STRATEGY]);
    var edit := (s: Object) => NormaliseStrategy(s, ObjectAt(ref, "strategy"));
    OnlyDropsDefaults(DEPLOYMENT_DEFAULTS, live, ref);
    forall o: Object ensures edit(o) == Edit(STRATEGY, o, ObjectAt(ref, "strategy")) {
      StrategyEdits(o, ObjectAt(ref, "strategy"));
    }
    ObjectAdds(a, "strategy", STRATEGY, live, ref, edit);
    TemplateOfEdits(b, live, ref);
    assert b.objects["template" := TEMPLATE] == DEPLOYMENT.objects;
  }

  lemma UpdateStrategyEdits(live: Object, ref: Object)
    ensures NormaliseUpdateStrategy(live, ref) == Edit(UPDATE_STRATEGY, live, ref)
  {
    var a := Only(STRATEGY_DEFAULTS);
    var b := a.(objects := a.objects["rollingUpdate" := Only(PARTITION_DEFAULTS)]);
    OnlyDropsDefaults(STRATEGY_DEFAULTS, live, ref);
    DefaultsAtEdit(a, "rollingUpdate", PARTITION_DEFAULTS, live, ref);
    EmptiedDrops(b, "rollingUpdate", live, ref);
    assert b.objects == UPDATE_STRATEGY.objects && b.dropsEmptied + {"rollingUpdate"} == UPDATE_STRATEGY.dropsEmptied;
  }

  lemma StatefulEdits(live: Object, ref: Object)
    ensures NormaliseStatefulSpec(live, ref) == Edit(STATEFUL_SET, live, ref)
  {
    var a := Only(STATEFUL_DEFAULTS);
    var b := a.(objects := a.objects["updateStrategy" := UPDATE_STRATEGY]);
    var c := b.(dropsEmptied := b.dropsEmptied + {"updateStrategy"});
    var d := c.(objects := c.objects[RETENTION := Only(RETENTION_DEFAULTS)]);
    var e := d.(dropsEmptied := d.dropsEmptied + {RETENTION});
    var edit := (s: Object) => NormaliseUpdateStrategy(s, ObjectAt(ref, "updateStrategy"));
    OnlyDropsDefaults(STATEFUL_DEFAULTS, live, ref);
    forall o: Object ensures edit(o) == Edit(UPDATE_STRATEGY, o, ObjectAt(ref, "updateStrategy")) {
      UpdateStrategyEdits(o, ObjectAt(ref, "updateStrategy"));
    }
    ObjectAdds(a, "updateStrategy", UPDATE_STRATEGY, live, ref, edit);
    EmptiedDrops(b, "updateStrategy", live, ref);
    DefaultsAtEdit(c, RETENTION, RETENTION_DEFAULTS, live, ref);
    EmptiedDrops(d, RETENTION, live, ref);
    TemplateOfEdits(e, live, ref);
    assert e.objects["template" := TEMPLATE] == STATEFUL_SET.objects && e.dropsEmptied == STATEFUL_SET.dropsEmptied;
  }

  lemma ClaimMetadataEdits(live: Object, ref: Object)
    ensures NormaliseClaimMetadata(live, ref) == Edit(CLAIM_METADATA, live, ref)
  {
    var table: Table := [("finalizers", List([PROTECTION]))];
    var annotations := NOTHING.(granted := CLAIM_ANNOTATIONS);
    var edit := (a: Object) => DropAllocated(a, ObjectAt(ref, "annotations"), CLAIM_ANNOTATIONS);
    OnlyDropsDefaults(table, live, ref);
    assert DropDefaults(live, ref, table) == DropDefault(live, ref, table[0].0, table[0].1) by {
      assert table[1..] == [];
    }
    forall o: Object ensures edit(o) == Edit(annotations, o, ObjectAt(ref, "annotations")) {
      GrantedAndDefaultsEdit([], CLAIM_ANNOTATIONS, o, ObjectAt(ref, "annotations"));
    }
    ObjectAdds(Only(table), "annotations", annotations, live, ref, edit);
    assert map[]["annotations" := annotations] == CLAIM_METADATA.objects;
  }

  lemma SpecEdits(kind: Kind, live: Object, ref: Object)
    ensures SpecEdit(kind)(live, ref) == Edit(SpecSchema(kind), live, ref)
  {
    match kind
    case Service => ServiceEdits(live, ref);
    case Deployment => DeploymentEdits(live, ref);
    case StatefulSet => StatefulEdits(live, ref);
    case PersistentVolumeClaim => GrantedAndDefaultsEdit(CLAIM_DEFAULTS, {"volumeName"}, live, ref);
    case Other => NothingEdits(live, ref);
  }

  lemma MetadataEdits(live: Object, ref: Object)
    ensures
      OnObject(live, "metadata", (m: Object) => NormaliseClaimMetadata(m, ObjectAt(ref, "metadata"))) ==
      Edit(NOTHING.(objects := NOTHING.objects["metadata" := CLAIM_METADATA]), live, ref)
  {
    var edit := (m: Object) => NormaliseClaimMetadata(m, ObjectAt(ref, "metadata"));
    forall o: Object ensures edit(o) == Edit(CLAIM_METADATA, o, ObjectAt(ref, "metadata")) {
      ClaimMetadataEdits(o, ObjectAt(ref, "metadata"));
    }
    NothingEdits(live, ref);
    ObjectAdds(NOTHING, "metadata", CLAIM_METADATA, live, ref, edit);
  }

  lemma SpecOfEdits(s: Schema, kind: Kind, live: Object, ref: Object)
    requires Leaves(s, "spec")
    ensures
      OnObject(Edit(s, live, ref), "spec", (spec: Object) => SpecEdit(kind)(spec, ObjectAt(ref, "spec"))) ==
      Edit(s.(objects := s.objects["spec" := SpecSchema(kind)]), live, ref)
  {
    var edit := (spec: Object) => SpecEdit(kind)(spec, ObjectAt(ref, "spec"));
    forall o: Object ensures edit(o) == Edit(SpecSchema(kind), o, ObjectAt(ref, "spec")) {
      SpecEdits(kind, o, ObjectAt(ref, "spec"));
    }
    ObjectAdds(s, "spec", SpecSchema(kind), live, ref, edit);
  }

  lemma ClaimEdits(live: Object, ref: Object)
    requires KindOf(live).PersistentVolumeClaim?
    ensures Normalise(live, ref) == Edit(DocumentSchema(PersistentVolumeClaim), live, ref)
  {
    var s := NOTHING.(objects := NOTHING.objects["metadata" := CLAIM_METADATA]);
    MetadataEdits(live, ref);
    SpecOfEdits(s, PersistentVolumeClaim, live, ref);
    ClaimSchemaIs(s);
  }

  lemma ClaimSchemaIs(s: Schema)
    requires s == NOTHING.(objects := NOTHING.objects["metadata" := CLAIM_METADATA])
    ensures
      s.(objects := s.objects["spec" := SpecSchema(PersistentVolumeClaim)]) == DocumentSchema(PersistentVolumeClaim)
  {
    assert s.objects["spec" := CLAIM] == DocumentSchema(PersistentVolumeClaim).objects;
  }

  lemma OtherKindsEdit(live: Object, ref: Object)
    requires !KindOf(live).PersistentVolumeClaim?
    ensures Normalise(live, ref) == Edit(DocumentSchema(KindOf(live)), live, ref)
  {
    NothingEdits(live, ref);
    SpecOfEdits(NOTHING, KindOf(live), live, ref);
    assert NOTHING.objects["spec" := SpecSchema(KindOf(live))] == DocumentSchema(KindOf(live)).objects;
  }

  /** Whatever the kind, normalising a document is editing it by its kind's schema. */
  lemma DocumentEdits(live: Object, ref: Object)
    ensures Normalise(live, ref) == Edit(DocumentSchema(KindOf(live)), live, ref)
  {
    if KindOf(live).PersistentVolumeClaim? { ClaimEdits(live, ref); } else { OtherKindsEdit(live, ref); }
  }

  /** A pair is accepted exactly when both sides can be stripped and the live one then fits the desired one. */
  lemma AcceptedIffFits(live: Object, desired: Object, release: string, namespace: string)
    ensures
      var l, d := Strip(live, true, release, namespace), Strip(desired, false, release, namespace);
      PairAccepted(live, desired, release, namespace) <==>
      l.Some? && d.Some? && Fits(DocumentSchema(KindOf(l.value)), l.value, d.value, d.value)
  {
    PairAcceptedIffRelated(live, desired, release, namespace);
    var l, d := Strip(live, true, release, namespace), Strip(desired, false, release, namespace);
    if l.Some? && d.Some? {
      DocumentEdits(l.value, d.value);
      FittingIsExact(DocumentSchema(KindOf(l.value)), l.value, d.value, d.value);
    }
  }

  // ---------------------------------------------------------------- a server that only adds

  /** Items that are mappings with text names, no two the same. */
  ghost predicate UniquelyNamed(items: seq<Tree>) {
    && (forall i | 0 <= i < |items| :: items[i].Map? && "name" in items[i].entries && items[i].entries["name"].Str?)
    && (forall i, j | 0 <= i < j < |items| :: items[i].entries["name"] != items[j].entries["name"])
  }

  /** The live mapping is the desired one with nothing but table defaults and allocated values added, in it and
      in the mappings and uniquely named items that the schema looks into. */
  ghost predicate OnlyAdds(s: Schema, live: Object, desired: Object)
    decreases s, 1
  {
    && (forall k | k in desired :: k in live && AddsTo(s, live[k], desired[k], k))
    && (forall k | k in live && k !in desired :: TakenAway(s, live, desired, k))
  }

  ghost predicate AddsTo(s: Schema, value: Tree, desired: Tree, key: string)
    decreases s, 0
  {
    if value.Map? && desired.Map? && key in s.objects then OnlyAdds(s.objects[key], value.entries, desired.entries)
    else if value.Map? && desired.Map? && key in s.guarded then OnlyAdds(s.guarded[key], value.entries, desired.entries)
    else if value.List? && desired.List? && key in s.items then
      && |value.items| == |desired.items| && UniquelyNamed(desired.items)
      && forall i | 0 <= i < |value.items| ::
           value.items[i].Map? && OnlyAdds(s.items[key], value.items[i].entries, desired.items[i].entries)
    else value == desired
  }

  lemma {:induction false} NamedOnce(items: seq<Tree>, i: nat)
    requires UniquelyNamed(items) && i < |items|
    ensures NamedItems(items, items[i].entries["name"].text) == [items[i].entries]
  {
    var name := items[i].entries["name"].text;
    var rest := items[1..];
    assert forall j | 0 <= j < |rest| :: rest[j] == items[j + 1];
    if i > 0 {
      NamedOnce(rest, i - 1);
      assert items[0].entries["name"] != items[i].entries["name"];
    } else {
      NamedNever(rest, name);
    }
  }

  lemma {:induction false} NamedNever(items: seq<Tree>, name: string)
    requires forall i | 0 <= i < |items| ::
      items[i].Map? && "name" in items[i].entries && items[i].entries["name"] != Str(name)
    ensures NamedItems(items, name) == []
  {
    if items != [] { NamedNever(items[1..], name); }
  }

  /** Additions fit. */
  lemma {:induction false} AdditionsFit(s: Schema, live: Object, desired: Object)
    requires OnlyAdds(s, live, desired)
    ensures Fits(s, live, desired, desired)
    decreases s, 1
  {
    forall k | k in live || k in desired || k == "value" ensures KeyFits(s, live, desired, desired, k) {
      if k in desired { AddedValueFits(s, live[k], desired, k); }
    }
  }

  lemma AddedValueFits(s: Schema, value: Tree, desired: Object, key: string)
    requires key in desired && AddsTo(s, value, desired[key], key)
    ensures ValueFits(s, value, desired, desired[key], key)
    decreases s, 0
  {
    var w := desired[key];
    if value.Map? && w.Map? && key in s.objects {
      AdditionsFit(s.objects[key], value.entries, w.entries);
    } else if value.Map? && w.Map? && key in s.guarded {
      AdditionsFit(s.guarded[key], value.entries, w.entries);
    } else if value.List? && w.List? && key in s.items {
      forall i | 0 <= i < |value.items| ensures ItemFits(s.items[key], value.items[i], desired, key, w.items[i]) {
        var item, wanted := value.items[i].entries, w.items[i].entries;
        assert AddsTo(s.items[key], item["name"], wanted["name"], "name") && item["name"] == wanted["name"];
        NamedOnce(w.items, i);
        assert MatchingItem(desired, key, item) == wanted;
        AdditionsFit(s.items[key], item, wanted);
      }
    } else {
      RelatedReflexive(value);
    }
  }

  /** A live document in which the server has only added to the desired one is accepted. */
  lemma AdditionsAreAccepted(live: Object, desired: Object, release: string, namespace: string)
    requires Strip(live, true, release, namespace).Some? && Strip(desired, false, release, namespace).Some?
    requires
      var l, d := Strip(live, true, release, namespace).value, Strip(desired, false, release, namespace).value;
      OnlyAdds(DocumentSchema(KindOf(l)), l, d)
    ensures PairAccepted(live, desired, release, namespace)
  {
    var l, d := Strip(live, true, release, namespace).value, Strip(desired, false, release, namespace).value;
    AdditionsFit(DocumentSchema(KindOf(l)), l, d);
    AcceptedIffFits(live, desired, release, namespace);
  }

  // ---------------------------------------------------------------- a strategy nobody asked for

  /** One key more that is not desired. */
  lemma OneKeyMore(s: Schema, live: Object, desired: Object, key: string, value: Tree)
    requires key !in live && key !in desired && !s.restores
    ensures
      var more := live[key := value];
      Fits(s, more, desired, desired) <==> Fits(s, live, desired, desired) && KeyFits(s, more, desired, desired, key)
  {
    var more := live[key := value];
    forall k | k != key ensures KeyFits(s, more, desired, desired, k) == KeyFits(s, live, desired, desired, k) {
      if k in live { assert TakenAway(s, more, desired, k) == TakenAway(s, live, desired, k); }
    }
    assert KeyFits(s, live, desired, desired, key);
  }

  lemma OneValueChanged(s: Schema, live: Object, desired: Object, key: string, value: Tree)
    requires key in live && key in desired && !s.restores && Fits(s, live, desired, desired)
    ensures
      Fits(s, live[key := value], desired, desired) <==> ValueFits(s, value, desired, desired[key], key)
  {
    var changed := live[key := value];
    forall k | k != key ensures KeyFits(s, changed, desired, desired, k) == KeyFits(s, live, desired, desired, k) {
      if k in live { assert TakenAway(s, changed, desired, k) == TakenAway(s, live, desired, k); }
    }
    assert KeyFits(s, changed, desired, desired, key) <==> ValueFits(s, value, desired, desired[key], key);
  }

  /** Nothing but an omitted empty, or the default type alone. */
  predicate IsBareStrategy(t: Tree) { Empty(t) || t == Map(map["type" := Str("RollingUpdate")]) }

  lemma StrategyTable(key: string, value: Tree)
    ensures InTable(STRATEGY_DEFAULTS, key, value) <==> key == "type" && value == Str("RollingUpdate")
  {
    if key == "type" && value == Str("RollingUpdate") { assert STRATEGY_DEFAULTS[0] == (key, value); }
  }

  lemma BareStrategiesVanish(strategy: Tree, ref: Object)
    requires "strategy" !in ref
    ensures Vanishes(DEPLOYMENT, strategy, ref, "strategy") <==> IsBareStrategy(strategy)
  {
    assert ObjectAt(ref, "strategy") == map[];
    if strategy.Map? {
      var m := strategy.entries;
      assert TableOf(STRATEGY, map[]) == STRATEGY_DEFAULTS;
      forall k | k in m ensures TakenAway(STRATEGY, m, map[], k) <==> k == "type" && m[k] == Str("RollingUpdate") {
        StrategyTable(k, m[k]);
      }
      if AllTakenAway(STRATEGY, m, map[]) {
        assert forall k | k in m :: k == "type" && m[k] == Str("RollingUpdate");
        if "type" in m { assert m == map["type" := Str("RollingUpdate")]; } else { assert m == map[]; }
      }
    }
  }

  lemma StrategyIsNoDefault(spec: Object, ref: Object)
    requires "strategy" in spec
    ensures !TakenAway(DEPLOYMENT, spec, ref, "strategy")
  {
    assert TableOf(DEPLOYMENT, ref) == DEPLOYMENT_DEFAULTS;
    forall i | 0 <= i < |DEPLOYMENT_DEFAULTS| ensures DEPLOYMENT_DEFAULTS[i].0 != "strategy" {
      assert i == 0 || i == 1 || i == 2 || i == 3 || i == 4;
    }
  }

  function WithStrategy(live: Object, strategy: Tree): Object
    requires HasObject(live, "spec")
  {
    live["spec" := Map(live["spec"].entries["strategy" := strategy])]
  }

  lemma StrategyFits(spec: Object, ref: Object, strategy: Tree)
    requires "strategy" !in spec && "strategy" !in ref && Fits(DEPLOYMENT, spec, ref, ref)
    ensures Fits(DEPLOYMENT, spec["strategy" := strategy], ref, ref) <==> IsBareStrategy(strategy)
  {
    var more := spec["strategy" := strategy];
    OneKeyMore(DEPLOYMENT, spec, ref, "strategy", strategy);
    StrategyIsNoDefault(more, ref);
    BareStrategiesVanish(strategy, ref);
  }

  lemma StrippedWithStrategy(live: Object, strategy: Tree, release: string, namespace: string)
    requires HasObject(live, "spec") && Strip(live, true, release, namespace).Some?
    ensures HasObject(Strip(live, true, release, namespace).value, "spec")
    ensures Strip(WithStrategy(live, strategy), true, release, namespace) ==
      Some(WithStrategy(Strip(live, true, release, namespace).value, strategy))
  {
    var more := WithStrategy(live, strategy);
    var rest, rest' := live - {"status"}, more - {"status"};
    assert rest' == rest["spec" := more["spec"]] && KindOf(more) == KindOf(live);
    assert rest["spec"] == live["spec"] && rest'["metadata"] == rest["metadata"];
    var m := StripMetadata(rest["metadata"].entries, true, KindOf(live).Deployment?, release, namespace).value;
    assert rest["spec" := more["spec"]]["metadata" := Map(m)] == rest["metadata" := Map(m)]["spec" := more["spec"]];
  }

  lemma SpecFits(l: Object, d: Object, strategy: Tree)
    requires ShowNoStrategy(l, d) && Fits(DocumentSchema(Deployment), l, d, d)
    ensures Fits(DocumentSchema(Deployment), WithStrategy(l, strategy), d, d) <==> IsBareStrategy(strategy)
  {
    var s := DocumentSchema(Deployment);
    var spec, wanted := l["spec"].entries, d["spec"].entries;
    assert KeyFits(s, l, d, d, "spec") && s.objects["spec"] == DEPLOYMENT;
    assert Fits(DEPLOYMENT, spec, wanted, wanted);
    OneValueChanged(s, l, d, "spec", Map(spec["strategy" := strategy]));
    StrategyFits(spec, wanted, strategy);
  }

  lemma StripKeepsSpec(doc: Object, live: bool, release: string, namespace: string)
    requires Strip(doc, live, release, namespace).Some? && HasObject(doc, "spec")
    ensures
      var left := Strip(doc, live, release, namespace).value;
      HasObject(left, "spec") && left["spec"] == doc["spec"] && KindOf(left) == KindOf(doc)
  {
  }

  /** The live and the desired spec of an accepted Deployment that show no strategy, after stripping. */
  ghost predicate ShowNoStrategy(l: Object, d: Object) {
    && KindOf(l).Deployment? && HasObject(l, "spec") && HasObject(d, "spec")
    && "strategy" !in l["spec"].entries && "strategy" !in d["spec"].entries
  }

  lemma DeploymentVerdict(live: Object, desired: Object, l: Object, d: Object, release: string, namespace: string)
    requires Strip(live, true, release, namespace) == Some(l) && Strip(desired, false, release, namespace) == Some(d)
    requires KindOf(l).Deployment?
    ensures PairAccepted(live, desired, release, namespace) <==> Fits(DocumentSchema(Deployment), l, d, d)
  {
    AcceptedIffFits(live, desired, release, namespace);
  }

  lemma StrippedShowNoStrategy(live: Object, desired: Object, l: Object, d: Object, release: string, namespace: string)
    requires Strip(live, true, release, namespace) == Some(l) && Strip(desired, false, release, namespace) == Some(d)
    requires ShowNoStrategy(live, desired)
    ensures ShowNoStrategy(l, d)
  {
    StripKeepsSpec(live, true, release, namespace);
    StripKeepsSpec(desired, false, release, namespace);
  }

  lemma StrippedStaysDeployment(
    live: Object, desired: Object, strategy: Tree, l: Object, d: Object, release: string, namespace: string)
    requires Strip(live, true, release, namespace) == Some(l) && Strip(desired, false, release, namespace) == Some(d)
    requires ShowNoStrategy(live, desired) && ShowNoStrategy(l, d)
    ensures Strip(WithStrategy(live, strategy), true, release, namespace) == Some(WithStrategy(l, strategy))
    ensures KindOf(WithStrategy(l, strategy)).Deployment?
  {
    StrippedWithStrategy(live, strategy, release, namespace);
  }

  lemma VerdictFollows(
    live: Object, desired: Object, l: Object, d: Object, fits: bool, release: string, namespace: string)
    requires Strip(live, true, release, namespace) == Some(l) && Strip(desired, false, release, namespace) == Some(d)
    requires KindOf(l).Deployment? && (Fits(DocumentSchema(Deployment), l, d, d) <==> fits)
    ensures PairAccepted(live, desired, release, namespace) <==> fits
  {
    DeploymentVerdict(live, desired, l, d, release, namespace);
  }

  /** The verdict on the pair with the strategy, from the verdict without, after stripping. */
  lemma StrategyVerdict(
    live: Object, desired: Object, strategy: Tree, l: Object, d: Object, release: string, namespace: string)
    requires Strip(live, true, release, namespace) == Some(l) && Strip(desired, false, release, namespace) == Some(d)
    requires ShowNoStrategy(live, desired) && ShowNoStrategy(l, d) && Fits(DocumentSchema(Deployment), l, d, d)
    ensures PairAccepted(WithStrategy(live, strategy), desired, release, namespace) <==> IsBareStrategy(strategy)
  {
    StrippedStaysDeployment(live, desired, strategy, l, d, release, namespace);
    SpecFits(l, d, strategy);
    VerdictFollows(
      WithStrategy(live, strategy), desired, WithStrategy(l, strategy), d, IsBareStrategy(strategy), release,
      namespace);
  }

  /** Adding a live strategy that is not desired to an accepted Deployment leaves it accepted exactly when the
      strategy is bare. */
  lemma UndesiredStrategyMustBeBare(live: Object, desired: Object, strategy: Tree, release: string, namespace: string)
    requires PairAccepted(live, desired, release, namespace) && ShowNoStrategy(live, desired)
    ensures PairAccepted(WithStrategy(live, strategy), desired, release, namespace) <==> IsBareStrategy(strategy)
  {
    var l, d := Strip(live, true, release, namespace).value, Strip(desired, false, release, namespace).value;
    StrippedShowNoStrategy(live, desired, l, d, release, namespace);
    DeploymentVerdict(live, desired, l, d, release, namespace);
    StrategyVerdict(live, desired, strategy, l, d, release, namespace);
  }

  const DEFAULT_STRATEGY: Tree := Map(map[
    "type" := Str("RollingUpdate"),
    "rollingUpdate" := Map(map["maxSurge" := Str("25%"), "maxUnavailable" := Str("25%")])])

  const PLAIN: Object := map[
    "kind" := Str("Deployment"),
    "metadata" := Map(map["name" := Str("web")]),
    "spec" := Map(map["replicas" := Num(2.0)])]

  function PlainStripped(namespace: string): Object {
    PLAIN["metadata" := Map(map["name" := Str("web"), "namespace" := Str(namespace)])]
  }

  lemma PlainStrips(live: bool, release: string, namespace: string)
    ensures Strip(PLAIN, live, release, namespace) == Some(PlainStripped(namespace))
  {
    var m := map["name" := Str("web")];
    assert PLAIN - {"status"} == PLAIN;
    assert WithNamespace(m, namespace) - SERVER_METADATA == map["name" := Str("web"), "namespace" := Str(namespace)];
  }

  lemma PlainAddsNothing(namespace: string)
    ensures OnlyAdds(DocumentSchema(Deployment), PlainStripped(namespace), PlainStripped(namespace))
  {
    var l, s := PlainStripped(namespace), DocumentSchema(Deployment);
    var spec := map["replicas" := Num(2.0)];
    assert AddsTo(DEPLOYMENT, spec["replicas"], spec["replicas"], "replicas");
    assert OnlyAdds(DEPLOYMENT, spec, spec);
    forall k | k in l ensures AddsTo(s, l[k], l[k], k) {
      if k == "spec" { assert s.objects[k] == DEPLOYMENT; } else { assert k !in s.objects; }
    }
  }

  lemma PlainIsAccepted(release: string, namespace: string)
    ensures PairAccepted(PLAIN, PLAIN, release, namespace)
  {
    PlainStrips(true, release, namespace);
    PlainStrips(false, release, namespace);
    PlainAddsNothing(namespace);
    assert KindOf(PlainStripped(namespace)) == Deployment;
    AdditionsAreAccepted(PLAIN, PLAIN, release, namespace);
  }

  /** A Deployment is accepted as it is desired, and refused when the server shows its default strategy. */
  lemma DefaultStrategyIsRefused(release: string, namespace: string)
    ensures PairAccepted(PLAIN, PLAIN, release, namespace)
    ensures HasObject(PLAIN, "spec") && !PairAccepted(WithStrategy(PLAIN, DEFAULT_STRATEGY), PLAIN, release, namespace)
  {
    PlainIsAccepted(release, namespace);
    UndesiredStrategyMustBeBare(PLAIN, PLAIN, DEFAULT_STRATEGY, release, namespace);
    assert "rollingUpdate" in DEFAULT_STRATEGY.entries;
  }
}
