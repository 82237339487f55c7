/**
 * The schemas of the resource kinds: each normaliser edits by its schema, so acceptance of any pair of
 * documents is decided by what the schemas say a server may fill in.
 */
module ReleaseSchemas {
  import opened Common
  import opened ReleaseTrees
  import opened ReleaseNormalisation
  import opened ReleaseComparison
  import opened ReleaseFilling

  // ---------------------------------------------------------------- the schemas

  const PROBE: Schema := Only(PROBE_DEFAULTS).(objects := map["httpGet" := Only(HTTP_DEFAULTS)])

  const ENVIRONMENT: Schema := NOTHING.(restores := true)

  const CONTAINER: Schema := Only(CONTAINER_DEFAULTS).(
    pullPolicy := true,
    guarded := map["startupProbe" := PROBE, "readinessProbe" := PROBE, "livenessProbe" := PROBE],
    items := map["env" := ENVIRONMENT, "ports" := Only(CONTAINER_PORT_DEFAULTS)])

  const VOLUME: Schema := NOTHING.(
    objects := map["persistentVolumeClaim" := Only(CLAIM_SOURCE_DEFAULTS), "configMap" := Only(FILE_SOURCE_DEFAULTS),
                   "secret" := Only(FILE_SOURCE_DEFAULTS), "projected" := Only(FILE_SOURCE_DEFAULTS)])

  const POD: Schema := Only(POD_DEFAULTS).(
    items := map["containers" := CONTAINER, "initContainers" := CONTAINER, "volumes" := VOLUME])

  const TEMPLATE: Schema := NOTHING.(objects := map["metadata" := Only(TEMPLATE_METADATA_DEFAULTS), "spec" := POD])

  const SERVICE_PORT: Schema := Only(SERVICE_PORT_DEFAULTS).(granted := {"nodePort"})

  const SERVICE: Schema := Only(SERVICE_DEFAULTS).(granted := SERVICE_ALLOCATED, items := map["ports" := SERVICE_PORT])

  const STRATEGY: Schema := Only(STRATEGY_DEFAULTS).(objects := map["rollingUpdate" := Only(ROLLING_DEFAULTS)])

  const DEPLOYMENT: Schema := Only(DEPLOYMENT_DEFAULTS).(objects := map["strategy" := STRATEGY, "template" := TEMPLATE])

  const UPDATE_STRATEGY: Schema := Only(STRATEGY_DEFAULTS).(
    objects := map["rollingUpdate" := Only(PARTITION_DEFAULTS)], dropsEmptied := {"rollingUpdate"})

  const RETENTION := "persistentVolumeClaimRetentionPolicy"

  const STATEFUL_SET: Schema := Only(STATEFUL_DEFAULTS).(
    objects := map["updateStrategy" := UPDATE_STRATEGY, RETENTION := Only(RETENTION_DEFAULTS), "template" := TEMPLATE],
    dropsEmptied := {"updateStrategy", RETENTION})

  const CLAIM: Schema := Only(CLAIM_DEFAULTS).(granted := {"volumeName"})

  const CLAIM_METADATA: Schema := Only([("finalizers", List([PROTECTION]))]).(
    objects := map["annotations" := NOTHING.(granted := CLAIM_ANNOTATIONS)])

  function SpecSchema(kind: Kind): Schema {
    match kind
    case Service => SERVICE
    case Deployment => DEPLOYMENT
    case StatefulSet => STATEFUL_SET
    case PersistentVolumeClaim => CLAIM
    case Other => NOTHING
  }

  function DocumentSchema(kind: Kind): Schema {
    NOTHING.(objects := map["spec" := SpecSchema(kind)] +
                        if kind.PersistentVolumeClaim? then map["metadata" := CLAIM_METADATA] else map[])
  }

  // ---------------------------------------------------------------- the primitives, key by key

  /** Exactly the table's values under keys that the desired item does not have are dropped. */
  lemma {:induction false} DropDefaultsExact(live: Object, ref: Object, table: Table, key: string)
    ensures key in DropDefaults(live, ref, table) <==> key in live && (key in ref || !InTable(table, key, live[key]))
    ensures key in DropDefaults(live, ref, table) ==> DropDefaults(live, ref, table)[key] == live[key]
  {
    if table != [] {
      var first := DropDefault(live, ref, table[0].0, table[0].1);
      DropDefaultsExact(first, ref, table[1..], key);
      if key in live { InLongerTable(table, key, live[key]); }
    }
  }

  lemma InLongerTable(table: Table, key: string, value: Tree)
    requires table != []
    ensures InTable(table, key, value) <==> table[0] == (key, value) || InTable(table[1..], key, value)
  {
    if InTable(table[1..], key, value) {
      var i :| 0 <= i < |table[1..]| && table[1..][i] == (key, value);
      assert table[i + 1] == (key, value);
    }
    if InTable(table, key, value) && table[0] != (key, value) {
      var i :| 0 <= i < |table| && table[i] == (key, value);
      assert table[1..][i - 1] == (key, value);
    }
  }

  lemma OnlyDropsDefaults(table: Table, live: Object, ref: Object)
    ensures Edit(Only(table), live, ref) == DropDefaults(live, ref, table)
  {
    var s := Only(table);
    assert TableOf(s, ref) == table;
    forall k ensures k in Edit(s, live, ref) <==> k in DropDefaults(live, ref, table) {
      DropDefaultsExact(live, ref, table, k);
    }
    forall k | k in Edit(s, live, ref) ensures Edit(s, live, ref)[k] == DropDefaults(live, ref, table)[k] {
      DropDefaultsExact(live, ref, table, k);
    }
  }

  /** Editing a list against items of the same name. */
  lemma OnMatchedEdits(live: Object, ref: Object, key: string, edit: (Object, Object) -> Object, s: Schema)
    requires forall o: Object, d: Object :: edit(o, d) == Edit(s, o, d)
    ensures
      OnMatched(live, ref, key, edit) ==
      if key in live && live[key].List? then live[key := List(EditList(s, live[key].items, ref, key))] else live
  {
    if key in live && live[key].List? {
      var xs := live[key].items;
      var ys := OnMatched(live, ref, key, edit)[key].items;
      forall i | 0 <= i < |xs| ensures ys[i] == EditList(s, xs, ref, key)[i] {}
      assert ys == EditList(s, xs, ref, key);
    }
  }

  // ---------------------------------------------------------------- one edit more, one entry more

  /** Two schemas say the same of a key. */
  ghost predicate AgreeOn(s: Schema, t: Schema, key: string) {
    && s.defaults == t.defaults && s.pullPolicy == t.pullPolicy && s.granted == t.granted && s.restores == t.restores
    && (key in s.objects <==> key in t.objects) && (key in s.objects ==> s.objects[key] == t.objects[key])
    && (key in s.guarded <==> key in t.guarded) && (key in s.guarded ==> s.guarded[key] == t.guarded[key])
    && (key in s.items <==> key in t.items) && (key in s.items ==> s.items[key] == t.items[key])
    && (key in s.dropsEmptied <==> key in t.dropsEmptied)
  }

  lemma SameAt(s: Schema, t: Schema, live: Object, ref: Object, key: string)
    requires AgreeOn(s, t, key)
    ensures key in Edit(s, live, ref) <==> key in Edit(t, live, ref)
    ensures key in Edit(s, live, ref) ==> Edit(s, live, ref)[key] == Edit(t, live, ref)[key]
  {
    assert Restores(s, live, ref) == Restores(t, live, ref);
    if key in live {
      assert TakenAway(s, live, ref, key) == TakenAway(t, live, ref, key);
      assert EditValue(s, live[key], ref, key) == EditValue(t, live[key], ref, key);
    }
  }

  lemma SameMaps(m: Object, n: Object)
    requires forall k :: (k in m <==> k in n) && (k in m ==> m[k] == n[k])
    ensures m == n
  {
  }

  /** An edited mapping changed under one key alone is that of a schema that differs under that key alone. */
  lemma ChangedAt(s: Schema, t: Schema, live: Object, ref: Object, key: string, changed: Object)
    requires forall k | k != key :: AgreeOn(s, t, k)
    requires changed - {key} == Edit(s, live, ref) - {key}
    requires key in changed <==> key in Edit(t, live, ref)
    requires key in changed ==> changed[key] == Edit(t, live, ref)[key]
    ensures changed == Edit(t, live, ref)
  {
    forall k
      ensures (k in changed <==> k in Edit(t, live, ref)) && (k in changed ==> changed[k] == Edit(t, live, ref)[k])
    {
      if k != key {
        SameAt(s, t, live, ref, k);
        assert k in changed <==> k in changed - {key};
        assert k in Edit(s, live, ref) <==> k in Edit(s, live, ref) - {key};
        assert k in changed ==> changed[k] == (changed - {key})[k];
      }
    }
    SameMaps(changed, Edit(t, live, ref));
  }

  /** The schema does not look below a key yet. */
  predicate Leaves(s: Schema, key: string) {
    key !in s.objects && key !in s.guarded && key !in s.items && key !in s.dropsEmptied && !s.restores
  }

  /** Such a key stays with its value exactly unless that is a default or granted. */
  lemma LeftAsIs(s: Schema, live: Object, ref: Object, key: string)
    requires Leaves(s, key)
    ensures key in Edit(s, live, ref) <==>
      key in live && (key in ref || !(InTable(TableOf(s, ref), key, live[key]) || key in s.granted))
    ensures key in Edit(s, live, ref) ==> Edit(s, live, ref)[key] == live[key]
  {
  }

  /** A schema that looks below the key takes the same away there, and edits what stays. */
  lemma LookedBelow(t: Schema, live: Object, ref: Object, key: string)
    requires key !in t.dropsEmptied && !t.restores
    ensures key in Edit(t, live, ref) <==>
      key in live && (key in ref || !(InTable(TableOf(t, ref), key, live[key]) || key in t.granted))
    ensures key in Edit(t, live, ref) ==> Edit(t, live, ref)[key] == EditValue(t, live[key], ref, key)
  {
  }

  lemma ObjectAdds(s: Schema, key: string, below: Schema, live: Object, ref: Object, edit: Object -> Object)
    requires Leaves(s, key) && forall o: Object :: edit(o) == Edit(below, o, ObjectAt(ref, key))
    ensures OnObject(Edit(s, live, ref), key, edit) == Edit(s.(objects := s.objects[key := below]), live, ref)
  {
    var t := s.(objects := s.objects[key := below]);
    LeftAsIs(s, live, ref, key);
    LookedBelow(t, live, ref, key);
    ChangedAt(s, t, live, ref, key, OnObject(Edit(s, live, ref), key, edit));
  }

  lemma GuardedAdds(s: Schema, key: string, below: Schema, live: Object, ref: Object, edit: Object -> Object)
    requires Leaves(s, key) && HasObject(ref, key)
    requires forall o: Object :: edit(o) == Edit(below, o, ref[key].entries)
    ensures OnObject(Edit(s, live, ref), key, edit) == Edit(s.(guarded := s.guarded[key := below]), live, ref)
  {
    var t := s.(guarded := s.guarded[key := below]);
    LeftAsIs(s, live, ref, key);
    LookedBelow(t, live, ref, key);
    ChangedAt(s, t, live, ref, key, OnObject(Edit(s, live, ref), key, edit));
  }

  lemma GuardAddsNothing(s: Schema, key: string, below: Schema, live: Object, ref: Object)
    requires Leaves(s, key) && !HasObject(ref, key)
    ensures Edit(s, live, ref) == Edit(s.(guarded := s.guarded[key := below]), live, ref)
  {
    var t := s.(guarded := s.guarded[key := below]);
    LeftAsIs(s, live, ref, key);
    LookedBelow(t, live, ref, key);
    ChangedAt(s, t, live, ref, key, Edit(s, live, ref));
  }

  lemma ItemsAdd(s: Schema, key: string, below: Schema, live: Object, ref: Object, edit: (Object, Object) -> Object)
    requires Leaves(s, key) && forall o: Object, d: Object :: edit(o, d) == Edit(below, o, d)
    ensures OnMatched(Edit(s, live, ref), ref, key, edit) == Edit(s.(items := s.items[key := below]), live, ref)
  {
    var t := s.(items := s.items[key := below]);
    LeftAsIs(s, live, ref, key);
    LookedBelow(t, live, ref, key);
    OnMatchedEdits(Edit(s, live, ref), ref, key, edit, below);
    ChangedAt(s, t, live, ref, key, OnMatched(Edit(s, live, ref), ref, key, edit));
  }

  /** Dropping a mapping that editing has emptied. */
  lemma EmptiedDrops(s: Schema, key: string, live: Object, ref: Object)
    requires key !in s.dropsEmptied && key !in s.guarded && !s.restores
    ensures DropEmptied(Edit(s, live, ref), ref, key) == Edit(s.(dropsEmptied := s.dropsEmptied + {key}), live, ref)
  {
    var t := s.(dropsEmptied := s.dropsEmptied + {key});
    LookedBelow(s, live, ref, key);
    EmptiedAt(s, key, live, ref);
    ChangedAt(s, t, live, ref, key, DropEmptied(Edit(s, live, ref), ref, key));
  }

  lemma EmptiedAt(s: Schema, key: string, live: Object, ref: Object)
    requires key !in s.dropsEmptied && key !in s.guarded && !s.restores
    ensures
      var t, left := s.(dropsEmptied := s.dropsEmptied + {key}), Edit(s, live, ref);
      && (key in Edit(t, live, ref) <==> key in left && (key in ref || left[key] != Map(map[])))
      && (key in Edit(t, live, ref) ==> Edit(t, live, ref)[key] == left[key])
  {
    var t := s.(dropsEmptied := s.dropsEmptied + {key});
    if key in live {
      assert EditValue(s, live[key], ref, key) == EditValue(t, live[key], ref, key);
      if key !in ref && live[key].Map? && key in s.objects { EditEmpties(s.objects[key], live[key].entries, map[]); }
    }
  }

  // ---------------------------------------------------------------- the normalisers edit by their schemas

  lemma ProbeEdits(live: Object, ref: Object)
    ensures NormaliseProbe(live, ref) == Edit(PROBE, live, ref)
  {
    var edit := (http: Object) => DropDefaults(http, ObjectAt(ref, "httpGet"), HTTP_DEFAULTS);
    OnlyDropsDefaults(PROBE_DEFAULTS, live, ref);
    forall o: Object ensures edit(o) == Edit(Only(HTTP_DEFAULTS), o, ObjectAt(ref, "httpGet")) {
      OnlyDropsDefaults(HTTP_DEFAULTS, o, ObjectAt(ref, "httpGet"));
    }
    ObjectAdds(Only(PROBE_DEFAULTS), "httpGet", Only(HTTP_DEFAULTS), live, ref, edit);
    assert map[]["httpGet" := Only(HTTP_DEFAULTS)] == PROBE.objects;
  }

  lemma EnvironmentItemEdits(live: Object, ref: Object)
    ensures RestoreEmptyValue(live, ref) == Edit(ENVIRONMENT, live, ref)
  {
    forall k | k in live ensures !TakenAway(ENVIRONMENT, live, ref, k) {}
    SameMaps(RestoreEmptyValue(live, ref), Edit(ENVIRONMENT, live, ref));
  }

  /** Without a desired list there is nothing to restore. */
  lemma EnvironmentEdits(s: Schema, live: Object, ref: Object)
    requires Leaves(s, "env")
    ensures NormaliseEnvironment(Edit(s, live, ref), ref) == Edit(s.(items := s.items["env" := ENVIRONMENT]), live, ref)
  {
    var m := Edit(s, live, ref);
    forall o: Object, d: Object ensures RestoreEmptyValue(o, d) == Edit(ENVIRONMENT, o, d) {
      EnvironmentItemEdits(o, d);
    }
    ItemsAdd(s, "env", ENVIRONMENT, live, ref, RestoreEmptyValue);
    if !("env" in ref && ref["env"].List?) && "env" in m && m["env"].List? {
      var xs, ys := m["env"].items, OnMatched(m, ref, "env", RestoreEmptyValue)["env"].items;
      forall i | 0 <= i < |xs| ensures ys[i] == xs[i] {}
      assert xs == ys;
    }
  }

  lemma ProbeAtEdits(s: Schema, key: string, live: Object, ref: Object)
    requires Leaves(s, key)
    ensures NormaliseProbeAt(Edit(s, live, ref), ref, key) == Edit(s.(guarded := s.guarded[key := PROBE]), live, ref)
  {
    if HasObject(ref, key) {
      var edit := (probe: Object) => NormaliseProbe(probe, ref[key].entries);
      forall o: Object ensures edit(o) == Edit(PROBE, o, ref[key].entries) { ProbeEdits(o, ref[key].entries); }
      GuardedAdds(s, key, PROBE, live, ref, edit);
    } else {
      GuardAddsNothing(s, key, PROBE, live, ref);
    }
  }

  lemma ContainerDefaultsEdit(live: Object, ref: Object)
    ensures
      DropDefaults(DropDefaults(live, ref, CONTAINER_DEFAULTS), ref, PullPolicyTable(ref)) ==
      Edit(Only(CONTAINER_DEFAULTS).(pullPolicy := true), live, ref)
  {
    var first := DropDefaults(live, ref, CONTAINER_DEFAULTS);
    var s := Only(CONTAINER_DEFAULTS).(pullPolicy := true);
    forall k
      ensures k in DropDefaults(first, ref, PullPolicyTable(ref)) <==> k in Edit(s, live, ref)
      ensures k in Edit(s, live, ref) ==> DropDefaults(first, ref, PullPolicyTable(ref))[k] == Edit(s, live, ref)[k]
    {
      DropDefaultsExact(live, ref, CONTAINER_DEFAULTS, k);
      DropDefaultsExact(first, ref, PullPolicyTable(ref), k);
      if k in live { InEitherTable(CONTAINER_DEFAULTS, PullPolicyTable(ref), k, live[k]); }
    }
    SameMaps(DropDefaults(first, ref, PullPolicyTable(ref)), Edit(s, live, ref));
  }

  lemma InEitherTable(a: Table, b: Table, key: string, value: Tree)
    ensures InTable(a + b, key, value) <==> InTable(a, key, value) || InTable(b, key, value)
  {
    if InTable(a, key, value) {
      var i :| 0 <= i < |a| && a[i] == (key, value);
      assert (a + b)[i] == (key, value);
    }
    if InTable(b, key, value) {
      var i :| 0 <= i < |b| && b[i] == (key, value);
      assert (a + b)[|a| + i] == (key, value);
    }
  }

  lemma ContainerEdits(live: Object, ref: Object)
    ensures NormaliseContainer(live, ref) == Edit(CONTAINER, live, ref)
  {
    var a := Only(CONTAINER_DEFAULTS).(pullPolicy := true);
    var b := a.(items := a.items["env" := ENVIRONMENT]);
    var c := b.(guarded := b.guarded["startupProbe" := PROBE]);
    var d := c.(guarded := c.guarded["readinessProbe" := PROBE]);
    var e := d.(guarded := d.guarded["livenessProbe" := PROBE]);
    ContainerDefaultsEdit(live, ref);
    EnvironmentEdits(a, live, ref);
    ProbeAtEdits(b, "startupProbe", live, ref);
    ProbeAtEdits(c, "readinessProbe", live, ref);
    ProbeAtEdits(d, "livenessProbe", live, ref);
    forall o: Object, r: Object ensures NormaliseContainerPort(o, r) == Edit(Only(CONTAINER_PORT_DEFAULTS), o, r) {
      OnlyDropsDefaults(CONTAINER_PORT_DEFAULTS, o, r);
    }
    ItemsAdd(e, "ports", Only(CONTAINER_PORT_DEFAULTS), live, ref, NormaliseContainerPort);
    assert e.guarded == CONTAINER.guarded && e.items["ports" := Only(CONTAINER_PORT_DEFAULTS)] == CONTAINER.items;
  }

  lemma DefaultsAtEdit(s: Schema, key: string, table: Table, live: Object, ref: Object)
    requires Leaves(s, key)
    ensures DropDefaultsAt(Edit(s, live, ref), ref, key, table) ==
      Edit(s.(objects := s.objects[key := Only(table)]), live, ref)
  {
    var edit := (o: Object) => DropDefaults(o, ObjectAt(ref, key), table);
    forall o: Object ensures edit(o) == Edit(Only(table), o, ObjectAt(ref, key)) {
      OnlyDropsDefaults(table, o, ObjectAt(ref, key));
    }
    ObjectAdds(s, key, Only(table), live, ref, edit);
  }

  lemma NothingEdits(live: Object, ref: Object)
    ensures Edit(NOTHING, live, ref) == live
  {
    SameMaps(Edit(NOTHING, live, ref), live);
  }

  lemma VolumeEdits(live: Object, ref: Object)
    ensures NormaliseVolume(live, ref) == Edit(VOLUME, live, ref)
  {
    var a := NOTHING.(objects := NOTHING.objects["persistentVolumeClaim" := Only(CLAIM_SOURCE_DEFAULTS)]);
    var b := a.(objects := a.objects["configMap" := Only(FILE_SOURCE_DEFAULTS)]);
    var c := b.(objects := b.objects["secret" := Only(FILE_SOURCE_DEFAULTS)]);
    NothingEdits(live, ref);
    DefaultsAtEdit(NOTHING, "persistentVolumeClaim", CLAIM_SOURCE_DEFAULTS, live, ref);
    DefaultsAtEdit(a, "configMap", FILE_SOURCE_DEFAULTS, live, ref);
    DefaultsAtEdit(b, "secret", FILE_SOURCE_DEFAULTS, live, ref);
    DefaultsAtEdit(c, "projected", FILE_SOURCE_DEFAULTS, live, ref);
    assert c.objects["projected" := Only(FILE_SOURCE_DEFAULTS)] == VOLUME.objects;
  }

  lemma PodEdits(live: Object, ref: Object)
    ensures NormalisePodSpec(live, ref) == Edit(POD, live, ref)
  {
    var a := Only(POD_DEFAULTS);
    var b := a.(items := a.items["containers" := CONTAINER]);
    var c := b.(items := b.items["initContainers" := CONTAINER]);
    OnlyDropsDefaults(POD_DEFAULTS, live, ref);
    forall o: Object, d: Object ensures NormaliseContainer(o, d) == Edit(CONTAINER, o, d) { ContainerEdits(o, d); }
    forall o: Object, d: Object ensures NormaliseVolume(o, d) == Edit(VOLUME, o, d) { VolumeEdits(o, d); }
    ItemsAdd(a, "containers", CONTAINER, live, ref, NormaliseContainer);
    ItemsAdd(b, "initContainers", CONTAINER, live, ref, NormaliseContainer);
    ItemsAdd(c, "volumes", VOLUME, live, ref, NormaliseVolume);
    assert c.items["volumes" := VOLUME] == POD.items;
  }

  lemma TemplateEdits(live: Object, ref: Object)
    ensures NormalisePodTemplate(live, ref) == Edit(TEMPLATE, live, ref)
  {
    var a := NOTHING.(objects := NOTHING.objects["metadata" := Only(TEMPLATE_METADATA_DEFAULTS)]);
    var edit := (spec: Object) => NormalisePodSpec(spec, ObjectAt(ref, "spec"));
    NothingEdits(live, ref);
    DefaultsAtEdit(NOTHING, "metadata", TEMPLATE_METADATA_DEFAULTS, live, ref);
    forall o: Object ensures edit(o) == Edit(POD, o, ObjectAt(ref, "spec")) { PodEdits(o, ObjectAt(ref, "spec")); }
    ObjectAdds(a, "spec", POD, live, ref, edit);
    assert a.objects["spec" := POD] == TEMPLATE.objects;
  }
}
