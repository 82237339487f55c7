/**
 * The per-kind normalisation of a live resource against the desired one: server-filled defaults and
 * server-allocated values that the desired resource leaves out are taken away before the two are
 * compared. Each function here is followed by what it may take away; the tables are the ones it uses.
 */
module ReleaseNormalisation {
  import opened Common
  import opened ReleaseTrees
  import opened ReleasePaths

  type Object = map<string, Tree>

  type Table = seq<(string, Tree)>

  // ---------------------------------------------------------------- edits and what they keep

  /** `after` is `before` with nothing solid removed but exempted values, and nothing solid added. */
  ghost predicate Trims(before: Tree, after: Tree, exempt: set<Exemption>) {
    Keeps(before, after, exempt) && Keeps(after, before, {})
  }

  lemma TrimsThen(a: Tree, b: Tree, c: Tree, first: set<Exemption>, second: set<Exemption>)
    requires Trims(a, b, first) && Trims(b, c, second)
    ensures Trims(a, c, first + second)
  {
    KeepsWithMore(a, b, first, first + second);
    KeepsWithMore(b, c, second, first + second);
    KeepsTransitive(a, b, c, first + second);
    KeepsTransitive(c, b, a, {});
  }

  function DropDefault(live: Object, desired: Object, key: string, value: Tree): Object {
    if key in live && key !in desired && live[key] == value then live - {key} else live
  }

  function DropDefaults(live: Object, desired: Object, table: Table): Object {
    if table == [] then live
    else DropDefaults(DropDefault(live, desired, table[0].0, table[0].1), desired, table[1..])
  }

  function DropAllocated(live: Object, desired: Object, keys: set<string>): Object {
    live - (keys - desired.Keys)
  }

  function Defaults(table: Table): set<Exemption> {
    set i | 0 <= i < |table| :: Exemption([InKey(table[i].0)], Some(table[i].1))
  }

  function Allocated(keys: set<string>): set<Exemption> {
    set k | k in keys :: Exemption([InKey(k)], None)
  }

  predicate ScalarTable(table: Table) { forall i | 0 <= i < |table| :: !table[i].1.Map? && !table[i].1.List? }

  lemma {:induction false} DropDefaultsEffect(live: Object, desired: Object, table: Table)
    ensures
      var left := DropDefaults(live, desired, table);
      && (forall k | k in left :: k in live && left[k] == live[k])
      && (forall k | k in live && k !in left ::
            k !in desired && Exemption([InKey(k)], Some(live[k])) in Defaults(table))
  {
    if table != [] {
      var first := DropDefault(live, desired, table[0].0, table[0].1);
      DropDefaultsEffect(first, desired, table[1..]);
      var left := DropDefaults(live, desired, table);
      forall k | k in live && k !in left
        ensures k !in desired && Exemption([InKey(k)], Some(live[k])) in Defaults(table)
      {
        if k in first {
          var i :| 0 <= i < |table[1..]|
            && Exemption([InKey(k)], Some(live[k])) == Exemption([InKey(table[1..][i].0)], Some(table[1..][i].1));
          assert table[i + 1] == table[1..][i];
        } else {
          assert Exemption([InKey(table[0].0)], Some(table[0].1)) in Defaults(table);
        }
      }
    }
  }

  lemma DropDefaultsTrims(live: Object, desired: Object, table: Table)
    requires ScalarTable(table)
    ensures Trims(Map(live), Map(DropDefaults(live, desired, table)), Defaults(table))
  {
    DropDefaultsEffect(live, desired, table);
    var left := DropDefaults(live, desired, table);
    forall k | k in live ensures KeyAccounted(live, left, k, Defaults(table)) {
      if k !in left {
        var i :| 0 <= i < |table|
          && Exemption([InKey(k)], Some(live[k])) == Exemption([InKey(table[i].0)], Some(table[i].1));
      }
    }
    KeepsMapping(live, left, Defaults(table));
    KeepsMapping(left, live, {});
  }

  lemma DropAllocatedTrims(live: Object, desired: Object, keys: set<string>)
    ensures Trims(Map(live), Map(DropAllocated(live, desired, keys)), Allocated(keys))
  {
    var left := DropAllocated(live, desired, keys);
    assert forall k | k in live :: KeyAccounted(live, left, k, Allocated(keys));
    KeepsMapping(live, left, Allocated(keys));
    KeepsMapping(left, live, {});
  }

  /** The mapping under a key, or an empty one: the script's fallback when either side has no mapping. */
  function ObjectAt(o: Object, key: string): Object {
    if key in o then Entries(o[key]) else map[]
  }

  predicate HasObject(o: Object, key: string) { key in o && o[key].Map? }

  /** Edit the mapping under a key, if there is one. */
  function OnObject(live: Object, key: string, edit: Object -> Object): Object {
    if HasObject(live, key) then live[key := Map(edit(live[key].entries))] else live
  }

  /** Edit every mapping in the list under a key, if there is one. */
  function OnItems(live: Object, key: string, edit: Object -> Object): Object {
    if key in live && live[key].List? then live[key := List(EditItems(live[key].items, edit))] else live
  }

  function EditItems(items: seq<Tree>, edit: Object -> Object): (r: seq<Tree>)
    ensures |r| == |items|
    ensures forall i | 0 <= i < |items| :: r[i] == if items[i].Map? then Map(edit(items[i].entries)) else items[i]
  {
    seq(|items|, i requires 0 <= i < |items| => if items[i].Map? then Map(edit(items[i].entries)) else items[i])
  }

  ghost predicate EditTrims(edit: Object -> Object, exempt: set<Exemption>) {
    forall o: Object :: Trims(Map(o), Map(edit(o)), exempt)
  }

  lemma KeyReplaced(live: Object, key: string, value: Tree, exempt: set<Exemption>)
    requires key in live && Trims(live[key], value, exempt)
    ensures Trims(Map(live), Map(live[key := value]), Under(InKey(key), exempt))
  {
    var left := live[key := value];
    KeepsReplaced(live, key, value, exempt);
    KeepsReplaced(left, key, live[key], {});
    assert left[key := live[key]] == live && Under(InKey(key), {}) == {};
  }

  lemma TrimsItself(a: Tree, exempt: set<Exemption>)
    ensures Trims(a, a, exempt)
  {
    KeepsItself(a, exempt);
  }

  lemma OnObjectTrims(live: Object, key: string, edit: Object -> Object, exempt: set<Exemption>)
    requires HasObject(live, key) ==> Trims(live[key], Map(edit(live[key].entries)), exempt)
    ensures Trims(Map(live), Map(OnObject(live, key, edit)), Under(InKey(key), exempt))
  {
    if HasObject(live, key) { KeyReplaced(live, key, Map(edit(live[key].entries)), exempt); }
  }

  lemma OnItemsTrims(live: Object, key: string, edit: Object -> Object, exempt: set<Exemption>)
    requires EditTrims(edit, exempt)
    ensures Trims(Map(live), Map(OnItems(live, key, edit)), Under(InKey(key), Under(InAnyItem, exempt)))
  {
    if key in live && live[key].List? {
      var xs := live[key].items;
      var ys := EditItems(xs, edit);
      forall i | 0 <= i < |xs| ensures Trims(xs[i], ys[i], exempt) {
        if xs[i].Map? { assert Trims(Map(xs[i].entries), Map(edit(xs[i].entries)), exempt); }
      }
      KeepsItems(xs, ys, exempt);
      KeepsItems(ys, xs, {});
      assert Under(InAnyItem, {}) == {};
      KeyReplaced(live, key, List(ys), Under(InAnyItem, exempt));
    }
  }

  // ---------------------------------------------------------------- finding the desired counterpart

  function NamedItems(items: seq<Tree>, name: string): seq<Object> {
    if items == [] then []
    else
      (if items[0].Map? && "name" in items[0].entries && items[0].entries["name"] == Str(name) then [items[0].entries]
       else [])
      + NamedItems(items[1..], name)
  }

  /** The one item of the desired list that carries the live item's name; an empty object if the list
      is none, the name is no text, or the item is missing or ambiguous. */
  function MatchingItem(desired: Object, key: string, live: Object): Object {
    if key in desired && desired[key].List? && "name" in live && live["name"].Str? then
      var matches := NamedItems(desired[key].items, live["name"].text);
      if |matches| == 1 then matches[0] else map[]
    else map[]
  }

  /** Edit every mapping in a list against the desired item of the same name. */
  function OnMatched(live: Object, desired: Object, key: string, edit: (Object, Object) -> Object): Object {
    OnItems(live, key, (item: Object) => edit(item, MatchingItem(desired, key, item)))
  }

  function Each(key: string, exempt: set<Exemption>): set<Exemption> { Under(InKey(key), Under(InAnyItem, exempt)) }

  lemma OnMatchedTrims(
    live: Object, desired: Object, key: string, edit: (Object, Object) -> Object, exempt: set<Exemption>)
    requires forall o: Object, d: Object :: Trims(Map(o), Map(edit(o, d)), exempt)
    ensures Trims(Map(live), Map(OnMatched(live, desired, key, edit)), Each(key, exempt))
  {
    var each := (item: Object) => edit(item, MatchingItem(desired, key, item));
    forall o: Object ensures Trims(Map(o), Map(each(o)), exempt) {
      assert each(o) == edit(o, MatchingItem(desired, key, o));
    }
    OnItemsTrims(live, key, each, exempt);
  }

  lemma TrimsChain(
    a: Tree, b: Tree, c: Tree, d: Tree, e: Tree, s: set<Exemption>, t: set<Exemption>, u: set<Exemption>,
    v: set<Exemption>)
    requires Trims(a, b, s) && Trims(b, c, t) && Trims(c, d, u) && Trims(d, e, v)
    ensures Trims(a, e, s + t + u + v)
  {
    TrimsThen(a, b, c, s, t);
    TrimsThen(a, c, d, s + t, u);
    TrimsThen(a, d, e, s + t + u, v);
  }

  // ---------------------------------------------------------------- containers and pods

  const PROBE_DEFAULTS: Table := [
    ("initialDelaySeconds", Num(0.0)), ("timeoutSeconds", Num(1.0)), ("periodSeconds", Num(10.0)),
    ("successThreshold", Num(1.0)), ("failureThreshold", Num(3.0))]

  const HTTP_DEFAULTS: Table := [("scheme", Str("HTTP"))]

  function NormaliseProbe(live: Object, desired: Object): Object {
    OnObject(DropDefaults(live, desired, PROBE_DEFAULTS), "httpGet",
             (http: Object) => DropDefaults(http, ObjectAt(desired, "httpGet"), HTTP_DEFAULTS))
  }

  function ProbeExemptions(): set<Exemption> {
    Defaults(PROBE_DEFAULTS) + Under(InKey("httpGet"), Defaults(HTTP_DEFAULTS))
  }

  lemma ProbeTrims(live: Object, desired: Object)
    ensures Trims(Map(live), Map(NormaliseProbe(live, desired)), ProbeExemptions())
  {
    var dropped := DropDefaults(live, desired, PROBE_DEFAULTS);
    DropDefaultsTrims(live, desired, PROBE_DEFAULTS);
    if HasObject(dropped, "httpGet") {
      DropDefaultsTrims(dropped["httpGet"].entries, ObjectAt(desired, "httpGet"), HTTP_DEFAULTS);
    }
    var edit := (http: Object) => DropDefaults(http, ObjectAt(desired, "httpGet"), HTTP_DEFAULTS);
    OnObjectTrims(dropped, "httpGet", edit, Defaults(HTTP_DEFAULTS));
    TrimsThen(Map(live), Map(dropped), Map(NormaliseProbe(live, desired)), Defaults(PROBE_DEFAULTS),
        Under(InKey("httpGet"), Defaults(HTTP_DEFAULTS)));
  }

  /** The part of an image reference after its last slash. */
  function LastComponent(image: string): string
    decreases |image|
  {
    if image == "" || image[|image| - 1] == '/' then ""
    else LastComponent(image[..|image| - 1]) + [image[|image| - 1]]
  }

  function DefaultPullPolicy(container: Object): Option<Tree> {
    if "image" !in container || !container["image"].Str? || container["image"].text == "" then None
    else
      var last := LastComponent(container["image"].text);
      if ':' !in last || (|last| >= 7 && last[|last| - 7..] == ":latest") then Some(Str("Always"))
      else Some(Str("IfNotPresent"))
  }

  function PullPolicyTable(desired: Object): Table {
    if DefaultPullPolicy(desired).Some? then [("imagePullPolicy", DefaultPullPolicy(desired).value)] else []
  }

  const CONTAINER_DEFAULTS: Table := [
    ("terminationMessagePath", Str("/dev/termination-log")), ("terminationMessagePolicy", Str("File"))]

  const CONTAINER_PORT_DEFAULTS: Table := [("protocol", Str("TCP")), ("hostPort", Num(0.0))]

  /** An environment value that was explicitly empty may be missing from the live item. */
  function RestoreEmptyValue(live: Object, desired: Object): Object {
    if "value" in desired && desired["value"] == Str("") && "value" !in live && "valueFrom" !in live
    then live["value" := Str("")] else live
  }

  function NormaliseEnvironment(live: Object, desired: Object): Object {
    if "env" in desired && desired["env"].List?
    then OnMatched(live, desired, "env", RestoreEmptyValue)
    else live
  }

  function NormaliseProbeAt(live: Object, desired: Object, key: string): Object {
    if HasObject(desired, key) then OnObject(live, key, (probe: Object) => NormaliseProbe(probe, desired[key].entries))
    else live
  }

  function NormaliseContainer(live: Object, desired: Object): Object {
    var basics := DropDefaults(DropDefaults(live, desired, CONTAINER_DEFAULTS), desired, PullPolicyTable(desired));
    var env := NormaliseEnvironment(basics, desired);
    OnMatched(NormaliseProbes(env, desired), desired, "ports", NormaliseContainerPort)
  }

  function NormaliseProbes(live: Object, desired: Object): Object {
    NormaliseProbeAt(NormaliseProbeAt(NormaliseProbeAt(live, desired, "startupProbe"), desired, "readinessProbe"),
        desired, "livenessProbe")
  }

  function NormaliseContainerPort(live: Object, desired: Object): Object {
    DropDefaults(live, desired, CONTAINER_PORT_DEFAULTS)
  }

  const PULL_POLICIES: Table := [("imagePullPolicy", Str("Always")), ("imagePullPolicy", Str("IfNotPresent"))]

  function ContainerExemptions(): set<Exemption> {
    Defaults(CONTAINER_DEFAULTS) + Defaults(PULL_POLICIES) + ProbesExemptions()
    + Each("ports", Defaults(CONTAINER_PORT_DEFAULTS))
  }

  function ProbesExemptions(): set<Exemption> {
    Under(InKey("startupProbe"), ProbeExemptions())
    + Under(InKey("readinessProbe"), ProbeExemptions())
    + Under(InKey("livenessProbe"), ProbeExemptions())
  }

  lemma RestoreTrims(live: Object, desired: Object)
    ensures Trims(Map(live), Map(RestoreEmptyValue(live, desired)), {})
  {
    var r := RestoreEmptyValue(live, desired);
    assert forall k | k in live :: KeyAccounted(live, r, k, {});
    KeepsMapping(live, r, {});
    forall p: Path | SolidAt(Map(r), p) ensures At(Map(live), p) == At(Map(r), p) {
      if p[0].name !in live { EmptyTextIsNotSolid(p[1..]); }
    }
  }

  lemma EnvironmentTrims(live: Object, desired: Object)
    ensures Trims(Map(live), Map(NormaliseEnvironment(live, desired)), {})
  {
    if "env" in desired && desired["env"].List? {
      forall o: Object, d: Object ensures Trims(Map(o), Map(RestoreEmptyValue(o, d)), {}) { RestoreTrims(o, d); }
      OnMatchedTrims(live, desired, "env", RestoreEmptyValue, {});
      assert Under(InAnyItem, {}) == {} && Under(InKey("env"), {}) == {};
    } else {
      TrimsItself(Map(live), {});
    }
  }

  lemma EmptyTextIsNotSolid(p: Path)
    ensures !SolidAt(Str(""), p)
  {
  }

  lemma ProbeAtTrims(live: Object, desired: Object, key: string)
    ensures Trims(Map(live), Map(NormaliseProbeAt(live, desired, key)), Under(InKey(key), ProbeExemptions()))
  {
    if HasObject(desired, key) {
      if HasObject(live, key) { ProbeTrims(live[key].entries, desired[key].entries); }
      OnObjectTrims(live, key, (probe: Object) => NormaliseProbe(probe, desired[key].entries), ProbeExemptions());
    }
  }

  lemma PullPolicyTrims(live: Object, desired: Object)
    ensures Trims(Map(live), Map(DropDefaults(live, desired, PullPolicyTable(desired))), Defaults(PULL_POLICIES))
  {
    var table := PullPolicyTable(desired);
    DropDefaultsTrims(live, desired, table);
    assert PULL_POLICIES[0] == ("imagePullPolicy", Str("Always"))
      && PULL_POLICIES[1] == ("imagePullPolicy", Str("IfNotPresent"));
    assert Defaults(table) <= Defaults(PULL_POLICIES) by {
      forall e | e in Defaults(table) ensures e in Defaults(PULL_POLICIES) {
        var j := if table[0].1 == Str("Always") then 0 else 1;
        assert e == Exemption([InKey(PULL_POLICIES[j].0)], Some(PULL_POLICIES[j].1));
      }
    }
    KeepsWithMore(Map(live), Map(DropDefaults(live, desired, table)), Defaults(table), Defaults(PULL_POLICIES));
  }

  lemma ProbesTrim(live: Object, desired: Object)
    ensures Trims(Map(live), Map(NormaliseProbes(live, desired)), ProbesExemptions())
  {
    var a := NormaliseProbeAt(live, desired, "startupProbe");
    var b := NormaliseProbeAt(a, desired, "readinessProbe");
    var t, u := Under(InKey("startupProbe"), ProbeExemptions()), Under(InKey("readinessProbe"), ProbeExemptions());
    ProbeAtTrims(live, desired, "startupProbe");
    ProbeAtTrims(a, desired, "readinessProbe");
    ProbeAtTrims(b, desired, "livenessProbe");
    TrimsThen(Map(live), Map(a), Map(b), t, u);
    TrimsThen(Map(live), Map(b), Map(NormaliseProbes(live, desired)), t + u,
        Under(InKey("livenessProbe"), ProbeExemptions()));
  }

  lemma ContainerPortsTrim(live: Object, desired: Object)
    ensures Trims(Map(live), Map(OnMatched(live, desired, "ports", NormaliseContainerPort)),
      Each("ports", Defaults(CONTAINER_PORT_DEFAULTS)))
  {
    forall o: Object, d: Object
      ensures Trims(Map(o), Map(NormaliseContainerPort(o, d)), Defaults(CONTAINER_PORT_DEFAULTS))
    {
      DropDefaultsTrims(o, d, CONTAINER_PORT_DEFAULTS);
    }
    OnMatchedTrims(live, desired, "ports", NormaliseContainerPort, Defaults(CONTAINER_PORT_DEFAULTS));
  }

  lemma ContainerTrims(live: Object, desired: Object)
    ensures Trims(Map(live), Map(NormaliseContainer(live, desired)), ContainerExemptions())
  {
    var a := DropDefaults(live, desired, CONTAINER_DEFAULTS);
    var b := DropDefaults(a, desired, PullPolicyTable(desired));
    var c := NormaliseEnvironment(b, desired);
    var d := NormaliseProbes(c, desired);
    DropDefaultsTrims(live, desired, CONTAINER_DEFAULTS);
    PullPolicyTrims(a, desired);
    EnvironmentTrims(b, desired);
    KeepsTransitive(Map(a), Map(b), Map(c), Defaults(PULL_POLICIES));
    KeepsTransitive(Map(c), Map(b), Map(a), {});
    ProbesTrim(c, desired);
    ContainerPortsTrim(d, desired);
    TrimsChain(Map(live), Map(a), Map(c), Map(d), Map(NormaliseContainer(live, desired)), Defaults(CONTAINER_DEFAULTS),
               Defaults(PULL_POLICIES), ProbesExemptions(), Each("ports", Defaults(CONTAINER_PORT_DEFAULTS)));
  }

  const POD_DEFAULTS: Table := [
    ("dnsPolicy", Str("ClusterFirst")), ("enableServiceLinks", TRUE), ("restartPolicy", Str("Always")),
    ("schedulerName", Str("default-scheduler")), ("terminationGracePeriodSeconds", Num(30.0)),
    ("serviceAccount", Str("default")), ("serviceAccountName", Str("default"))]

  const CLAIM_SOURCE_DEFAULTS: Table := [("readOnly", FALSE)]

  const FILE_SOURCE_DEFAULTS: Table := [("defaultMode", Num(420.0))]

  function DropDefaultsAt(live: Object, desired: Object, key: string, table: Table): Object {
    OnObject(live, key, (o: Object) => DropDefaults(o, ObjectAt(desired, key), table))
  }

  lemma DropDefaultsAtTrims(live: Object, desired: Object, key: string, table: Table)
    requires ScalarTable(table)
    ensures Trims(Map(live), Map(DropDefaultsAt(live, desired, key, table)), Under(InKey(key), Defaults(table)))
  {
    if HasObject(live, key) { DropDefaultsTrims(live[key].entries, ObjectAt(desired, key), table); }
    OnObjectTrims(live, key, (o: Object) => DropDefaults(o, ObjectAt(desired, key), table), Defaults(table));
  }

  function NormaliseVolume(live: Object, desired: Object): Object {
    var claim := DropDefaultsAt(live, desired, "persistentVolumeClaim", CLAIM_SOURCE_DEFAULTS);
    var config := DropDefaultsAt(claim, desired, "configMap", FILE_SOURCE_DEFAULTS);
    var secret := DropDefaultsAt(config, desired, "secret", FILE_SOURCE_DEFAULTS);
    DropDefaultsAt(secret, desired, "projected", FILE_SOURCE_DEFAULTS)
  }

  function VolumeExemptions(): set<Exemption> {
    Under(InKey("persistentVolumeClaim"), Defaults(CLAIM_SOURCE_DEFAULTS))
    + Under(InKey("configMap"), Defaults(FILE_SOURCE_DEFAULTS))
    + Under(InKey("secret"), Defaults(FILE_SOURCE_DEFAULTS))
    + Under(InKey("projected"), Defaults(FILE_SOURCE_DEFAULTS))
  }

  lemma VolumeTrims(live: Object, desired: Object)
    ensures Trims(Map(live), Map(NormaliseVolume(live, desired)), VolumeExemptions())
  {
    var a := DropDefaultsAt(live, desired, "persistentVolumeClaim", CLAIM_SOURCE_DEFAULTS);
    var b := DropDefaultsAt(a, desired, "configMap", FILE_SOURCE_DEFAULTS);
    var c := DropDefaultsAt(b, desired, "secret", FILE_SOURCE_DEFAULTS);
    var files := Defaults(FILE_SOURCE_DEFAULTS);
    DropDefaultsAtTrims(live, desired, "persistentVolumeClaim", CLAIM_SOURCE_DEFAULTS);
    DropDefaultsAtTrims(a, desired, "configMap", FILE_SOURCE_DEFAULTS);
    DropDefaultsAtTrims(b, desired, "secret", FILE_SOURCE_DEFAULTS);
    DropDefaultsAtTrims(c, desired, "projected", FILE_SOURCE_DEFAULTS);
    TrimsChain(Map(live), Map(a), Map(b), Map(c), Map(NormaliseVolume(live, desired)),
               Under(InKey("persistentVolumeClaim"), Defaults(CLAIM_SOURCE_DEFAULTS)),
               Under(InKey("configMap"), files), Under(InKey("secret"), files), Under(InKey("projected"), files));
  }

  function NormalisePodSpec(live: Object, desired: Object): Object {
    var basics := DropDefaults(live, desired, POD_DEFAULTS);
    var containers := OnMatched(basics, desired, "containers", NormaliseContainer);
    var init := OnMatched(containers, desired, "initContainers", NormaliseContainer);
    OnMatched(init, desired, "volumes", NormaliseVolume)
  }

  function PodExemptions(): set<Exemption> {
    Defaults(POD_DEFAULTS) + Each("containers", ContainerExemptions()) + Each("initContainers", ContainerExemptions())
    + Each("volumes", VolumeExemptions())
  }

  lemma ContainersTrim(live: Object, desired: Object, key: string)
    ensures Trims(Map(live), Map(OnMatched(live, desired, key, NormaliseContainer)), Each(key, ContainerExemptions()))
  {
    forall o: Object, d: Object ensures Trims(Map(o), Map(NormaliseContainer(o, d)), ContainerExemptions()) {
      ContainerTrims(o, d);
    }
    OnMatchedTrims(live, desired, key, NormaliseContainer, ContainerExemptions());
  }

  lemma VolumesTrim(live: Object, desired: Object)
    ensures Trims(Map(live), Map(OnMatched(live, desired, "volumes", NormaliseVolume)),
      Each("volumes", VolumeExemptions()))
  {
    forall o: Object, d: Object ensures Trims(Map(o), Map(NormaliseVolume(o, d)), VolumeExemptions()) {
      VolumeTrims(o, d);
    }
    OnMatchedTrims(live, desired, "volumes", NormaliseVolume, VolumeExemptions());
  }

  lemma PodTrims(live: Object, desired: Object)
    ensures Trims(Map(live), Map(NormalisePodSpec(live, desired)), PodExemptions())
  {
    var a := DropDefaults(live, desired, POD_DEFAULTS);
    var b := OnMatched(a, desired, "containers", NormaliseContainer);
    var c := OnMatched(b, desired, "initContainers", NormaliseContainer);
    DropDefaultsTrims(live, desired, POD_DEFAULTS);
    ContainersTrim(a, desired, "containers");
    ContainersTrim(b, desired, "initContainers");
    VolumesTrim(c, desired);
    TrimsChain(Map(live), Map(a), Map(b), Map(c), Map(NormalisePodSpec(live, desired)), Defaults(POD_DEFAULTS),
               Each("containers", ContainerExemptions()), Each("initContainers", ContainerExemptions()),
               Each("volumes", VolumeExemptions()));
  }

  const TEMPLATE_METADATA_DEFAULTS: Table := [("creationTimestamp", Null)]

  function NormalisePodTemplate(live: Object, desired: Object): Object {
    OnObject(DropDefaultsAt(live, desired, "metadata", TEMPLATE_METADATA_DEFAULTS), "spec",
             (spec: Object) => NormalisePodSpec(spec, ObjectAt(desired, "spec")))
  }

  function TemplateExemptions(): set<Exemption> {
    Under(InKey("metadata"), Defaults(TEMPLATE_METADATA_DEFAULTS)) + Under(InKey("spec"), PodExemptions())
  }

  lemma TemplateTrims(live: Object, desired: Object)
    ensures Trims(Map(live), Map(NormalisePodTemplate(live, desired)), TemplateExemptions())
  {
    var a := DropDefaultsAt(live, desired, "metadata", TEMPLATE_METADATA_DEFAULTS);
    DropDefaultsAtTrims(live, desired, "metadata", TEMPLATE_METADATA_DEFAULTS);
    if HasObject(a, "spec") { PodTrims(a["spec"].entries, ObjectAt(desired, "spec")); }
    OnObjectTrims(a, "spec", (spec: Object) => NormalisePodSpec(spec, ObjectAt(desired, "spec")), PodExemptions());
    TrimsThen(Map(live), Map(a), Map(NormalisePodTemplate(live, desired)),
        Under(InKey("metadata"), Defaults(TEMPLATE_METADATA_DEFAULTS)), Under(InKey("spec"), PodExemptions()));
  }
}
