/**
 * The comparison of a live release with the desired one. What the server may fill in is stripped or
 * normalised away first; the theorems say that nothing else is: an accepted live resource holds every
 * explicit desired value, and every live value that is not desired is one of the named exemptions.
 */
module ReleaseComparison {
  import opened Common
  import opened ReleaseTrees
  import opened ReleasePaths
  import opened ReleaseNormalisation

  // ---------------------------------------------------------------- the four kinds

  const SERVICE_ALLOCATED := {"clusterIP", "clusterIPs", "healthCheckNodePort", "ipFamilies"}

  const SERVICE_DEFAULTS: Table := [
    ("allocateLoadBalancerNodePorts", TRUE), ("externalTrafficPolicy", Str("Cluster")),
    ("internalTrafficPolicy", Str("Cluster")), ("ipFamilyPolicy", Str("SingleStack")),
    ("publishNotReadyAddresses", FALSE), ("sessionAffinity", Str("None")), ("type", Str("ClusterIP"))]

  const SERVICE_PORT_DEFAULTS: Table := [("protocol", Str("TCP"))]

  function NormaliseServicePort(live: Object, desired: Object): Object {
    DropAllocated(DropDefaults(live, desired, SERVICE_PORT_DEFAULTS), desired, {"nodePort"})
  }

  function NormaliseServiceSpec(live: Object, desired: Object): Object {
    var basics := DropDefaults(DropAllocated(live, desired, SERVICE_ALLOCATED), desired, SERVICE_DEFAULTS);
    OnMatched(basics, desired, "ports", NormaliseServicePort)
  }

  function ServicePortExemptions(): set<Exemption> { Defaults(SERVICE_PORT_DEFAULTS) + Allocated({"nodePort"}) }

  function ServiceExemptions(): set<Exemption> {
    Allocated(SERVICE_ALLOCATED) + Defaults(SERVICE_DEFAULTS) + Each("ports", ServicePortExemptions())
  }

  lemma ServicePortTrims(live: Object, desired: Object)
    ensures Trims(Map(live), Map(NormaliseServicePort(live, desired)), ServicePortExemptions())
  {
    var a := DropDefaults(live, desired, SERVICE_PORT_DEFAULTS);
    DropDefaultsTrims(live, desired, SERVICE_PORT_DEFAULTS);
    DropAllocatedTrims(a, desired, {"nodePort"});
    TrimsThen(Map(live), Map(a), Map(NormaliseServicePort(live, desired)), Defaults(SERVICE_PORT_DEFAULTS),
        Allocated({"nodePort"}));
  }

  lemma ServiceTrims(live: Object, desired: Object)
    ensures Trims(Map(live), Map(NormaliseServiceSpec(live, desired)), ServiceExemptions())
  {
    var a := DropAllocated(live, desired, SERVICE_ALLOCATED);
    var b := DropDefaults(a, desired, SERVICE_DEFAULTS);
    DropAllocatedTrims(live, desired, SERVICE_ALLOCATED);
    DropDefaultsTrims(a, desired, SERVICE_DEFAULTS);
    TrimsThen(Map(live), Map(a), Map(b), Allocated(SERVICE_ALLOCATED), Defaults(SERVICE_DEFAULTS));
    forall o: Object, d: Object ensures Trims(Map(o), Map(NormaliseServicePort(o, d)), ServicePortExemptions()) {
      ServicePortTrims(o, d);
    }
    OnMatchedTrims(b, desired, "ports", NormaliseServicePort, ServicePortExemptions());
    TrimsThen(Map(live), Map(b), Map(NormaliseServiceSpec(live, desired)),
        Allocated(SERVICE_ALLOCATED) + Defaults(SERVICE_DEFAULTS), Each("ports", ServicePortExemptions()));
  }

  const DEPLOYMENT_DEFAULTS: Table := [
    ("minReadySeconds", Num(0.0)), ("paused", FALSE), ("progressDeadlineSeconds", Num(600.0)),
    ("replicas", Num(1.0)), ("revisionHistoryLimit", Num(10.0))]

  const STRATEGY_DEFAULTS: Table := [("type", Str("RollingUpdate"))]

  const ROLLING_DEFAULTS: Table := [("maxSurge", Str("25%")), ("maxUnavailable", Str("25%"))]

  function NormaliseStrategy(live: Object, desired: Object): Object {
    DropDefaultsAt(DropDefaults(live, desired, STRATEGY_DEFAULTS), desired, "rollingUpdate", ROLLING_DEFAULTS)
  }

  function NormaliseTemplateOf(live: Object, desired: Object): Object {
    OnObject(live, "template", (t: Object) => NormalisePodTemplate(t, ObjectAt(desired, "template")))
  }

  function NormaliseDeploymentSpec(live: Object, desired: Object): Object {
    var basics := DropDefaults(live, desired, DEPLOYMENT_DEFAULTS);
    var strategy := OnObject(basics, "strategy", (s: Object) => NormaliseStrategy(s, ObjectAt(desired, "strategy")));
    NormaliseTemplateOf(strategy, desired)
  }

  function StrategyExemptions(): set<Exemption> {
    Defaults(STRATEGY_DEFAULTS) + Under(InKey("rollingUpdate"), Defaults(ROLLING_DEFAULTS))
  }

  function DeploymentExemptions(): set<Exemption> {
    Defaults(DEPLOYMENT_DEFAULTS) + Under(InKey("strategy"), StrategyExemptions())
      + Under(InKey("template"), TemplateExemptions())
  }

  lemma StrategyTrims(live: Object, desired: Object)
    ensures Trims(Map(live), Map(NormaliseStrategy(live, desired)), StrategyExemptions())
  {
    var a := DropDefaults(live, desired, STRATEGY_DEFAULTS);
    DropDefaultsTrims(live, desired, STRATEGY_DEFAULTS);
    DropDefaultsAtTrims(a, desired, "rollingUpdate", ROLLING_DEFAULTS);
    TrimsThen(Map(live), Map(a), Map(NormaliseStrategy(live, desired)), Defaults(STRATEGY_DEFAULTS),
        Under(InKey("rollingUpdate"), Defaults(ROLLING_DEFAULTS)));
  }

  lemma TemplateOfTrims(live: Object, desired: Object)
    ensures Trims(Map(live), Map(NormaliseTemplateOf(live, desired)), Under(InKey("template"), TemplateExemptions()))
  {
    if HasObject(live, "template") { TemplateTrims(live["template"].entries, ObjectAt(desired, "template")); }
    OnObjectTrims(live, "template", (t: Object) => NormalisePodTemplate(t, ObjectAt(desired, "template")),
        TemplateExemptions());
  }

  lemma DeploymentTrims(live: Object, desired: Object)
    ensures Trims(Map(live), Map(NormaliseDeploymentSpec(live, desired)), DeploymentExemptions())
  {
    var a := DropDefaults(live, desired, DEPLOYMENT_DEFAULTS);
    var edit := (s: Object) => NormaliseStrategy(s, ObjectAt(desired, "strategy"));
    var b := OnObject(a, "strategy", edit);
    DropDefaultsTrims(live, desired, DEPLOYMENT_DEFAULTS);
    if HasObject(a, "strategy") { StrategyTrims(a["strategy"].entries, ObjectAt(desired, "strategy")); }
    OnObjectTrims(a, "strategy", edit, StrategyExemptions());
    TemplateOfTrims(b, desired);
    TrimsThen(Map(live), Map(a), Map(b), Defaults(DEPLOYMENT_DEFAULTS), Under(InKey("strategy"), StrategyExemptions()));
    TrimsThen(Map(live), Map(b), Map(NormaliseDeploymentSpec(live, desired)),
        Defaults(DEPLOYMENT_DEFAULTS) + Under(InKey("strategy"), StrategyExemptions()),
        Under(InKey("template"), TemplateExemptions()));
  }

  const STATEFUL_DEFAULTS: Table :=
    [("podManagementPolicy", Str("OrderedReady")), ("replicas", Num(1.0)), ("revisionHistoryLimit", Num(10.0))]

  const PARTITION_DEFAULTS: Table := [("partition", Num(0.0))]

  const RETENTION_DEFAULTS: Table := [("whenDeleted", Str("Retain")), ("whenScaled", Str("Retain"))]

  /** Take away a mapping that has become empty and that the desired side does not mention. */
  function DropEmptied(live: Object, desired: Object, key: string): Object {
    if key in live && key !in desired && live[key] == Map(map[]) then live - {key} else live
  }

  lemma DropEmptiedTrims(live: Object, desired: Object, key: string)
    ensures Trims(Map(live), Map(DropEmptied(live, desired, key)), {})
  {
    var left := DropEmptied(live, desired, key);
    assert forall k | k in live :: KeyAccounted(live, left, k, {});
    assert forall k | k in left :: KeyAccounted(left, live, k, {});
    KeepsMapping(live, left, {});
    KeepsMapping(left, live, {});
  }

  function NormaliseUpdateStrategy(live: Object, desired: Object): Object {
    DropEmptied(DropDefaultsAt(DropDefaults(live, desired, STRATEGY_DEFAULTS), desired, "rollingUpdate",
        PARTITION_DEFAULTS), desired, "rollingUpdate")
  }

  function NormaliseRetention(live: Object, desired: Object): Object {
    DropEmptied(DropDefaultsAt(live, desired, "persistentVolumeClaimRetentionPolicy", RETENTION_DEFAULTS), desired,
        "persistentVolumeClaimRetentionPolicy")
  }

  function NormaliseStatefulSpec(live: Object, desired: Object): Object {
    var basics := DropDefaults(live, desired, STATEFUL_DEFAULTS);
    var strategy :=
      DropEmptied(OnObject(basics, "updateStrategy",
          (s: Object) => NormaliseUpdateStrategy(s, ObjectAt(desired, "updateStrategy"))), desired, "updateStrategy");
    NormaliseTemplateOf(NormaliseRetention(strategy, desired), desired)
  }

  function UpdateStrategyExemptions(): set<Exemption> {
    Defaults(STRATEGY_DEFAULTS) + Under(InKey("rollingUpdate"), Defaults(PARTITION_DEFAULTS))
  }

  function StatefulExemptions(): set<Exemption> {
    Defaults(STATEFUL_DEFAULTS) + Under(InKey("updateStrategy"), UpdateStrategyExemptions())
    + Under(InKey("persistentVolumeClaimRetentionPolicy"), Defaults(RETENTION_DEFAULTS))
      + Under(InKey("template"), TemplateExemptions())
  }

  lemma TrimsThenNothing(a: Tree, b: Tree, c: Tree, exempt: set<Exemption>)
    requires Trims(a, b, exempt) && Trims(b, c, {})
    ensures Trims(a, c, exempt)
  {
    TrimsThen(a, b, c, exempt, {});
    assert exempt + {} == exempt;
  }

  lemma UpdateStrategyTrims(live: Object, desired: Object)
    ensures Trims(Map(live), Map(NormaliseUpdateStrategy(live, desired)), UpdateStrategyExemptions())
  {
    var a := DropDefaults(live, desired, STRATEGY_DEFAULTS);
    var b := DropDefaultsAt(a, desired, "rollingUpdate", PARTITION_DEFAULTS);
    DropDefaultsTrims(live, desired, STRATEGY_DEFAULTS);
    DropDefaultsAtTrims(a, desired, "rollingUpdate", PARTITION_DEFAULTS);
    TrimsThen(Map(live), Map(a), Map(b), Defaults(STRATEGY_DEFAULTS),
        Under(InKey("rollingUpdate"), Defaults(PARTITION_DEFAULTS)));
    DropEmptiedTrims(b, desired, "rollingUpdate");
    TrimsThenNothing(Map(live), Map(b), Map(NormaliseUpdateStrategy(live, desired)), UpdateStrategyExemptions());
  }

  lemma RetentionTrims(live: Object, desired: Object)
    ensures Trims(Map(live), Map(NormaliseRetention(live, desired)),
      Under(InKey("persistentVolumeClaimRetentionPolicy"), Defaults(RETENTION_DEFAULTS)))
  {
    var a := DropDefaultsAt(live, desired, "persistentVolumeClaimRetentionPolicy", RETENTION_DEFAULTS);
    DropDefaultsAtTrims(live, desired, "persistentVolumeClaimRetentionPolicy", RETENTION_DEFAULTS);
    DropEmptiedTrims(a, desired, "persistentVolumeClaimRetentionPolicy");
    TrimsThenNothing(Map(live), Map(a), Map(NormaliseRetention(live, desired)),
        Under(InKey("persistentVolumeClaimRetentionPolicy"), Defaults(RETENTION_DEFAULTS)));
  }

  lemma StatefulTrims(live: Object, desired: Object)
    ensures Trims(Map(live), Map(NormaliseStatefulSpec(live, desired)), StatefulExemptions())
  {
    var a := DropDefaults(live, desired, STATEFUL_DEFAULTS);
    var edit := (s: Object) => NormaliseUpdateStrategy(s, ObjectAt(desired, "updateStrategy"));
    var b := OnObject(a, "updateStrategy", edit);
    var c := DropEmptied(b, desired, "updateStrategy");
    var d := NormaliseRetention(c, desired);
    DropDefaultsTrims(live, desired, STATEFUL_DEFAULTS);
    if HasObject(a, "updateStrategy") {
      UpdateStrategyTrims(a["updateStrategy"].entries, ObjectAt(desired, "updateStrategy"));
    }
    OnObjectTrims(a, "updateStrategy", edit, UpdateStrategyExemptions());
    DropEmptiedTrims(b, desired, "updateStrategy");
    TrimsThenNothing(Map(a), Map(b), Map(c), Under(InKey("updateStrategy"), UpdateStrategyExemptions()));
    RetentionTrims(c, desired);
    TemplateOfTrims(d, desired);
    TrimsChain(Map(live), Map(a), Map(c), Map(d), Map(NormaliseStatefulSpec(live, desired)),
        Defaults(STATEFUL_DEFAULTS),
        Under(InKey("updateStrategy"), UpdateStrategyExemptions()),
        Under(InKey("persistentVolumeClaimRetentionPolicy"), Defaults(RETENTION_DEFAULTS)),
        Under(InKey("template"), TemplateExemptions()));
  }

  const CLAIM_ANNOTATIONS := {
    "pv.kubernetes.io/bind-completed", "pv.kubernetes.io/bound-by-controller",
    "volume.beta.kubernetes.io/storage-provisioner", "volume.kubernetes.io/selected-node",
    "volume.kubernetes.io/storage-provisioner"}

  const CLAIM_DEFAULTS: Table := [("volumeMode", Str("Filesystem"))]

  const PROTECTION := Str("kubernetes.io/pvc-protection")

  function DropProtection(live: Object, desired: Object): Object {
    if "finalizers" !in desired && "finalizers" in live && live["finalizers"] == List([PROTECTION]) then
      live - {"finalizers"}
    else live
  }

  function NormaliseClaimMetadata(live: Object, desired: Object): Object {
    OnObject(DropProtection(live, desired), "annotations",
        (a: Object) => DropAllocated(a, ObjectAt(desired, "annotations"), CLAIM_ANNOTATIONS))
  }

  function NormaliseClaimSpec(live: Object, desired: Object): Object {
    DropDefaults(DropAllocated(live, desired, {"volumeName"}), desired, CLAIM_DEFAULTS)
  }

  function ProtectionExemption(): set<Exemption> { {Exemption([InKey("finalizers"), InAnyItem], Some(PROTECTION))} }

  function ClaimMetadataExemptions(): set<Exemption> {
    ProtectionExemption() + Under(InKey("annotations"), Allocated(CLAIM_ANNOTATIONS))
  }

  function ClaimSpecExemptions(): set<Exemption> { Allocated({"volumeName"}) + Defaults(CLAIM_DEFAULTS) }

  lemma ProtectionTrims(live: Object, desired: Object)
    ensures Trims(Map(live), Map(DropProtection(live, desired)), ProtectionExemption())
  {
    var left := DropProtection(live, desired);
    assert forall k | k in left :: KeyAccounted(left, live, k, {});
    KeepsMapping(left, live, {});
    forall p: Path | SolidAt(Map(live), p) && At(Map(left), p) != At(Map(live), p)
      ensures Excused(ProtectionExemption(), p, At(Map(live), p).value)
    {
      assert p[0] == Key("finalizers");
      OnlyProtection(p[1..]);
      var e := Exemption([InKey("finalizers"), InAnyItem], Some(PROTECTION));
      assert e.path[1..] == [InAnyItem] && e.path[1..][1..] == [];
      assert Covers(Exemption([], Some(PROTECTION)), p[1..][1..], PROTECTION);
      assert Covers(Exemption([InAnyItem], Some(PROTECTION)), p[1..], PROTECTION);
      assert Covers(e, p, PROTECTION);
    }
  }

  lemma OnlyProtection(p: Path)
    requires SolidAt(List([PROTECTION]), p)
    ensures p != [] && p[0] == Item(0) && p[1..] == [] && At(List([PROTECTION]), p) == Some(PROTECTION)
  {
    assert p != [] && p[0] == Item(0);
    assert SolidAt(PROTECTION, p[1..]);
  }

  lemma ClaimMetadataTrims(live: Object, desired: Object)
    ensures Trims(Map(live), Map(NormaliseClaimMetadata(live, desired)), ClaimMetadataExemptions())
  {
    var a := DropProtection(live, desired);
    var edit := (x: Object) => DropAllocated(x, ObjectAt(desired, "annotations"), CLAIM_ANNOTATIONS);
    ProtectionTrims(live, desired);
    if HasObject(a, "annotations") {
      DropAllocatedTrims(a["annotations"].entries, ObjectAt(desired, "annotations"), CLAIM_ANNOTATIONS);
    }
    OnObjectTrims(a, "annotations", edit, Allocated(CLAIM_ANNOTATIONS));
    TrimsThen(Map(live), Map(a), Map(NormaliseClaimMetadata(live, desired)), ProtectionExemption(),
        Under(InKey("annotations"), Allocated(CLAIM_ANNOTATIONS)));
  }

  lemma ClaimSpecTrims(live: Object, desired: Object)
    ensures Trims(Map(live), Map(NormaliseClaimSpec(live, desired)), ClaimSpecExemptions())
  {
    var a := DropAllocated(live, desired, {"volumeName"});
    DropAllocatedTrims(live, desired, {"volumeName"});
    DropDefaultsTrims(a, desired, CLAIM_DEFAULTS);
    TrimsThen(Map(live), Map(a), Map(NormaliseClaimSpec(live, desired)), Allocated({"volumeName"}),
        Defaults(CLAIM_DEFAULTS));
  }

  datatype Kind = Service | Deployment | StatefulSet | PersistentVolumeClaim | Other

  function KindOf(doc: Object): Kind {
    if "kind" !in doc then Other
    else if doc["kind"] == Str("Service") then Service
    else if doc["kind"] == Str("Deployment") then Deployment
    else if doc["kind"] == Str("StatefulSet") then StatefulSet
    else if doc["kind"] == Str("PersistentVolumeClaim") then PersistentVolumeClaim
    else Other
  }

  function SpecEdit(kind: Kind): (Object, Object) -> Object {
    match kind
    case Service => NormaliseServiceSpec
    case Deployment => NormaliseDeploymentSpec
    case StatefulSet => NormaliseStatefulSpec
    case PersistentVolumeClaim => NormaliseClaimSpec
    case Other => (live: Object, desired: Object) => live
  }

  function SpecExemptions(kind: Kind): set<Exemption> {
    match kind
    case Service => ServiceExemptions()
    case Deployment => DeploymentExemptions()
    case StatefulSet => StatefulExemptions()
    case PersistentVolumeClaim => ClaimSpecExemptions()
    case Other => {}
  }

  /** The live document after its kind's normalisation. */
  function Normalise(live: Object, desired: Object): Object {
    var kind := KindOf(live);
    var metadata :=
      if kind.PersistentVolumeClaim?
      then OnObject(live, "metadata", (m: Object) => NormaliseClaimMetadata(m, ObjectAt(desired, "metadata")))
      else live;
    OnObject(metadata, "spec", (s: Object) => SpecEdit(kind)(s, ObjectAt(desired, "spec")))
  }

  function KindExemptions(kind: Kind): set<Exemption> {
    (if kind.PersistentVolumeClaim? then Under(InKey("metadata"), ClaimMetadataExemptions()) else {})
    + Under(InKey("spec"), SpecExemptions(kind))
  }

  lemma SpecTrims(kind: Kind, live: Object, desired: Object)
    ensures Trims(Map(live), Map(SpecEdit(kind)(live, desired)), SpecExemptions(kind))
  {
    match kind
    case Service => ServiceTrims(live, desired);
    case Deployment => DeploymentTrims(live, desired);
    case StatefulSet => StatefulTrims(live, desired);
    case PersistentVolumeClaim => ClaimSpecTrims(live, desired);
    case Other => TrimsItself(Map(live), {});
  }

  /** Normalising a live document takes away listed defaults and allocated values, and adds nothing. */
  lemma NormaliseTrims(live: Object, desired: Object)
    ensures Trims(Map(live), Map(Normalise(live, desired)), KindExemptions(KindOf(live)))
  {
    var kind := KindOf(live);
    var edit := (m: Object) => NormaliseClaimMetadata(m, ObjectAt(desired, "metadata"));
    var a := if kind.PersistentVolumeClaim? then OnObject(live, "metadata", edit) else live;
    var first := if kind.PersistentVolumeClaim? then Under(InKey("metadata"), ClaimMetadataExemptions()) else {};
    if kind.PersistentVolumeClaim? {
      if HasObject(live, "metadata") { ClaimMetadataTrims(live["metadata"].entries, ObjectAt(desired, "metadata")); }
      OnObjectTrims(live, "metadata", edit, ClaimMetadataExemptions());
    } else {
      TrimsItself(Map(live), {});
    }
    if HasObject(a, "spec") { SpecTrims(kind, a["spec"].entries, ObjectAt(desired, "spec")); }
    OnObjectTrims(a, "spec", (s: Object) => SpecEdit(kind)(s, ObjectAt(desired, "spec")), SpecExemptions(kind));
    TrimsThen(Map(live), Map(a), Map(Normalise(live, desired)), first, Under(InKey("spec"), SpecExemptions(kind)));
  }

  // ---------------------------------------------------------------- server-owned metadata

  const SERVER_METADATA := {
    "creationTimestamp", "deletionGracePeriodSeconds", "deletionTimestamp", "generation", "managedFields",
    "resourceVersion", "selfLink", "uid"}

  const LAST_APPLIED := "kubectl.kubernetes.io/last-applied-configuration"

  const REVISION := "deployment.kubernetes.io/revision"

  const HELM_NAME := "meta.helm.sh/release-name"

  const HELM_NAMESPACE := "meta.helm.sh/release-namespace"

  /** A positive decimal number without leading zeros. */
  predicate IsRevision(t: Tree) {
    && t.Str? && t.text != "" && '1' <= t.text[0] <= '9'
    && forall i | 0 <= i < |t.text| :: '0' <= t.text[i] <= '9'
  }

  predicate HelmAnnotationsAgree(a: Object, release: string, namespace: string) {
    && (HELM_NAME in a ==> a[HELM_NAME] == Str(release))
    && (HELM_NAMESPACE in a ==> a[HELM_NAMESPACE] == Str(namespace))
  }

  predicate HasRevision(a: Object) { REVISION in a && a[REVISION] != Null }

  /** The annotations without the ones Helm and the server own; none if one of them is wrong. */
  function StripAnnotations(
    a: Object, live: bool, deployment: bool, release: string, namespace: string): Option<Object> {
    if !HelmAnnotationsAgree(a, release, namespace) then None
    else if live && deployment && HasRevision(a) && !IsRevision(a[REVISION]) then None
    else
      Some(a - {HELM_NAME, HELM_NAMESPACE}
           - (if live then {LAST_APPLIED} else {})
           - (if live && deployment && HasRevision(a) then {REVISION} else {}))
  }

  predicate Falsy(t: Tree) { Empty(t) || t == Str("") || t == FALSE }

  function WithNamespace(m: Object, namespace: string): Object {
    if "namespace" in m && !Falsy(m["namespace"]) then m else m["namespace" := Str(namespace)]
  }

  function StripMetadata(m: Object, live: bool, deployment: bool, release: string, namespace: string): Option<Object> {
    var kept := WithNamespace(m, namespace) - SERVER_METADATA;
    if !HasObject(kept, "annotations") then Some(kept)
    else
      match StripAnnotations(kept["annotations"].entries, live, deployment, release, namespace)
      case None => None
      case Some(a) => Some(kept["annotations" := Map(a)])
  }

  /** A document without its status and server-owned metadata; none where the script stops. */
  function Strip(doc: Object, live: bool, release: string, namespace: string): Option<Object> {
    var rest := doc - {"status"};
    if !HasObject(rest, "metadata") then None
    else
      match StripMetadata(rest["metadata"].entries, live, live && KindOf(doc).Deployment?, release, namespace)
      case None => None
      case Some(m) => Some(rest["metadata" := Map(m)])
  }

  function AnnotationExemptions(live: bool, deployment: bool, release: string, namespace: string): set<Exemption> {
    {Exemption([InKey(HELM_NAME)], Some(Str(release))), Exemption([InKey(HELM_NAMESPACE)], Some(Str(namespace)))}
    + (if live then Allocated({LAST_APPLIED}) else {})
    + (if live && deployment then Allocated({REVISION}) else {})
  }

  function MetadataExemptions(live: bool, deployment: bool, release: string, namespace: string): set<Exemption> {
    Allocated(SERVER_METADATA) + Under(InKey("annotations"), AnnotationExemptions(live, deployment, release, namespace))
  }

  function StripExemptions(live: bool, deployment: bool, release: string, namespace: string): set<Exemption> {
    Allocated({"status"}) + Under(InKey("metadata"), MetadataExemptions(live, deployment, release, namespace))
  }

  /** The namespace that a document without one is given. */
  function NamespaceExemption(namespace: string): set<Exemption> {
    {Exemption([InKey("metadata"), InKey("namespace")], Some(Str(namespace)))}
  }

  lemma AnnotationsTrim(a: Object, live: bool, deployment: bool, release: string, namespace: string)
    requires StripAnnotations(a, live, deployment, release, namespace).Some?
    ensures Trims(Map(a), Map(StripAnnotations(a, live, deployment, release, namespace).value),
      AnnotationExemptions(live, deployment, release, namespace))
  {
    var exempt := AnnotationExemptions(live, deployment, release, namespace);
    var left := StripAnnotations(a, live, deployment, release, namespace).value;
    forall k | k in a ensures KeyAccounted(a, left, k, exempt) {
      if k == LAST_APPLIED && live { assert Exemption([InKey(k)], None) in Allocated({LAST_APPLIED}); }
      if k == REVISION && live && deployment { assert Exemption([InKey(k)], None) in Allocated({REVISION}); }
    }
    KeepsMapping(a, left, exempt);
    KeepsMapping(left, a, {});
  }

  /** The tracked checks leave a document's namespace absent, null, or the release namespace. */
  predicate NamespaceChecked(m: Object, namespace: string) {
    "namespace" in m ==> m["namespace"] == Null || m["namespace"] == Str(namespace)
  }

  lemma NamespaceGiven(m: Object, namespace: string)
    requires NamespaceChecked(m, namespace)
    ensures
      var exempt := {Exemption([InKey("namespace")], Some(Str(namespace)))};
      Keeps(Map(m), Map(WithNamespace(m, namespace)), {}) && Keeps(Map(WithNamespace(m, namespace)), Map(m), exempt)
  {
    var n := WithNamespace(m, namespace);
    assert forall k | k in m :: KeyAccounted(m, n, k, {});
    KeepsMapping(m, n, {});
    var exempt := {Exemption([InKey("namespace")], Some(Str(namespace)))};
    assert forall k | k in n :: KeyAccounted(n, m, k, exempt);
    KeepsMapping(n, m, exempt);
  }
}
