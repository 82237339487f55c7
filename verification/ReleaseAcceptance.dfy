/**
 * When the live release is accepted as the desired one, and what acceptance guarantees of every
 * explicit value on either side.
 */
module ReleaseAcceptance {
  import opened Common
  import opened ReleaseTrees
  import opened ReleasePaths
  import opened ReleaseNormalisation
  import opened ReleaseComparison

  // ---------------------------------------------------------------- one resource

  /** The verdict on one pair of resources; the script stops where stripping does. */
  predicate PairAccepted(live: Object, desired: Object, release: string, namespace: string) {
    match (Strip(live, true, release, namespace), Strip(desired, false, release, namespace))
    case (Some(l), Some(d)) =>
      var left := Prune(Map(Normalise(l, d)), Map(d));
      left == Prune(Map(d), left)
    case _ => false
  }

  function Metadata(doc: Object): Object { ObjectAt(doc, "metadata") }

  lemma MetadataStripped(
    m: Object, live: bool, deployment: bool, release: string, namespace: string, given: set<Exemption>)
    requires StripMetadata(m, live, deployment, release, namespace).Some?
    requires Keeps(Map(m), Map(WithNamespace(m, namespace)), {})
    requires Keeps(Map(WithNamespace(m, namespace)), Map(m), given)
    ensures
      var left := StripMetadata(m, live, deployment, release, namespace).value;
      && Keeps(Map(m), Map(left), MetadataExemptions(live, deployment, release, namespace))
      && Keeps(Map(left), Map(m), given)
  {
    var named := WithNamespace(m, namespace);
    var kept := named - SERVER_METADATA;
    var exempt := MetadataExemptions(live, deployment, release, namespace);
    forall k | k in named ensures KeyAccounted(named, kept, k, Allocated(SERVER_METADATA)) {
      if k in SERVER_METADATA { assert Exemption([InKey(k)], None) in Allocated(SERVER_METADATA); }
    }
    KeepsMapping(named, kept, Allocated(SERVER_METADATA));
    assert forall k | k in kept :: KeyAccounted(kept, named, k, {});
    KeepsMapping(kept, named, {});
    var left := StripMetadata(m, live, deployment, release, namespace).value;
    var below := Under(InKey("annotations"), AnnotationExemptions(live, deployment, release, namespace));
    if HasObject(kept, "annotations") {
      AnnotationsTrim(kept["annotations"].entries, live, deployment, release, namespace);
      KeyReplaced(kept, "annotations", left["annotations"], AnnotationExemptions(live, deployment, release, namespace));
    } else {
      TrimsItself(Map(kept), below);
    }
    KeepsWithMore(Map(m), Map(named), {}, exempt);
    KeepsWithMore(Map(named), Map(kept), Allocated(SERVER_METADATA), exempt);
    KeepsWithMore(Map(kept), Map(left), below, exempt);
    KeepsTransitive(Map(m), Map(named), Map(kept), exempt);
    KeepsTransitive(Map(m), Map(kept), Map(left), exempt);
    KeepsTransitive(Map(left), Map(kept), Map(named), {});
    KeepsWithMore(Map(left), Map(named), {}, given);
    KeepsTransitive(Map(left), Map(named), Map(m), given);
  }

  lemma DocumentStripped(doc: Object, live: bool, release: string, namespace: string, given: set<Exemption>)
    requires Strip(doc, live, release, namespace).Some?
    requires
      var m := Metadata(doc);
      Keeps(Map(m), Map(WithNamespace(m, namespace)), {}) && Keeps(Map(WithNamespace(m, namespace)), Map(m), given)
    ensures
      var left := Strip(doc, live, release, namespace).value;
      && Keeps(Map(doc), Map(left), StripExemptions(live, live && KindOf(doc).Deployment?, release, namespace))
      && Keeps(Map(left), Map(doc), Under(InKey("metadata"), given))
  {
    var rest := doc - {"status"};
    var left := Strip(doc, live, release, namespace).value;
    MetadataStripped(Metadata(doc), live, live && KindOf(doc).Deployment?, release, namespace, given);
    assert rest["metadata"] == Map(Metadata(doc));
    assert rest == DropAllocated(doc, map[], {"status"});
    DropAllocatedTrims(doc, map[], {"status"});
    MetadataReplaced(Map(doc), rest, left["metadata"], Allocated({"status"}),
                     MetadataExemptions(live, live && KindOf(doc).Deployment?, release, namespace), given);
  }

  lemma MetadataReplaced(
    doc: Tree, rest: Object, value: Tree, first: set<Exemption>, below: set<Exemption>, given: set<Exemption>)
    requires Trims(doc, Map(rest), first) && "metadata" in rest
    requires Keeps(rest["metadata"], value, below) && Keeps(value, rest["metadata"], given)
    ensures Keeps(doc, Map(rest["metadata" := value]), first + Under(InKey("metadata"), below))
    ensures Keeps(Map(rest["metadata" := value]), doc, Under(InKey("metadata"), given))
  {
    var left := rest["metadata" := value];
    KeepsReplaced(rest, "metadata", value, below);
    KeepsReplaced(left, "metadata", rest["metadata"], given);
    assert left["metadata" := rest["metadata"]] == rest;
    KeepsBoth(doc, Map(rest), Map(left), first, Under(InKey("metadata"), below));
    KeepsBoth(Map(left), Map(rest), doc, Under(InKey("metadata"), given), {});
    assert Under(InKey("metadata"), given) + {} == Under(InKey("metadata"), given);
  }

  lemma KeepsBoth(a: Tree, b: Tree, c: Tree, first: set<Exemption>, second: set<Exemption>)
    requires Keeps(a, b, first) && Keeps(b, c, second)
    ensures Keeps(a, c, first + second)
  {
    KeepsWithMore(a, b, first, first + second);
    KeepsWithMore(b, c, second, first + second);
    KeepsTransitive(a, b, c, first + second);
  }

  /** What a desired document may hold that the live one does not: status, server-owned metadata, and
      Helm's annotations with the values Helm gives them. */
  function DesiredOnly(release: string, namespace: string): set<Exemption> {
    StripExemptions(false, false, release, namespace)
  }

  /** What a live document may hold that the desired one does not: the same and the server's own
      annotations, the release namespace, and the defaults and allocated values of its kind. */
  function LiveOnly(kind: Kind, release: string, namespace: string): set<Exemption> {
    StripExemptions(true, kind.Deployment?, release, namespace) + NamespaceExemption(namespace) + KindExemptions(kind)
  }

  lemma LiveStripped(live: Object, release: string, namespace: string)
    requires Strip(live, true, release, namespace).Some?
    requires "namespace" in Metadata(live) && Metadata(live)["namespace"] == Str(namespace)
    ensures
      var l := Strip(live, true, release, namespace).value;
      Trims(Map(live), Map(l), StripExemptions(true, KindOf(live).Deployment?, release, namespace))
        && KindOf(l) == KindOf(live)
  {
    assert WithNamespace(Metadata(live), namespace) == Metadata(live);
    KeepsItself(Map(Metadata(live)), {});
    DocumentStripped(live, true, release, namespace, {});
    assert Under(InKey("metadata"), {}) == {};
  }

  lemma DesiredStripped(desired: Object, release: string, namespace: string)
    requires Strip(desired, false, release, namespace).Some? && NamespaceChecked(Metadata(desired), namespace)
    ensures
      var d := Strip(desired, false, release, namespace).value;
      Keeps(Map(desired), Map(d), DesiredOnly(release, namespace))
        && Keeps(Map(d), Map(desired), NamespaceExemption(namespace))
  {
    NamespaceGiven(Metadata(desired), namespace);
    DocumentStripped(desired, false, release, namespace, {Exemption([InKey("namespace")], Some(Str(namespace)))});
    UnderNamespace(namespace);
  }

  /** From live to desired and back through the stripped and the normalised documents. */
  lemma ThereAndBack(
    live: Tree, l: Tree, n: Tree, d: Tree, desired: Tree, s: set<Exemption>, k: set<Exemption>, given: set<Exemption>,
    out: set<Exemption>)
    requires Trims(live, l, s) && Trims(l, n, k) && Keeps(n, d, {}) && Keeps(d, n, {})
    requires Keeps(desired, d, out) && Keeps(d, desired, given)
    ensures Keeps(desired, live, out) && Keeps(live, desired, s + given + k)
  {
    KeepsTransitive(d, n, l, {});
    KeepsTransitive(d, l, live, {});
    KeepsBoth(desired, d, live, out, {});
    assert out + {} == out;
    KeepsBoth(live, l, n, s, k);
    KeepsBoth(live, n, d, s + k, {});
    KeepsBoth(live, d, desired, s + k + {}, given);
    assert s + k + {} + given == s + given + k;
  }

  /** An accepted pair agrees on every explicit value that is not exempted by name. */
  lemma AcceptedPairHidesNothing(live: Object, desired: Object, release: string, namespace: string)
    requires PairAccepted(live, desired, release, namespace)
    requires "namespace" in Metadata(live) && Metadata(live)["namespace"] == Str(namespace)
    requires NamespaceChecked(Metadata(desired), namespace)
    ensures Agree(live, desired, release, namespace)
  {
    var l := Strip(live, true, release, namespace).value;
    var d := Strip(desired, false, release, namespace).value;
    var n := Normalise(l, d);
    LiveStripped(live, release, namespace);
    DesiredStripped(desired, release, namespace);
    NormaliseTrims(l, d);
    RelatedTreesAgree(Map(n), Map(d));
    ThereAndBack(Map(live), Map(l), Map(n), Map(d), Map(desired),
                 StripExemptions(true, KindOf(live).Deployment?, release, namespace),
                 KindExemptions(KindOf(live)), NamespaceExemption(namespace), DesiredOnly(release, namespace));
  }

  /** A pair is accepted exactly when both documents can be stripped and what normalising leaves of the
      live one is related to the desired one. */
  lemma PairAcceptedIffRelated(live: Object, desired: Object, release: string, namespace: string)
    ensures
      var l, d := Strip(live, true, release, namespace), Strip(desired, false, release, namespace);
      PairAccepted(live, desired, release, namespace) <==>
        l.Some? && d.Some? && Related(Map(Normalise(l.value, d.value)), Map(d.value))
  {
    var l, d := Strip(live, true, release, namespace), Strip(desired, false, release, namespace);
    if l.Some? && d.Some? {
      PruningDecides(Map(Normalise(l.value, d.value)), Map(d.value));
      assert PairAccepted(live, desired, release, namespace) <==>
        EqualAfterPruning(Map(Normalise(l.value, d.value)), Map(d.value));
    }
  }

  lemma {:induction false} DropDefaultsKeepsKey(live: Object, desired: Object, table: Table, key: string)
    requires key in live && forall i | 0 <= i < |table| :: table[i].0 != key
    ensures key in DropDefaults(live, desired, table) && DropDefaults(live, desired, table)[key] == live[key]
  {
    if table != [] {
      DropDefaultsKeepsKey(DropDefault(live, desired, table[0].0, table[0].1), desired, table[1..], key);
    }
  }

  /** Normalising a strategy may empty its rolling update, but leaves the key. */
  lemma StrategyStays(live: Object, desired: Object)
    requires HasObject(live, "rollingUpdate")
    ensures !Empty(Map(NormaliseStrategy(live, desired)))
  {
    DropDefaultsKeepsKey(live, desired, STRATEGY_DEFAULTS, "rollingUpdate");
    assert "rollingUpdate" in NormaliseStrategy(live, desired);
  }

  lemma NormalisedSpec(spec: Object, wanted: Object)
    requires HasObject(spec, "strategy") && HasObject(spec["strategy"].entries, "rollingUpdate")
    ensures "strategy" in NormaliseDeploymentSpec(spec, wanted)
    ensures !Empty(NormaliseDeploymentSpec(spec, wanted)["strategy"])
  {
    DropDefaultsKeepsKey(spec, wanted, DEPLOYMENT_DEFAULTS, "strategy");
    StrategyStays(spec["strategy"].entries, ObjectAt(wanted, "strategy"));
  }

  lemma DeploymentIsNormalised(live: Object, desired: Object)
    requires KindOf(live).Deployment? && HasObject(live, "spec") && HasObject(desired, "spec")
    ensures HasObject(Normalise(live, desired), "spec")
    ensures Normalise(live, desired)["spec"].entries ==
      NormaliseDeploymentSpec(live["spec"].entries, desired["spec"].entries)
  {
    var edit := SpecEdit(Deployment);
    assert edit(live["spec"].entries, desired["spec"].entries) ==
      NormaliseDeploymentSpec(live["spec"].entries, desired["spec"].entries);
    assert ObjectAt(desired, "spec") == desired["spec"].entries;
  }

  /** Not every value the server fills in is accepted: a Deployment that desires no strategy is refused
      when the live one shows its rolling update, even at the defaults. */
  lemma FilledStrategyIsRefused(live: Object, desired: Object, release: string, namespace: string)
    requires Strip(live, true, release, namespace).Some? && Strip(desired, false, release, namespace).Some?
    requires KindOf(live).Deployment? && HasObject(live, "spec") && HasObject(desired, "spec")
    requires HasObject(live["spec"].entries, "strategy")
    requires HasObject(live["spec"].entries["strategy"].entries, "rollingUpdate")
    requires "strategy" !in desired["spec"].entries
    ensures !PairAccepted(live, desired, release, namespace)
  {
    var l := Strip(live, true, release, namespace).value;
    var d := Strip(desired, false, release, namespace).value;
    assert l["spec"] == live["spec"] && d["spec"] == desired["spec"] && KindOf(l).Deployment?;
    NormalisedSpec(l["spec"].entries, d["spec"].entries);
    var n := Normalise(l, d);
    DeploymentIsNormalised(l, d);
    PairAcceptedIffRelated(live, desired, release, namespace);
    UnsharedKeyParts(n["spec"].entries, d["spec"].entries, "strategy");
    assert n["spec"] == Map(n["spec"].entries) && d["spec"] == Map(d["spec"].entries);
  }

  lemma UnsharedKeyParts(a: Object, b: Object, key: string)
    requires key in a && key !in b && !Empty(a[key])
    ensures !Related(Map(a), Map(b))
  {
  }

  /** The two documents agree on everything explicit that is not exempted. */
  ghost predicate Agree(live: Object, desired: Object, release: string, namespace: string) {
    && Keeps(Map(desired), Map(live), DesiredOnly(release, namespace))
    && Keeps(Map(live), Map(desired), LiveOnly(KindOf(live), release, namespace))
  }

  lemma UnderNamespace(namespace: string)
    ensures Under(InKey("metadata"), {Exemption([InKey("namespace")], Some(Str(namespace)))}) ==
      NamespaceExemption(namespace)
  {
    var e := Exemption([InKey("namespace")], Some(Str(namespace)));
    var lower := Exemption([InKey("metadata")] + e.path, e.value);
    assert lower == Exemption([InKey("metadata"), InKey("namespace")], Some(Str(namespace)));
  }

  // ---------------------------------------------------------------- the whole release

  datatype ResourceKey = ResourceKey(apiVersion: string, kind: string, namespace: string, name: string)

  datatype Verdict = Untracked | Invalid | Tracked(key: ResourceKey)

  const RELEASE_LABEL := "app.kubernetes.io/instance"

  const TRACKED_KINDS := map["Service" := "v1", "Deployment" := "apps/v1"]

  /** The checks on one document before it enters the comparison. */
  function Examine(
    doc: Object, desired: bool, release: string, namespace: string, kinds: map<string, string>): Verdict {
    if "kind" !in doc || !doc["kind"].Str? || doc["kind"].text !in kinds then Untracked
    else if !HasObject(doc, "metadata") then Invalid
    else
      var kind, m := doc["kind"].text, Metadata(doc);
      if !HasObject(m, "labels") then Invalid
      else if RELEASE_LABEL !in m["labels"].entries || m["labels"].entries[RELEASE_LABEL] != Str(release) then Invalid
      else if !(NamespaceOf(m, desired, namespace) == Str(namespace)) then Invalid
      else if "name" !in m || !m["name"].Str? || m["name"].text == "" then Invalid
      else if "apiVersion" !in doc || doc["apiVersion"] != Str(kinds[kind]) then Invalid
      else Tracked(ResourceKey(kinds[kind], kind, namespace, m["name"].text))
  }

  function NamespaceOf(m: Object, desired: bool, namespace: string): Tree {
    var own := if "namespace" in m then m["namespace"] else Null;
    if desired && own == Null then Str(namespace) else own
  }

  /** The tracked documents by key; none if a document is invalid or two share a key. */
  function Index(
    docs: seq<Object>, desired: bool, release: string, namespace: string,
    kinds: map<string, string>): Option<map<ResourceKey, Object>> {
    if docs == [] then Some(map[])
    else
      match (Index(docs[..|docs| - 1], desired, release, namespace, kinds),
          Examine(docs[|docs| - 1], desired, release, namespace, kinds))
      case (Some(m), Untracked) => Some(m)
      case (Some(m), Tracked(key)) => if key in m then None else Some(m[key := docs[|docs| - 1]])
      case _ => None
  }

  ghost predicate ReleaseAccepted(
    live: seq<Object>, desired: seq<Object>, release: string, namespace: string, kinds: map<string, string>) {
    match (Index(live, false, release, namespace, kinds), Index(desired, true, release, namespace, kinds))
    case (Some(l), Some(d)) => l.Keys == d.Keys && forall k | k in l :: PairAccepted(l[k], d[k], release, namespace)
    case _ => false
  }

  lemma {:induction false} IndexHolds(
    docs: seq<Object>, desired: bool, release: string, namespace: string, kinds: map<string, string>)
    requires Index(docs, desired, release, namespace, kinds).Some?
    ensures
      var m := Index(docs, desired, release, namespace, kinds).value;
      && (forall i | 0 <= i < |docs| ::
            var v := Examine(docs[i], desired, release, namespace, kinds);
            !v.Invalid? && (v.Tracked? ==> v.key in m && m[v.key] == docs[i]))
      && (forall k | k in m :: m[k] in docs && Examine(m[k], desired, release, namespace, kinds) == Tracked(k))
  {
    if docs != [] {
      var earlier, last := docs[..|docs| - 1], docs[|docs| - 1];
      IndexHolds(earlier, desired, release, namespace, kinds);
      assert docs == earlier + [last];
      var m := Index(earlier, desired, release, namespace, kinds).value;
      assert forall k | k in m :: m[k] in docs;
    }
  }

  lemma ExaminedNamespaces(
    live: Object, desired: Object, release: string, namespace: string, kinds: map<string, string>)
    requires Examine(live, false, release, namespace, kinds).Tracked?
    requires Examine(desired, true, release, namespace, kinds).Tracked?
    ensures "namespace" in Metadata(live) && Metadata(live)["namespace"] == Str(namespace)
    ensures NamespaceChecked(Metadata(desired), namespace)
  {
  }

  /** Accepting a release means that the same resources are live and desired, and that each pair under
      one key agrees on every explicit value. */
  lemma AcceptedReleaseHidesNothing(
    live: seq<Object>, desired: seq<Object>, release: string, namespace: string, kinds: map<string, string>)
    requires ReleaseAccepted(live, desired, release, namespace, kinds)
    ensures
      var l := Index(live, false, release, namespace, kinds).value;
      var d := Index(desired, true, release, namespace, kinds).value;
      && l.Keys == d.Keys
      && (forall k | k in l :: Agree(l[k], d[k], release, namespace))
      && (forall i | 0 <= i < |live| ::
            var v := Examine(live[i], false, release, namespace, kinds);
            v.Tracked? ==> v.key in l && l[v.key] == live[i])
      && (forall i | 0 <= i < |desired| ::
            var v := Examine(desired[i], true, release, namespace, kinds);
            v.Tracked? ==> v.key in d && d[v.key] == desired[i])
  {
    var l := Index(live, false, release, namespace, kinds).value;
    var d := Index(desired, true, release, namespace, kinds).value;
    IndexHolds(live, false, release, namespace, kinds);
    IndexHolds(desired, true, release, namespace, kinds);
    forall k | k in l ensures Agree(l[k], d[k], release, namespace) {
      ExaminedNamespaces(l[k], d[k], release, namespace, kinds);
      AcceptedPairHidesNothing(l[k], d[k], release, namespace);
    }
  }

  /** The indexing loop: documents in order, stopping at the first that is invalid or repeated. */
  method TrackedReleaseResources(
    docs: seq<Object>, desired: bool, release: string, namespace: string, kinds: map<string, string>)
    returns (r: Option<map<ResourceKey, Object>>)
    ensures r == Index(docs, desired, release, namespace, kinds)
  {
    var resources: map<ResourceKey, Object> := map[];
    var i := 0;
    while i < |docs|
      invariant i <= |docs| && Index(docs[..i], desired, release, namespace, kinds) == Some(resources)
    {
      assert docs[..i + 1][..i] == docs[..i];
      match Examine(docs[i], desired, release, namespace, kinds) {
        case Untracked =>
        case Invalid =>
          InvalidIsFinal(docs, i + 1, desired, release, namespace, kinds);
          return None;
        case Tracked(key) =>
          if key in resources {
            InvalidIsFinal(docs, i + 1, desired, release, namespace, kinds);
            return None;
          }
          resources := resources[key := docs[i]];
      }
      i := i + 1;
    }
    assert docs[..|docs|] == docs;
    r := Some(resources);
  }

  lemma {:induction false} InvalidIsFinal(
    docs: seq<Object>, i: nat, desired: bool, release: string, namespace: string, kinds: map<string, string>)
    requires i <= |docs| && Index(docs[..i], desired, release, namespace, kinds).None?
    ensures Index(docs, desired, release, namespace, kinds).None?
  {
    if i == |docs| {
      assert docs[..i] == docs;
    } else {
      var earlier := docs[..|docs| - 1];
      assert earlier[..i] == docs[..i];
      InvalidIsFinal(earlier, i, desired, release, namespace, kinds);
    }
  }

  /** The comparison of a whole release. */
  method CompareLiveDesired(
    live: seq<Object>, desired: seq<Object>, release: string, namespace: string) returns (accepted: bool)
    ensures accepted <==> ReleaseAccepted(live, desired, release, namespace, TRACKED_KINDS)
  {
    var l := TrackedReleaseResources(live, false, release, namespace, TRACKED_KINDS);
    var d := TrackedReleaseResources(desired, true, release, namespace, TRACKED_KINDS);
    if l.None? || d.None? || l.value.Keys != d.value.Keys {
      return false;
    }
    var keys := l.value.Keys;
    while keys != {}
      invariant keys <= l.value.Keys
      invariant forall k | k in l.value && k !in keys :: PairAccepted(l.value[k], d.value[k], release, namespace)
      decreases keys
    {
      var k :| k in keys;
      if !PairAccepted(l.value[k], d.value[k], release, namespace) {
        return false;
      }
      keys := keys - {k};
    }
    accepted := true;
  }
}
