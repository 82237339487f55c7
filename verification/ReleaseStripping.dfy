/**
 * What is taken off a document before it is compared, key by key: its status, what the server keeps in its
 * metadata, and the annotations of Helm and the server; and when a document is refused for them.
 */
module ReleaseStripping {
  import opened Common
  import opened ReleaseTrees
  import opened ReleaseNormalisation
  import opened ReleaseComparison

  /** A text of decimal digits that does not begin with a zero. */
  predicate IsPositiveNumber(t: Tree) {
    t.Str? && t.text != "" && t.text[0] != '0' && forall c | c in t.text :: '0' <= c <= '9'
  }

  /** What the annotations say of the release and, for a live Deployment, of its revision is right. */
  predicate AnnotationsAreRight(a: Object, revised: bool, release: string, namespace: string) {
    && ("meta.helm.sh/release-name" in a ==> a["meta.helm.sh/release-name"] == Str(release))
    && ("meta.helm.sh/release-namespace" in a ==> a["meta.helm.sh/release-namespace"] == Str(namespace))
    && (revised && "deployment.kubernetes.io/revision" in a ==>
          var revision := a["deployment.kubernetes.io/revision"];
          revision == Null || IsPositiveNumber(revision))
  }

  /** An annotation that is taken off. */
  predicate IsTakenOff(a: Object, key: string, live: bool, revised: bool) {
    || key == "meta.helm.sh/release-name" || key == "meta.helm.sh/release-namespace"
    || (live && key == "kubectl.kubernetes.io/last-applied-configuration")
    || (revised && key == "deployment.kubernetes.io/revision" && key in a && a[key] != Null)
  }

  lemma AnnotationsAreStripped(a: Object, live: bool, deployment: bool, release: string, namespace: string)
    ensures
      var r, revised := StripAnnotations(a, live, deployment, release, namespace), live && deployment;
      && (r.Some? <==> AnnotationsAreRight(a, revised, release, namespace))
      && (r.Some? ==> forall key ::
            && (key in r.value <==> key in a && !IsTakenOff(a, key, live, revised))
            && (key in r.value ==> r.value[key] == a[key]))
  {
    if REVISION in a && a[REVISION].Str? { RevisionIsPositive(a[REVISION]); }
  }

  lemma RevisionIsPositive(t: Tree)
    ensures IsRevision(t) <==> IsPositiveNumber(t)
  {
    if t.Str? && t.text != "" {
      if IsRevision(t) {
        forall c | c in t.text ensures '0' <= c <= '9' {}
      }
      if IsPositiveNumber(t) {
        forall i | 0 <= i < |t.text| ensures '0' <= t.text[i] <= '9' { assert t.text[i] in t.text; }
      }
    }
  }

  const SERVER_KEPT: set<string> := {
    "creationTimestamp", "deletionGracePeriodSeconds", "deletionTimestamp", "generation", "managedFields",
    "resourceVersion", "selfLink", "uid"}

  /** A value that counts as none. */
  predicate IsNothing(t: Tree) { t in {Null, Map(map[]), List([]), Str(""), FALSE} }

  /** The metadata without what the server keeps, in the namespace given when it names none. */
  ghost predicate MetadataIsStripped(m: Object, r: Object, live: bool, deployment: bool, namespace: string) {
    && (forall key | key in SERVER_KEPT :: key !in r)
    && "namespace" in r
    && r["namespace"] == (if "namespace" in m && !IsNothing(m["namespace"]) then m["namespace"] else Str(namespace))
    && (forall key | key !in SERVER_KEPT && key != "namespace" ::
          && (key in r <==> key in m)
          && (key in r && !(key == "annotations" && m[key].Map?) ==> r[key] == m[key]))
    && ("annotations" in m && m["annotations"].Map? ==>
          && r["annotations"].Map?
          && forall key ::
               var a := m["annotations"].entries;
               && (key in r["annotations"].entries <==> key in a && !IsTakenOff(a, key, live, live && deployment))
               && (key in r["annotations"].entries ==> r["annotations"].entries[key] == a[key]))
  }

  lemma KeysApart()
    ensures "namespace" !in SERVER_KEPT && "annotations" !in SERVER_KEPT && "annotations" != "namespace"
    ensures SERVER_KEPT == SERVER_METADATA
  {
    assert |"namespace"| == 9 && |"annotations"| == 11;
    assert "annotations"[0] == 'a' && "namespace"[0] == 'n';
    assert forall key | key in SERVER_KEPT :: key[0] in {'c', 'd', 'g', 'm', 'r', 's', 'u'};
  }

  lemma MetadataStripsExactly(m: Object, live: bool, deployment: bool, release: string, namespace: string)
    ensures
      var r := StripMetadata(m, live, deployment, release, namespace);
      && (r.Some? <==> "annotations" in m && m["annotations"].Map? ==>
            AnnotationsAreRight(m["annotations"].entries, live && deployment, release, namespace))
      && (r.Some? ==> MetadataIsStripped(m, r.value, live, deployment, namespace))
  {
    KeysApart();
    if HasObject(m, "annotations") {
      AnnotationsAreStripped(m["annotations"].entries, live, deployment, release, namespace);
    }
  }

  /** A document can be stripped exactly when it has metadata and what its annotations say is right; it then
      loses its status, and its metadata what the server and Helm keep there, and nothing else. */
  lemma StripsExactly(doc: Object, live: bool, release: string, namespace: string)
    ensures
      var r := Strip(doc, live, release, namespace);
      var deployment := "kind" in doc && doc["kind"] == Str("Deployment");
      && (r.Some? <==>
            && "metadata" in doc && doc["metadata"].Map?
            && var m := doc["metadata"].entries;
               "annotations" in m && m["annotations"].Map? ==>
                 AnnotationsAreRight(m["annotations"].entries, live && deployment, release, namespace))
      && (r.Some? ==>
            && r.value - {"metadata"} == doc - {"status", "metadata"}
            && "metadata" in r.value && r.value["metadata"].Map?
            && MetadataIsStripped(
                 doc["metadata"].entries, r.value["metadata"].entries, live, live && deployment, namespace))
  {
    if HasObject(doc, "metadata") {
      var deployment := live && KindOf(doc).Deployment?;
      assert "metadata" != "status" by { assert |"metadata"| == 8 && |"status"| == 6; }
      MetadataStripsExactly(doc["metadata"].entries, live, deployment, release, namespace);
    }
  }
}
