/**
 * Which documents a release comparison is about, and what its verdict means for them: stated on the documents
 * themselves, by their kind, labels, namespace and name.
 */
module ReleaseDocuments {
  import opened Common
  import opened ReleaseTrees
  import opened ReleasePaths
  import opened ReleaseNormalisation
  import opened ReleaseComparison
  import opened ReleaseAcceptance

  /** The document's kind is one of those compared. */
  predicate IsCompared(doc: Object, kinds: map<string, string>) {
    exists kind | kind in kinds :: "kind" in doc && doc["kind"] == Str(kind)
  }

  /** It belongs to the release: by its label, its namespace, which a desired one may leave out, and the API
      version of its kind; and it has a name. */
  predicate IsInOrder(doc: Object, desired: bool, release: string, namespace: string, kinds: map<string, string>)
    requires IsCompared(doc, kinds)
  {
    && "metadata" in doc && doc["metadata"].Map?
    && var m := doc["metadata"].entries;
       && "labels" in m && m["labels"].Map? && "app.kubernetes.io/instance" in m["labels"].entries
       && m["labels"].entries["app.kubernetes.io/instance"] == Str(release)
       && (if "namespace" in m && m["namespace"] != Null then m["namespace"] == Str(namespace)
           else desired)
       && "name" in m && m["name"].Str? && m["name"].text != ""
       && "apiVersion" in doc && doc["apiVersion"] == Str(kinds[doc["kind"].text])
  }

  /** The kind and the name of a document that has both. */
  function TitleOf(doc: Object): (string, string) {
    if && "kind" in doc && doc["kind"].Str? && "metadata" in doc && doc["metadata"].Map?
       && "name" in doc["metadata"].entries && doc["metadata"].entries["name"].Str?
    then (doc["kind"].text, doc["metadata"].entries["name"].text)
    else ("", "")
  }

  /** A document is passed over exactly when its kind is not compared, refused exactly when it is not in order,
      and otherwise stands under its API version, kind, namespace and name. */
  lemma DocumentIsTracked(
    doc: Object, desired: bool, release: string, namespace: string, kinds: map<string, string>)
    ensures
      if !IsCompared(doc, kinds) then Examine(doc, desired, release, namespace, kinds) == Untracked
      else if !IsInOrder(doc, desired, release, namespace, kinds) then
        Examine(doc, desired, release, namespace, kinds) == Invalid
      else
        var (kind, name) := TitleOf(doc);
        kind in kinds && Examine(doc, desired, release, namespace, kinds) ==
        Tracked(ResourceKey(kinds[kind], kind, namespace, name))
  {
  }

  /** Every compared document is in order, and no two have one kind and name. */
  ghost predicate AllInOrder(
    docs: seq<Object>, desired: bool, release: string, namespace: string, kinds: map<string, string>) {
    && (forall i | 0 <= i < |docs| :: IsFine(docs[i], desired, release, namespace, kinds))
    && (forall i, j | 0 <= i < j < |docs| :: AreApart(docs[i], docs[j], kinds))
  }

  predicate IsFine(doc: Object, desired: bool, release: string, namespace: string, kinds: map<string, string>) {
    IsCompared(doc, kinds) ==> IsInOrder(doc, desired, release, namespace, kinds)
  }

  predicate AreApart(a: Object, b: Object, kinds: map<string, string>) {
    IsCompared(a, kinds) && IsCompared(b, kinds) ==> TitleOf(a) != TitleOf(b)
  }

  lemma OneMore(docs: seq<Object>, desired: bool, release: string, namespace: string, kinds: map<string, string>)
    requires docs != []
    ensures
      var front, last := docs[..|docs| - 1], docs[|docs| - 1];
      AllInOrder(docs, desired, release, namespace, kinds) <==>
        && AllInOrder(front, desired, release, namespace, kinds)
        && IsFine(last, desired, release, namespace, kinds)
        && forall i | 0 <= i < |front| :: AreApart(front[i], last, kinds)
  {
    var front, last := docs[..|docs| - 1], docs[|docs| - 1];
    forall i | 0 <= i < |front| ensures front[i] == docs[i] {}
  }

  /** A tracked document's key is taken exactly when an earlier one has its kind and name. */
  lemma KeyIsTaken(
    front: seq<Object>, last: Object, desired: bool, release: string, namespace: string, kinds: map<string, string>)
    requires Index(front, desired, release, namespace, kinds).Some?
    requires Examine(last, desired, release, namespace, kinds).Tracked?
    ensures
      Examine(last, desired, release, namespace, kinds).key in Index(front, desired, release, namespace, kinds).value
      <==> exists i | 0 <= i < |front| :: !AreApart(front[i], last, kinds)
  {
    var index := Index(front, desired, release, namespace, kinds).value;
    var key := Examine(last, desired, release, namespace, kinds).key;
    IndexHolds(front, desired, release, namespace, kinds);
    DocumentIsTracked(last, desired, release, namespace, kinds);
    if key in index {
      DocumentIsTracked(index[key], desired, release, namespace, kinds);
      var i :| 0 <= i < |front| && front[i] == index[key];
      assert !AreApart(front[i], last, kinds);
    }
    if i :| 0 <= i < |front| && !AreApart(front[i], last, kinds) {
      DocumentIsTracked(front[i], desired, release, namespace, kinds);
      assert !Examine(front[i], desired, release, namespace, kinds).Invalid?;
    }
  }

  /** The index exists exactly when all is in order. */
  lemma {:induction false} IndexIffAllInOrder(
    docs: seq<Object>, desired: bool, release: string, namespace: string, kinds: map<string, string>)
    ensures Index(docs, desired, release, namespace, kinds).Some? <==>
      AllInOrder(docs, desired, release, namespace, kinds)
  {
    if docs != [] {
      var front, last := docs[..|docs| - 1], docs[|docs| - 1];
      IndexIffAllInOrder(front, desired, release, namespace, kinds);
      OneMore(docs, desired, release, namespace, kinds);
      DocumentIsTracked(last, desired, release, namespace, kinds);
      if Index(front, desired, release, namespace, kinds).Some? && IsCompared(last, kinds) {
        if IsFine(last, desired, release, namespace, kinds) {
          KeyIsTaken(front, last, desired, release, namespace, kinds);
        }
      }
    }
  }

  /** Two compared documents have one kind and name. */
  ghost predicate AreCounterparts(a: Object, b: Object, kinds: map<string, string>) {
    IsCompared(a, kinds) && IsCompared(b, kinds) && TitleOf(a) == TitleOf(b)
  }

  /** Every compared document of one side has a counterpart on the other. */
  ghost predicate LiveIsDesired(live: seq<Object>, desired: seq<Object>, kinds: map<string, string>) {
    forall i | 0 <= i < |live| && IsCompared(live[i], kinds) ::
      exists j | 0 <= j < |desired| :: AreCounterparts(live[i], desired[j], kinds)
  }

  ghost predicate DesiredIsLive(live: seq<Object>, desired: seq<Object>, kinds: map<string, string>) {
    forall j | 0 <= j < |desired| && IsCompared(desired[j], kinds) ::
      exists i | 0 <= i < |live| :: AreCounterparts(live[i], desired[j], kinds)
  }

  ghost predicate CounterpartsAccepted(
    live: seq<Object>, desired: seq<Object>, release: string, namespace: string, kinds: map<string, string>) {
    forall i, j | 0 <= i < |live| && 0 <= j < |desired| && AreCounterparts(live[i], desired[j], kinds) ::
      PairAccepted(live[i], desired[j], release, namespace)
  }

  /** All is in order on both sides, every compared document has a counterpart on the other side, and every two
      counterparts are accepted. */
  ghost predicate MeetsItsDocuments(
    live: seq<Object>, desired: seq<Object>, release: string, namespace: string, kinds: map<string, string>) {
    && AllInOrder(live, false, release, namespace, kinds) && AllInOrder(desired, true, release, namespace, kinds)
    && LiveIsDesired(live, desired, kinds) && DesiredIsLive(live, desired, kinds)
    && CounterpartsAccepted(live, desired, release, namespace, kinds)
  }

  /** Where an index has a document, and what it has. */
  lemma IndexedAt(
    docs: seq<Object>, desired: bool, release: string, namespace: string, kinds: map<string, string>, i: nat)
    returns (key: ResourceKey)
    requires Index(docs, desired, release, namespace, kinds).Some? && i < |docs| && IsCompared(docs[i], kinds)
    ensures
      var (kind, name) := TitleOf(docs[i]);
      kind in kinds && key == ResourceKey(kinds[kind], kind, namespace, name)
    ensures
      var index := Index(docs, desired, release, namespace, kinds).value;
      key in index && index[key] == docs[i]
  {
    IndexHolds(docs, desired, release, namespace, kinds);
    DocumentIsTracked(docs[i], desired, release, namespace, kinds);
    assert !Examine(docs[i], desired, release, namespace, kinds).Invalid?;
    key := Examine(docs[i], desired, release, namespace, kinds).key;
  }

  lemma DocumentOf(
    docs: seq<Object>, desired: bool, release: string, namespace: string, kinds: map<string, string>, key: ResourceKey)
    returns (i: nat)
    requires Index(docs, desired, release, namespace, kinds).Some?
    requires key in Index(docs, desired, release, namespace, kinds).value
    ensures i < |docs| && docs[i] == Index(docs, desired, release, namespace, kinds).value[key]
    ensures IsCompared(docs[i], kinds) && TitleOf(docs[i]) == (key.kind, key.name)
    ensures key.kind in kinds && key == ResourceKey(kinds[key.kind], key.kind, namespace, key.name)
  {
    var index := Index(docs, desired, release, namespace, kinds).value;
    IndexHolds(docs, desired, release, namespace, kinds);
    i :| 0 <= i < |docs| && docs[i] == index[key];
    DocumentIsTracked(docs[i], desired, release, namespace, kinds);
  }

  /** Counterparts stand under one key. */
  lemma CounterpartsShareKey(
    live: seq<Object>, desired: seq<Object>, release: string, namespace: string, kinds: map<string, string>,
    i: nat, j: nat)
    returns (key: ResourceKey)
    requires Index(live, false, release, namespace, kinds).Some?
    requires Index(desired, true, release, namespace, kinds).Some?
    requires i < |live| && j < |desired| && AreCounterparts(live[i], desired[j], kinds)
    ensures
      var l := Index(live, false, release, namespace, kinds).value;
      var d := Index(desired, true, release, namespace, kinds).value;
      key in l && key in d && l[key] == live[i] && d[key] == desired[j]
  {
    key := IndexedAt(live, false, release, namespace, kinds, i);
    var other := IndexedAt(desired, true, release, namespace, kinds, j);
  }

  /** A document and the other side's document under its key are counterparts. */
  lemma KeySharersAreCounterparts(
    live: seq<Object>, desired: seq<Object>, release: string, namespace: string, kinds: map<string, string>,
    key: ResourceKey)
    returns (i: nat, j: nat)
    requires Index(live, false, release, namespace, kinds).Some?
    requires Index(desired, true, release, namespace, kinds).Some?
    requires key in Index(live, false, release, namespace, kinds).value
    requires key in Index(desired, true, release, namespace, kinds).value
    ensures i < |live| && j < |desired| && AreCounterparts(live[i], desired[j], kinds)
    ensures live[i] == Index(live, false, release, namespace, kinds).value[key]
    ensures desired[j] == Index(desired, true, release, namespace, kinds).value[key]
  {
    i := DocumentOf(live, false, release, namespace, kinds, key);
    j := DocumentOf(desired, true, release, namespace, kinds, key);
  }

  lemma KeysMeetIffDocumentsDo(
    live: seq<Object>, desired: seq<Object>, release: string, namespace: string, kinds: map<string, string>)
    requires Index(live, false, release, namespace, kinds).Some?
    requires Index(desired, true, release, namespace, kinds).Some?
    ensures
      var l := Index(live, false, release, namespace, kinds).value;
      var d := Index(desired, true, release, namespace, kinds).value;
      && (l.Keys <= d.Keys <==> LiveIsDesired(live, desired, kinds))
      && (d.Keys <= l.Keys <==> DesiredIsLive(live, desired, kinds))
  {
    var l := Index(live, false, release, namespace, kinds).value;
    var d := Index(desired, true, release, namespace, kinds).value;
    if l.Keys <= d.Keys {
      forall i | 0 <= i < |live| && IsCompared(live[i], kinds)
        ensures exists j | 0 <= j < |desired| :: AreCounterparts(live[i], desired[j], kinds)
      {
        var key := IndexedAt(live, false, release, namespace, kinds, i);
        var j := DocumentOf(desired, true, release, namespace, kinds, key);
        assert AreCounterparts(live[i], desired[j], kinds);
      }
    }
    if d.Keys <= l.Keys {
      forall j | 0 <= j < |desired| && IsCompared(desired[j], kinds)
        ensures exists i | 0 <= i < |live| :: AreCounterparts(live[i], desired[j], kinds)
      {
        var key := IndexedAt(desired, true, release, namespace, kinds, j);
        var i := DocumentOf(live, false, release, namespace, kinds, key);
        assert AreCounterparts(live[i], desired[j], kinds);
      }
    }
    if LiveIsDesired(live, desired, kinds) {
      forall key | key in l ensures key in d { LiveKeyIsDesired(live, desired, release, namespace, kinds, key); }
    }
    if DesiredIsLive(live, desired, kinds) {
      forall key | key in d ensures key in l { DesiredKeyIsLive(live, desired, release, namespace, kinds, key); }
    }
  }

  lemma LiveKeyIsDesired(
    live: seq<Object>, desired: seq<Object>, release: string, namespace: string, kinds: map<string, string>,
    key: ResourceKey)
    requires Index(live, false, release, namespace, kinds).Some?
    requires Index(desired, true, release, namespace, kinds).Some?
    requires LiveIsDesired(live, desired, kinds) && key in Index(live, false, release, namespace, kinds).value
    ensures key in Index(desired, true, release, namespace, kinds).value
  {
    var i := DocumentOf(live, false, release, namespace, kinds, key);
    var j :| 0 <= j < |desired| && AreCounterparts(live[i], desired[j], kinds);
    var other := IndexedAt(desired, true, release, namespace, kinds, j);
    assert other == key;
  }

  lemma DesiredKeyIsLive(
    live: seq<Object>, desired: seq<Object>, release: string, namespace: string, kinds: map<string, string>,
    key: ResourceKey)
    requires Index(live, false, release, namespace, kinds).Some?
    requires Index(desired, true, release, namespace, kinds).Some?
    requires DesiredIsLive(live, desired, kinds) && key in Index(desired, true, release, namespace, kinds).value
    ensures key in Index(live, false, release, namespace, kinds).value
  {
    var j := DocumentOf(desired, true, release, namespace, kinds, key);
    var i :| 0 <= i < |live| && AreCounterparts(live[i], desired[j], kinds);
    var other := IndexedAt(live, false, release, namespace, kinds, i);
    assert other == key;
  }

  lemma PairsMeetIffDocumentsDo(
    live: seq<Object>, desired: seq<Object>, release: string, namespace: string, kinds: map<string, string>)
    requires Index(live, false, release, namespace, kinds).Some?
    requires Index(desired, true, release, namespace, kinds).Some?
    ensures
      var l := Index(live, false, release, namespace, kinds).value;
      var d := Index(desired, true, release, namespace, kinds).value;
      (forall k | k in l && k in d :: PairAccepted(l[k], d[k], release, namespace)) <==>
      CounterpartsAccepted(live, desired, release, namespace, kinds)
  {
    var l := Index(live, false, release, namespace, kinds).value;
    var d := Index(desired, true, release, namespace, kinds).value;
    if forall k | k in l && k in d :: PairAccepted(l[k], d[k], release, namespace) {
      forall i, j | 0 <= i < |live| && 0 <= j < |desired| && AreCounterparts(live[i], desired[j], kinds)
        ensures PairAccepted(live[i], desired[j], release, namespace)
      {
        var key := CounterpartsShareKey(live, desired, release, namespace, kinds, i, j);
      }
    }
    if CounterpartsAccepted(live, desired, release, namespace, kinds) {
      forall k | k in l && k in d ensures PairAccepted(l[k], d[k], release, namespace) {
        var i, j := KeySharersAreCounterparts(live, desired, release, namespace, kinds, k);
      }
    }
  }

  /** The comparison is about exactly the documents of the compared kinds. */
  lemma ReleaseAcceptedIffDocumentsMeet(
    live: seq<Object>, desired: seq<Object>, release: string, namespace: string, kinds: map<string, string>)
    ensures ReleaseAccepted(live, desired, release, namespace, kinds) <==>
      MeetsItsDocuments(live, desired, release, namespace, kinds)
  {
    IndexIffAllInOrder(live, false, release, namespace, kinds);
    IndexIffAllInOrder(desired, true, release, namespace, kinds);
    var l := Index(live, false, release, namespace, kinds);
    var d := Index(desired, true, release, namespace, kinds);
    if l.Some? && d.Some? {
      KeysMeetIffDocumentsDo(live, desired, release, namespace, kinds);
      PairsMeetIffDocumentsDo(live, desired, release, namespace, kinds);
      AcceptedByKeys(l.value, d.value, release, namespace);
    }
  }

  lemma AcceptedByKeys(l: map<ResourceKey, Object>, d: map<ResourceKey, Object>, release: string, namespace: string)
    ensures
      (l.Keys == d.Keys && forall k | k in l :: PairAccepted(l[k], d[k], release, namespace)) <==>
      && l.Keys <= d.Keys && d.Keys <= l.Keys
      && forall k | k in l && k in d :: PairAccepted(l[k], d[k], release, namespace)
  {
  }

  predicate HasKind(doc: Object, kind: string) { "kind" in doc && doc["kind"] == Str(kind) }

  lemma CounterpartsAgree(a: Object, b: Object, release: string, namespace: string, kinds: map<string, string>)
    requires IsCompared(a, kinds) && IsInOrder(a, false, release, namespace, kinds)
    requires IsCompared(b, kinds) && IsInOrder(b, true, release, namespace, kinds)
    requires PairAccepted(a, b, release, namespace)
    ensures Agree(a, b, release, namespace)
  {
    DocumentIsTracked(a, false, release, namespace, kinds);
    DocumentIsTracked(b, true, release, namespace, kinds);
    ExaminedNamespaces(a, b, release, namespace, kinds);
    AcceptedPairHidesNothing(a, b, release, namespace);
  }

  /** One kind and name, and agreement on everything explicit. */
  ghost predicate Match(live: Object, desired: Object, kind: string, release: string, namespace: string) {
    && HasKind(live, kind) && HasKind(desired, kind) && TitleOf(live) == TitleOf(desired)
    && Agree(live, desired, release, namespace)
  }

  lemma ComparedKinds(doc: Object)
    ensures IsCompared(doc, TRACKED_KINDS) <==> HasKind(doc, "Service") || HasKind(doc, "Deployment")
    ensures TRACKED_KINDS == map["Service" := "v1", "Deployment" := "apps/v1"]
  {
  }

  /** Every live Service and Deployment of an accepted release is in order, and matches a desired one of its kind
      and name. */
  lemma LiveDocumentHasMatch(
    live: seq<Object>, desired: seq<Object>, release: string, namespace: string, i: nat, kind: string)
    returns (j: nat)
    requires MeetsItsDocuments(live, desired, release, namespace, TRACKED_KINDS) && kind in {"Service", "Deployment"}
    requires i < |live| && HasKind(live[i], kind)
    ensures IsCompared(live[i], TRACKED_KINDS) && IsInOrder(live[i], false, release, namespace, TRACKED_KINDS)
    ensures j < |desired| && Match(live[i], desired[j], kind, release, namespace)
  {
    ComparedKinds(live[i]);
    assert IsFine(live[i], false, release, namespace, TRACKED_KINDS);
    j :| 0 <= j < |desired| && AreCounterparts(live[i], desired[j], TRACKED_KINDS);
    CounterpartsMatch(live, desired, release, namespace, i, j);
  }

  /** And the other way round. */
  lemma DesiredDocumentHasMatch(
    live: seq<Object>, desired: seq<Object>, release: string, namespace: string, j: nat, kind: string)
    returns (i: nat)
    requires MeetsItsDocuments(live, desired, release, namespace, TRACKED_KINDS) && kind in {"Service", "Deployment"}
    requires j < |desired| && HasKind(desired[j], kind)
    ensures IsCompared(desired[j], TRACKED_KINDS) && IsInOrder(desired[j], true, release, namespace, TRACKED_KINDS)
    ensures i < |live| && Match(live[i], desired[j], kind, release, namespace)
  {
    ComparedKinds(desired[j]);
    assert IsFine(desired[j], true, release, namespace, TRACKED_KINDS);
    i :| 0 <= i < |live| && AreCounterparts(live[i], desired[j], TRACKED_KINDS);
    CounterpartsMatch(live, desired, release, namespace, i, j);
  }

  lemma CounterpartsMatch(
    live: seq<Object>, desired: seq<Object>, release: string, namespace: string, i: nat, j: nat)
    requires MeetsItsDocuments(live, desired, release, namespace, TRACKED_KINDS)
    requires i < |live| && j < |desired| && AreCounterparts(live[i], desired[j], TRACKED_KINDS)
    ensures Match(live[i], desired[j], TitleOf(live[i]).0, release, namespace)
    ensures HasKind(live[i], TitleOf(live[i]).0)
  {
    assert IsFine(live[i], false, release, namespace, TRACKED_KINDS);
    assert IsFine(desired[j], true, release, namespace, TRACKED_KINDS);
    CounterpartsAgree(live[i], desired[j], release, namespace, TRACKED_KINDS);
    KindIsTitled(live[i], false, release, namespace, TRACKED_KINDS);
    KindIsTitled(desired[j], true, release, namespace, TRACKED_KINDS);
  }

  lemma KindIsTitled(doc: Object, desired: bool, release: string, namespace: string, kinds: map<string, string>)
    requires IsCompared(doc, kinds) && IsInOrder(doc, desired, release, namespace, kinds)
    ensures HasKind(doc, TitleOf(doc).0)
  {
  }
}
