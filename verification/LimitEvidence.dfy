/**
 * Dated evidence of the price-limit pools: the store, the resolution of a trading session and the one before
 * it, and the promotion of one session's limit-up members into the next. Dates are day ordinals.
 */
module LimitEvidence {
  import opened Common

  // ---------------------------------------------------------------- the dated store

  type Date = int

  /** Monday is 0; ordinal 1 is a Monday. */
  function Weekday(d: Date): int { (d + 6) % 7 }

  datatype Session = Session(isSession: bool, actual: Option<Date>, previous: Option<Date>)

  datatype Status = Okay | Fallback | Degraded | Insufficient | Failed | Partial | Missing | OtherStatus

  datatype Metric = LimitUpCount | LimitDownCount | FailedLimitUpRatio | PromotionRatio | MaxStreak

  /** What a payload holds for a metric: nothing, something that is not a finite number, or a number. */
  datatype Value = Absent | NotNumeric | Number(value: real)

  /** The `quality` mapping of a payload; an absent or empty status or warning is none. */
  datatype Quality = Quality(status: Option<Status>, checksum: Option<string>, stale: bool, warned: bool)

  datatype Payload = Payload(values: map<Metric, Value>, quality: Option<Quality>)

  /** A retained warning may be there and empty, which is not the same as none. */
  datatype Warning = NoWarning | EmptyWarning | SomeWarning

  datatype Snapshot = Snapshot(status: Status, warning: Warning, payload: Payload)

  datatype Manifest = Manifest(
    membershipComplete: bool,
    streakComplete: bool,
    actual: Option<Date>,
    ruleVersion: string,
    checksum: string,
    poolQuality: map<string, Status>)

  datatype Fact = Fact(
    id: string,
    pool: string,
    membershipValid: bool,
    closed: Option<bool>,
    streak: Option<int>,
    exchange: Option<string>,
    regime: Option<string>,
    board: Option<string>,
    isSt: Option<bool>,
    isNew: Option<bool>,
    listingDays: Option<int>)

  datatype Store = Store(
    sessions: map<Date, Session>,
    snapshots: map<Date, Snapshot>,
    manifests: map<Date, Manifest>,
    facts: map<Date, seq<Fact>>)

  function SessionAt(store: Store, d: Date): Option<Session> {
    if d in store.sessions then Some(store.sessions[d]) else None
  }

  function SnapshotAt(store: Store, d: Date): Option<Snapshot> {
    if d in store.snapshots then Some(store.snapshots[d]) else None
  }

  function ManifestAt(store: Store, d: Date): Option<Manifest> {
    if d in store.manifests then Some(store.manifests[d]) else None
  }

  function FactsAt(store: Store, d: Date): seq<Fact> { if d in store.facts then store.facts[d] else [] }

  /** One fact a security and pool, which the fact table's primary key makes sure of on each day. */
  ghost predicate OneFactAPool(facts: seq<Fact>) {
    forall i, j | 0 <= i < j < |facts| :: facts[i].id != facts[j].id || facts[i].pool != facts[j].pool
  }

  ghost predicate Keyed(store: Store) { forall d | d in store.facts :: OneFactAPool(store.facts[d]) }

  /** The stores hold the same of everything dated at or before a day. */
  ghost predicate AgreeUpTo(a: Store, b: Store, d: Date) {
    forall x | x <= d :: AgreeAt(a, b, x)
  }

  ghost predicate AgreeAt(a: Store, b: Store, x: Date) {
    SessionAt(a, x) == SessionAt(b, x) && SnapshotAt(a, x) == SnapshotAt(b, x) && ManifestAt(a, x) == ManifestAt(b, x)
    && FactsAt(a, x) == FactsAt(b, x)
  }

  // ---------------------------------------------------------------- rounding

  /** Rounded to four decimals, ties to the even neighbour. */
  function Round4(x: real): real {
    var scaled := x * 10000.0;
    var down := scaled.Floor;
    var rest := scaled - down as real;
    (if rest < 0.5 || (rest == 0.5 && down % 2 == 0) then down else down + 1) as real / 10000.0
  }

  lemma Round4IsMonotone(x: real, y: real)
    requires x <= y
    ensures Round4(x) <= Round4(y)
  {
    var a, b := x * 10000.0, y * 10000.0;
    assert a.Floor <= b.Floor;
  }

  lemma Round4OfBounds()
    ensures Round4(0.0) == 0.0 && Round4(1.0) == 1.0
  {
  }

  /** Rounding goes to the nearest of the numbers of four decimals, and to the even one between two. */
  lemma RoundsToNearest(x: real)
    ensures
      var tenths := (Round4(x) * 10000.0).Floor;
      && Round4(x) == tenths as real / 10000.0 && -0.00005 <= Round4(x) - x <= 0.00005
      && (Round4(x) - x == 0.00005 || x - Round4(x) == 0.00005 ==> tenths % 2 == 0)
  {
  }

  /** A share of a whole, rounded, lies between 0 and 1. */
  lemma RoundedShare(part: nat, whole: nat)
    requires part <= whole && whole > 0
    ensures 0.0 <= Round4(part as real / whole as real) <= 1.0
  {
    var share := part as real / whole as real;
    assert 0.0 <= share <= 1.0;
    Round4IsMonotone(0.0, share);
    Round4IsMonotone(share, 1.0);
    Round4OfBounds();
  }

  // ---------------------------------------------------------------- sessions

  datatype Reason =
    | Weekend
    | MissingActualDate
    | DateMismatch
    | MissingSession
    | NotASession
    | MissingPrevious
    | PreviousOrder
    | PreviousUnavailable
    | PreviousMismatch
    | MissingDataset
    | IncompleteSample
    | UnboundAggregate
    | ZeroDenominator
    | DegradedSample
    | CompleteSample

  /** Resolved when there is no reason against it. */
  datatype Resolution = Resolution(actual: Option<Date>, previous: Option<Date>, refused: Option<Reason>)

  /** What is wrong with an actual date, when it should be the requested one. */
  function DateProblem(requested: Date, actual: Option<Date>): Option<Reason> {
    if actual.None? then Some(MissingActualDate)
    else if actual.value != requested then Some(DateMismatch)
    else None
  }

  datatype Supplied = NotSupplied | Supplied(date: Option<Date>)

  /** The session of a day and, when asked for, the one recorded before it: never searched for. */
  function Resolve(store: Store, requested: Date, supplied: Supplied, requirePrevious: bool): Resolution {
    if Weekday(requested) >= 5 then Resolution(None, None, Some(Weekend))
    else if supplied.Supplied? && DateProblem(requested, supplied.date).Some? then
      Resolution(supplied.date, None, DateProblem(requested, supplied.date))
    else
      var current := SessionAt(store, requested);
      if current.None? then Resolution(if supplied.Supplied? then supplied.date else None, None, Some(MissingSession))
      else if !current.value.isSession then Resolution(current.value.actual, None, Some(NotASession))
      else if DateProblem(requested, current.value.actual).Some? then
        Resolution(current.value.actual, None, DateProblem(requested, current.value.actual))
      else if !requirePrevious then Resolution(current.value.actual, None, None)
      else ResolvePrevious(store, requested, current.value)
  }

  function ResolvePrevious(store: Store, requested: Date, current: Session): Resolution {
    if current.previous.None? then Resolution(current.actual, None, Some(MissingPrevious))
    else
      var previous := current.previous.value;
      if previous >= requested then Resolution(current.actual, Some(previous), Some(PreviousOrder))
      else
        var session := SessionAt(store, previous);
        if session.None? || !session.value.isSession then
          Resolution(current.actual, Some(previous), Some(PreviousUnavailable))
        else if DateProblem(previous, session.value.actual).Some? then
          Resolution(current.actual, Some(previous), Some(PreviousMismatch))
        else Resolution(current.actual, Some(previous), None)
  }

  /** A day whose session and the one recorded before it are both evidenced, as the limits modules ask. */
  function ResolveDay(store: Store, d: Date): Resolution { Resolve(store, d, NotSupplied, true) }

  /** A session the store records as having taken place on its own date. */
  predicate IsEvidenced(store: Store, d: Date) {
    var s := SessionAt(store, d);
    s.Some? && s.value.isSession && s.value.actual == Some(d)
  }

  /** A day resolves exactly when it is a weekday, it and its recorded previous session are evidenced, and
      the previous one is earlier; and then that one is the answer. */
  lemma ResolvesExactly(store: Store, d: Date)
    ensures ResolveDay(store, d).refused.None? <==>
      && Weekday(d) < 5 && IsEvidenced(store, d) && SessionAt(store, d).value.previous.Some?
      && SessionAt(store, d).value.previous.value < d && IsEvidenced(store, SessionAt(store, d).value.previous.value)
    ensures ResolveDay(store, d).refused.None? ==>
      ResolveDay(store, d).actual == Some(d) && ResolveDay(store, d).previous == SessionAt(store, d).value.previous
  {
  }

  /** Day 1 is a Monday, and each day is a weekday on. */
  lemma WeekdaysRecur(d: Date)
    ensures Weekday(1) == 0 && Weekday(d + 1) == if Weekday(d) == 6 then 0 else Weekday(d) + 1
  {
  }

  /** What a day is refused for: a weekend before anything else, then its own session, then the one before. */
  lemma RefusalsAreNamed(store: Store, d: Date)
    ensures
      var refused, s, recorded := ResolveDay(store, d).refused, SessionAt(store, d), d in store.sessions;
      && (refused == Some(Weekend) <==> Weekday(d) in {5, 6})
      && (refused == Some(MissingSession) <==> Weekday(d) < 5 && !recorded)
      && (refused == Some(NotASession) <==> Weekday(d) < 5 && recorded && !s.value.isSession)
      && (Weekday(d) < 5 && recorded && s.value.isSession ==>
            && (refused == Some(MissingActualDate) <==> s.value.actual.None?)
            && (refused == Some(DateMismatch) <==> s.value.actual.Some? && s.value.actual != Some(d)))
      && (Weekday(d) < 5 && IsEvidenced(store, d) ==>
            && (refused == Some(MissingPrevious) <==> s.value.previous.None?)
            && (s.value.previous.Some? ==>
                  var p := s.value.previous.value;
                  && (refused == Some(PreviousOrder) <==> p >= d)
                  && (refused == Some(PreviousUnavailable) <==>
                        p < d && !(p in store.sessions && store.sessions[p].isSession))
                  && (refused == Some(PreviousMismatch) <==>
                        p < d && p in store.sessions && store.sessions[p].isSession
                        && store.sessions[p].actual != Some(p))))
  {
  }

  // ---------------------------------------------------------------- promotion

  const RULE_VERSION := "limits-promotion-v2"

  datatype Promotion = Promotion(
    promoted: Option<nat>,
    eligible: Option<nat>,
    ratio: Option<real>,
    previous: Option<Date>,
    status: Status,
    reason: Reason)

  function NoPromotion(previous: Option<Date>, reason: Reason): Promotion {
    Promotion(None, None, None, previous, Insufficient, reason)
  }

  /** A valid member of the limit-up pool that closed at its limit. */
  predicate IsClosedLimitUp(f: Fact) { f.pool == "limit_up" && f.membershipValid && f.closed == Some(true) }

  function Members(facts: seq<Fact>): set<string> { set f | f in facts && IsClosedLimitUp(f) :: f.id }

  predicate IsComplete(m: Manifest, d: Date) {
    m.membershipComplete && m.actual == Some(d) && m.ruleVersion == RULE_VERSION
  }

  /** The snapshot's own quality carries the manifest's checksum. */
  predicate IsBound(s: Option<Snapshot>, m: Manifest) {
    s.Some? && s.value.payload.quality.Some? && s.value.payload.quality.value.checksum == Some(m.checksum)
  }

  predicate IsDegraded(s: Snapshot) { s.status in {Fallback, Degraded} || s.warning.SomeWarning? }

  predicate QualityDegraded(q: Quality) { q.status in {Some(Fallback), Some(Degraded)} || q.stale || q.warned }

  predicate PoolsDegraded(m: Manifest) {
    exists k | k in m.poolQuality :: m.poolQuality[k] in {Fallback, Degraded, Partial}
  }

  /** What the store holds of one day's pools. */
  datatype Evidence = Evidence(manifest: Option<Manifest>, snapshot: Option<Snapshot>, facts: seq<Fact>)

  function EvidenceAt(store: Store, d: Date): Evidence {
    Evidence(ManifestAt(store, d), SnapshotAt(store, d), FactsAt(store, d))
  }

  /** Why two days' evidence gives no sample, if it does not. */
  function SampleProblem(d: Date, p: Date, now: Evidence, before: Evidence): Option<Reason> {
    if now.manifest.None? || before.manifest.None? then Some(MissingDataset)
    else if !IsComplete(before.manifest.value, p) || !IsComplete(now.manifest.value, d) then Some(IncompleteSample)
    else if !IsBound(before.snapshot, before.manifest.value) || !IsBound(now.snapshot, now.manifest.value) then
      Some(UnboundAggregate)
    else None
  }

  predicate EvidenceDegraded(e: Evidence) {
    (e.snapshot.Some? && IsDegraded(e.snapshot.value)) || (e.manifest.Some? && PoolsDegraded(e.manifest.value))
  }

  /** The members of the day before that are members again. */
  function JoinMembers(p: Date, now: seq<Fact>, before: seq<Fact>, degraded: bool): Promotion {
    var eligible := Members(before);
    var promoted := eligible * Members(now);
    if |eligible| == 0 then Promotion(Some(0), Some(0), None, Some(p), Insufficient, ZeroDenominator)
    else
      Promotion(
        Some(|promoted|), Some(|eligible|), Some(Round4(|promoted| as real / |eligible| as real)), Some(p),
        if degraded then Degraded else Okay, if degraded then DegradedSample else CompleteSample)
  }

  function PromotionFrom(d: Date, p: Date, now: Evidence, before: Evidence, quality: Option<Quality>): Promotion {
    var problem := SampleProblem(d, p, now, before);
    if problem.Some? then NoPromotion(Some(p), problem.value)
    else
      var degraded := (quality.Some? && QualityDegraded(quality.value)) || EvidenceDegraded(before)
        || EvidenceDegraded(now);
      JoinMembers(p, now.facts, before.facts, degraded)
  }

  function BuildPromotion(store: Store, d: Date, quality: Option<Quality>): Promotion {
    var resolution := ResolveDay(store, d);
    if resolution.refused.Some? then NoPromotion(resolution.previous, resolution.refused.value)
    else if resolution.previous.None? then NoPromotion(None, MissingSession)
    else
      var p := resolution.previous.value;
      PromotionFrom(d, p, EvidenceAt(store, d), EvidenceAt(store, p), quality)
  }

  /** Counts when both are there or neither is; the promoted never exceed the eligible; a ratio, of a
      non-empty sample only, is a share. */
  ghost predicate CountsAreSound(r: Promotion) {
    && (r.promoted.Some? <==> r.eligible.Some?)
    && (r.eligible.Some? ==> r.promoted.value <= r.eligible.value && (r.ratio.Some? <==> r.eligible.value > 0))
    && (r.ratio.Some? <==> r.status in {Okay, Degraded})
    && (r.ratio.Some? ==> r.eligible.Some? && 0.0 <= r.ratio.value <= 1.0)
    && (r.promoted.Some? <==> r.ratio.Some? || r.reason.ZeroDenominator?)
  }

  lemma JoinIsSound(p: Date, now: seq<Fact>, before: seq<Fact>, degraded: bool)
    ensures CountsAreSound(JoinMembers(p, now, before, degraded))
    ensures JoinMembers(p, now, before, degraded).eligible == Some(|Members(before)|)
    ensures JoinMembers(p, now, before, degraded).promoted == Some(|Members(before) * Members(now)|)
  {
    var eligible, promoted := Members(before), Members(before) * Members(now);
    SubsetIsSmaller(promoted, eligible);
    if |eligible| > 0 { RoundedShare(|promoted|, |eligible|); }
  }

  /** Every promotion's counts are sound, and they are of two evidenced sessions with complete, bound
      datasets, the earlier being the one recorded as previous. */
  lemma PromotionIsSound(store: Store, d: Date, quality: Option<Quality>)
    ensures
      var r := BuildPromotion(store, d, quality);
      var p := ResolveDay(store, d).previous;
      && CountsAreSound(r)
      && (r.promoted.Some? <==>
          ResolveDay(store, d).refused.None?
            && SampleProblem(d, p.value, EvidenceAt(store, d), EvidenceAt(store, p.value)).None?)
      && (r.promoted.Some? ==>
          && r.previous == p && r.eligible == Some(|Members(FactsAt(store, p.value))|)
          && r.promoted == Some(|Members(FactsAt(store, p.value)) * Members(FactsAt(store, d))|))
  {
    var p := ResolveDay(store, d).previous;
    if ResolveDay(store, d).refused.None? {
      JoinIsSound(p.value, FactsAt(store, d), FactsAt(store, p.value), true);
      JoinIsSound(p.value, FactsAt(store, d), FactsAt(store, p.value), false);
    }
  }

  /** The ids of a day's valid limit-up members that closed at their limit. */
  ghost predicate AreMembers(ids: set<string>, facts: seq<Fact>) {
    forall id :: id in ids <==>
      exists f :: f in facts && f.id == id && f.pool == "limit_up" && f.membershipValid && f.closed == Some(true)
  }

  /** A day's dataset is complete for that day and under this rule, and its snapshot's quality carries its
      checksum. */
  ghost predicate IsUsableSample(store: Store, d: Date) {
    && IsCompleteSample(store, d) && d in store.snapshots
    && store.snapshots[d].payload.quality.Some?
    && store.snapshots[d].payload.quality.value.checksum == Some(store.manifests[d].checksum)
  }

  ghost predicate IsCompleteSample(store: Store, d: Date) {
    && d in store.manifests && store.manifests[d].membershipComplete && store.manifests[d].actual == Some(d)
    && store.manifests[d].ruleVersion == "limits-promotion-v2"
  }

  /** A day's snapshot or pools stood in for better ones. */
  ghost predicate StandsIn(store: Store, d: Date)
    requires d in store.snapshots && d in store.manifests
  {
    || store.snapshots[d].status in {Fallback, Degraded} || store.snapshots[d].warning.SomeWarning?
    || exists pool :: pool in store.manifests[d].poolQuality
         && store.manifests[d].poolQuality[pool] in {Fallback, Degraded, Partial}
  }

  lemma MembersAre(ids: set<string>, facts: seq<Fact>)
    requires AreMembers(ids, facts)
    ensures ids == Members(facts)
  {
  }

  lemma SampleIsUsable(store: Store, d: Date, p: Date)
    ensures
      SampleProblem(d, p, EvidenceAt(store, d), EvidenceAt(store, p)) ==
      if d !in store.manifests || p !in store.manifests then Some(MissingDataset)
      else if !IsCompleteSample(store, d) || !IsCompleteSample(store, p) then Some(IncompleteSample)
      else if !IsUsableSample(store, d) || !IsUsableSample(store, p) then Some(UnboundAggregate)
      else None
  {
  }

  lemma StandInsDegrade(store: Store, d: Date)
    requires d in store.snapshots && d in store.manifests
    ensures EvidenceDegraded(EvidenceAt(store, d)) <==> StandsIn(store, d)
  {
  }

  /** The promotion of a resolved day in full: refused without two datasets, complete and bound ones, in that
      order; without a ratio when nobody was a member; and otherwise the rounded share of the earlier day's
      members that are members again, degraded when the day's quality or either day's evidence is. */
  lemma PromotionIsShareOfMembers(
    store: Store, d: Date, quality: Option<Quality>, p: Date, yesterday: set<string>, today: set<string>)
    requires ResolveDay(store, d).refused.None? && ResolveDay(store, d).previous == Some(p)
    requires AreMembers(yesterday, FactsAt(store, p)) && AreMembers(today, FactsAt(store, d))
    ensures
      var usable := IsUsableSample(store, d) && IsUsableSample(store, p);
      var stale := quality.Some?
        && (quality.value.status in {Some(Fallback), Some(Degraded)} || quality.value.stale || quality.value.warned);
      BuildPromotion(store, d, quality) ==
      if d !in store.manifests || p !in store.manifests then
        Promotion(None, None, None, Some(p), Insufficient, MissingDataset)
      else if !IsCompleteSample(store, d) || !IsCompleteSample(store, p) then
        Promotion(None, None, None, Some(p), Insufficient, IncompleteSample)
      else if !usable then
        Promotion(None, None, None, Some(p), Insufficient, UnboundAggregate)
      else if yesterday == {} then
        Promotion(Some(0), Some(0), None, Some(p), Insufficient, ZeroDenominator)
      else
        var ratio := Round4(|yesterday * today| as real / |yesterday| as real);
        var standsIn := stale || StandsIn(store, d) || StandsIn(store, p);
        Promotion(
          Some(|yesterday * today|), Some(|yesterday|), Some(ratio), Some(p), if standsIn then Degraded else Okay,
          if standsIn then DegradedSample else CompleteSample)
  {
    MembersAre(yesterday, FactsAt(store, p));
    MembersAre(today, FactsAt(store, d));
    SampleIsUsable(store, d, p);
    if IsUsableSample(store, d) && IsUsableSample(store, p) {
      StandInsDegrade(store, d);
      StandInsDegrade(store, p);
    }
  }

  lemma SubsetIsSmaller<T>(a: set<T>, b: set<T>)
    requires a <= b
    ensures |a| <= |b|
  {
    assert b == a + (b - a);
    assert |a + (b - a)| == |a| + |b - a|;
  }

  /** Nothing dated after the day matters to its promotion. */
  lemma PromotionLooksBack(a: Store, b: Store, d: Date, quality: Option<Quality>)
    requires AgreeUpTo(a, b, d)
    ensures ResolveDay(a, d) == ResolveDay(b, d) && BuildPromotion(a, d, quality) == BuildPromotion(b, d, quality)
  {
    assert AgreeAt(a, b, d);
    var s := SessionAt(a, d);
    if s.Some? && s.value.previous.Some? && s.value.previous.value < d { assert AgreeAt(a, b, s.value.previous.value); }
  }
}
