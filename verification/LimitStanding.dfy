/**
 * Where a day stands: which days of its history are usable observations, the rank of each metric among them,
 * the score of that rank, and the risk rows against the session before, in terms of what the store holds.
 */
module LimitStanding {
  import opened Common
  import opened LimitEvidence
  import opened LimitHistory
  import opened LimitEcosystem
  import opened LimitReport
  import opened LimitMeaning

  // ---------------------------------------------------------------- metrics and usable days

  /** A metric is read exactly from a number that is not negative, whole for a count, and at most 1 for a ratio. */
  lemma MetricIsRead(p: Payload, m: Metric, x: real)
    ensures MetricValue(p, m) == Some(x) <==>
      && m in p.values && p.values[m] == Number(x) && x >= 0.0
      && if m in {LimitUpCount, LimitDownCount, MaxStreak} then x.Floor as real == x else x <= 1.0
  {
  }

  /** A day's own metrics are its snapshot's, but its promotion ratio is always the one rebuilt from facts. */
  lemma PromotionIsRebuilt(p: Payload, r: Promotion, m: Metric)
    requires r.ratio.Some? ==> 0.0 <= r.ratio.value <= 1.0
    ensures MetricValue(WithPromotion(p, r), m) == if m == PromotionRatio then r.ratio else MetricValue(p, m)
  {
  }

  /** The day's snapshot is in order, without a warning, and its details are complete, of the day, and bound. */
  ghost predicate IsInOrder(store: Store, d: Date)
    requires d in store.snapshots
  {
    var s := store.snapshots[d];
    && s.status == Okay && s.warning.NoWarning?
    && d in store.manifests && store.manifests[d].membershipComplete && store.manifests[d].streakComplete
    && store.manifests[d].actual == Some(d)
    && s.payload.quality.Some? && s.payload.quality.value.status in {None, Some(Okay)}
    && s.payload.quality.value.checksum == Some(store.manifests[d].checksum)
  }

  /** A day with a snapshot is a usable observation exactly when it is in order, its promotion is good, and it
      has its other metrics; otherwise it is degraded exactly when something stood in for its data; and its
      values are its metrics, with the promotion ratio rebuilt. */
  lemma DayIsObserved(store: Store, d: Date)
    requires d in store.snapshots
    ensures
      var s := store.snapshots[d];
      var r := BuildPromotion(store, d, s.payload.quality);
      var own := if s.payload.quality.Some? && s.payload.quality.value.status.Some?
                 then s.payload.quality.value.status.value else s.status;
      var usable := IsInOrder(store, d) && r.status == Okay
        && forall m :: m != PromotionRatio ==> MetricValue(s.payload, m).Some?;
      && PointAt(store, d).Some? && PointAt(store, d).value.date == d
      && PointAt(store, d).value.status ==
           (if usable then Okay else if own in {Fallback, Degraded} || s.warning.SomeWarning? then Degraded
            else Insufficient)
      && forall m :: m in PointAt(store, d).value.values
           && PointAt(store, d).value.values[m] == if m == PromotionRatio then r.ratio else MetricValue(s.payload, m)
  {
    var s := store.snapshots[d];
    var r := BuildPromotion(store, d, s.payload.quality);
    PromotionIsSound(store, d, s.payload.quality);
    forall m: Metric
      ensures m in METRICS
      ensures MetricValue(WithPromotion(s.payload, r), m) ==
        if m == PromotionRatio then r.ratio else MetricValue(s.payload, m)
    {
      EveryMetricIsListed(m);
      PromotionIsRebuilt(s.payload, r, m);
    }
  }

  // ---------------------------------------------------------------- ranks among usable days

  ghost function Usable(points: seq<Point>): set<nat> { set i: nat | i < |points| && points[i].status == Okay }

  /** The usable days whose metric is no greater than a value. */
  ghost function UsableUpTo(points: seq<Point>, m: Metric, v: real): set<nat> {
    set i: nat | i in Usable(points)
      && m in points[i].values && points[i].values[m].Some? && points[i].values[m].value <= v
  }

  lemma {:induction false} CountWithLast(values: seq<real>, x: real, v: real)
    ensures CountUpTo(values + [x], v) == CountUpTo(values, v) + if x <= v then 1 else 0
  {
    if values != [] {
      CountWithLast(values[1..], x, v);
      assert (values + [x])[1..] == values[1..] + [x];
    } else {
      assert (values + [x])[1..] == [];
    }
  }

  lemma {:induction false} UsableAreCounted(points: seq<Point>)
    ensures CountOkay(points) == |Usable(points)|
  {
    if points != [] {
      var n := |points| - 1;
      UsableAreCounted(points[..n]);
      if points[n].status == Okay {
        assert Usable(points) == Usable(points[..n]) + {n};
      } else {
        assert Usable(points) == Usable(points[..n]);
      }
    }
  }

  lemma {:induction false} ObservedUpTo(points: seq<Point>, m: Metric, v: real)
    ensures CountUpTo(Observed(points, m), v) == |UsableUpTo(points, m, v)|
  {
    if points != [] {
      var n := |points| - 1;
      var before, p := Observed(points[..n], m), points[n];
      ObservedUpTo(points[..n], m, v);
      UsableUpToGrows(points, m, v);
      if p.status == Okay && m in p.values && p.values[m].Some? { CountWithLast(before, p.values[m].value, v); }
    }
  }

  lemma UsableUpToGrows(points: seq<Point>, m: Metric, v: real)
    requires points != []
    ensures
      var n := |points| - 1;
      |UsableUpTo(points, m, v)| == |UsableUpTo(points[..n], m, v)| + if n in UsableUpTo(points, m, v) then 1 else 0
  {
    var counts := (p: Point) => p.status == Okay && m in p.values && p.values[m].Some? && p.values[m].value <= v;
    UsableUpToArePlaces(points, m, v, counts);
    UsableUpToArePlaces(points[..|points| - 1], m, v, counts);
    PlacesOfLast(points, counts);
  }

  lemma UsableUpToArePlaces(points: seq<Point>, m: Metric, v: real, counts: Point -> bool)
    requires forall p: Point ::
      counts(p) <==> p.status == Okay && m in p.values && p.values[m].Some? && p.values[m].value <= v
    ensures UsableUpTo(points, m, v) == Places(points, counts)
  {
  }

  /** Where a value stands among n usable days of which k are no greater. */
  function Standing(k: nat, n: nat): real
    requires n > 1
  {
    if k == 0 then 0.0 else Round4((k - 1) as real / (n - 1) as real)
  }

  lemma PercentileIsStanding(values: seq<real>, v: real)
    requires |values| > 1
    ensures Percentile(values, Some(v)) == Some(Standing(CountUpTo(values, v), |values|))
  {
    var k, n := CountUpTo(values, v), |values|;
    Round4OfBounds();
    if k > 0 { ShareIsAShare(k - 1, n - 1); } else { NoShare(n - 1); }
  }

  lemma ShareIsAShare(part: nat, whole: nat)
    requires part <= whole && whole > 0
    ensures 0.0 <= part as real / whole as real <= 1.0
  {
  }

  lemma NoShare(whole: nat)
    requires whole > 0
    ensures -1.0 / whole as real <= 0.0
  {
  }

  /** A history counts its usable days, is good from 60 of them on, covers their share of the window, shows the
      latest five in order of date, and ranks each metric of the day among the usable days. */
  ghost predicate IsHistoryOf(h: History, points: seq<Point>, current: Payload) {
    var n := |Usable(points)|;
    && h.valid == n && h.status == (if n >= 60 then Okay else Insufficient)
    && h.coverage == Round4(n as real / 250.0)
    && |h.recent| == (if |points| <= 5 then |points| else 5)
    && (forall i | 0 <= i < |h.recent| :: h.recent[i] == points[|h.recent| - 1 - i])
    && forall m :: IsRanked(h, points, current, m)
  }

  /** The metric has a rank exactly when there are 60 usable days and the day has it: its place among theirs. */
  ghost predicate IsRanked(h: History, points: seq<Point>, current: Payload, m: Metric) {
    var n := |Usable(points)|;
    m in h.percentile && h.percentile[m] ==
      if n >= 60 && MetricValue(current, m).Some?
      then Some(Standing(|UsableUpTo(points, m, MetricValue(current, m).value)|, n))
      else None
  }

  lemma {:induction false} ReversedAt<T>(s: seq<T>, i: nat)
    requires i < |s|
    ensures |Reversed(s)| == |s| && Reversed(s)[i] == s[|s| - 1 - i]
  {
    if |s| > 1 {
      ReversedAt(s[1..], if i < |s| - 1 then i else 0);
    } else {
      assert Reversed(s[1..]) == [];
    }
  }

  lemma RecentAreLatest(points: seq<Point>)
    ensures
      var n := if |points| <= 5 then |points| else 5;
      |Recent(points)| == n && forall i | 0 <= i < n :: Recent(points)[i] == points[n - 1 - i]
  {
    var latest := if |points| <= 5 then points else points[..5];
    if latest != [] { ReversedAt(latest, 0); }
    forall i | 0 <= i < |latest| ensures Recent(points)[i] == points[|latest| - 1 - i] { ReversedAt(latest, i); }
  }

  lemma MetricIsRanked(points: seq<Point>, current: Payload, m: Metric)
    requires |Observed(points, m)| == CountOkay(points) <= |points|
    ensures IsRanked(HistoryFrom(points, current), points, current, m)
  {
    EveryMetricIsListed(m);
    UsableAreCounted(points);
    if |Usable(points)| >= 60 && MetricValue(current, m).Some? {
      var v := MetricValue(current, m).value;
      PercentileIsStanding(Observed(points, m), v);
      ObservedUpTo(points, m, v);
    }
  }

  /** A day's history is that of the chain of sessions recorded before it. */
  lemma HistoryRanksTheDay(store: Store, asOf: Date, current: Payload)
    ensures
      IsHistoryOf(HistoryOf(store, asOf, current), Points(store, Chain(store, asOf, HISTORY_WINDOW_DAYS)), current)
  {
    var window := HISTORY_WINDOW_DAYS;
    var dates := Chain(store, asOf, window);
    forall m: Metric ensures |Observed(Points(store, dates), m)| == CountOkay(Points(store, dates)) {
      UsablePointsHaveEveryMetric(store, dates, m);
    }
    HistoryIsOfPoints(Points(store, dates), current);
  }

  lemma HistoryIsOfPoints(points: seq<Point>, current: Payload)
    requires forall m :: |Observed(points, m)| == CountOkay(points)
    ensures IsHistoryOf(HistoryFrom(points, current), points, current)
  {
    UsableAreCounted(points);
    RecentAreLatest(points);
    forall m: Metric ensures IsRanked(HistoryFrom(points, current), points, current, m) {
      MetricIsRanked(points, current, m);
    }
  }

  // ---------------------------------------------------------------- scores

  const THRESHOLDS: set<real> := {0.2, 0.4, 0.6, 0.8}

  /** How many thresholds a rank passes. */
  ghost function Passed(rank: real): nat { |set t | t in THRESHOLDS && t < rank| }

  /** A score gives 25 for each threshold passed, or for each not passed when a high value is bad. */
  lemma ScoreCountsThresholds(p: real, inverse: bool)
    ensures BandScore(p, inverse) == 25 * if inverse then 4 - Passed(p) else Passed(p)
  {
    var passed := set t | t in THRESHOLDS && t < p;
    if p <= 0.2 {
      assert passed == {};
    } else if p <= 0.4 {
      assert passed == {0.2};
    } else if p <= 0.6 {
      assert passed == {0.2, 0.4};
    } else if p <= 0.8 {
      assert passed == {0.2, 0.4, 0.6};
    } else {
      assert passed == THRESHOLDS;
    }
  }

  /** The report has one row for each metric, with its value; it is scored exactly when the metric has a rank,
      by the thresholds that the rank passes; limit-downs and failed limit-ups score the other way round. */
  lemma RulesScoreRanks(store: Store, d: Date, payload: Payload, i: nat, m: Metric)
    requires IsRow(i, m)
    ensures
      var report := ReportOf(store, d, payload);
      |report.rules| == 5 && m in report.history.percentile &&
      ScoresRank(report.rules[i], m, WithPromotion(payload, report.promotion), report.history)
  {
    var current := WithPromotion(payload, BuildPromotion(store, d, payload.quality));
    MetricHasItsRank(store, d, current, m);
    RulesOfReport(store, d, payload);
    RowIsOfMetric(i, m);
    EvidenceScoresRank(m, current, HistoryOf(store, d, current));
  }

  ghost predicate IsRow(i: nat, m: Metric) {
    || (i == 0 && m == LimitUpCount) || (i == 1 && m == LimitDownCount) || (i == 2 && m == FailedLimitUpRatio)
    || (i == 3 && m == PromotionRatio) || (i == 4 && m == MaxStreak)
  }

  lemma RowIsOfMetric(i: nat, m: Metric)
    requires IsRow(i, m)
    ensures i < |METRICS| && METRICS[i] == m
  {
  }

  /** The row is of the metric, with its value, and scores its rank, if it has one. */
  ghost predicate ScoresRank(e: RuleEvidence, m: Metric, current: Payload, h: History)
    requires m in h.percentile
  {
    && e.metric == m && e.value == MetricValue(current, m)
    && e.score ==
         match h.percentile[m]
         case None => None
         case Some(rank) =>
           Some(25 * if m in {LimitDownCount, FailedLimitUpRatio} then 4 - Passed(rank) else Passed(rank))
  }

  lemma MetricHasItsRank(store: Store, d: Date, current: Payload, m: Metric)
    ensures
      var h := HistoryOf(store, d, current);
      m in h.percentile && (h.percentile[m].Some? ==> h.status == Okay && MetricValue(current, m).Some?)
  {
    PercentilesAreComplete(store, d, current, m);
  }

  lemma RulesOfReport(store: Store, d: Date, payload: Payload)
    ensures
      var report := ReportOf(store, d, payload);
      var current := WithPromotion(payload, BuildPromotion(store, d, payload.quality));
      && report.promotion == BuildPromotion(store, d, payload.quality)
      && report.history == HistoryOf(store, d, current)
      && |report.rules| == |METRICS|
      && forall i | 0 <= i < |METRICS| :: report.rules[i] == EvidenceFor(METRICS[i], current, report.history)
  {
  }

  lemma EvidenceScoresRank(m: Metric, current: Payload, h: History)
    requires m in h.percentile && (h.percentile[m].Some? ==> h.status == Okay && MetricValue(current, m).Some?)
    ensures ScoresRank(EvidenceFor(m, current, h), m, current, h)
  {
    if h.percentile[m].Some? { ScoreCountsThresholds(h.percentile[m].value, IsInverse(m)); }
  }

  // ---------------------------------------------------------------- pools

  ghost predicate IsPool(i: nat, pool: string, group: string) {
    || (i == 0 && pool == "limit_up" && group == "limitUp")
    || (i == 1 && pool == "limit_down" && group == "limitDown")
    || (i == 2 && pool == "failed_limit_up" && group == "failedLimitUp")
  }

  ghost function PoolMembers(facts: seq<Fact>, pool: string): set<nat> {
    set i: nat | i < |facts| && facts[i].pool == pool && facts[i].membershipValid
  }

  /** The status a manifest records for a pool, under the pool's own name or its group's. */
  function Recorded(m: Manifest, pool: string, group: string): Option<Status> {
    if pool in m.poolQuality then Some(m.poolQuality[pool])
    else if group in m.poolQuality then Some(m.poolQuality[group])
    else None
  }

  lemma PoolIsCounted(facts: seq<Fact>, pool: string)
    ensures CountIf(facts, InPool(pool)) == |PoolMembers(facts, pool)|
  {
    CountIsPlaces(facts, InPool(pool));
    assert Places(facts, InPool(pool)) == PoolMembers(facts, pool);
  }

  /** A fallback, a partial or a missing pool is degraded with members and insufficient without; one without a
      known status is as complete as the membership; any other is as recorded. */
  lemma PoolStatusFollowsRecord(m: Manifest, facts: seq<Fact>, pool: string, group: string)
    ensures
      PoolStatus(m, facts, (pool, group)) ==
      match Recorded(m, pool, group)
      case Some(Fallback) | Some(Partial) | Some(Missing) =>
        if |PoolMembers(facts, pool)| > 0 then Degraded else Insufficient
      case None | Some(OtherStatus) => if m.membershipComplete then Okay else Insufficient
      case Some(status) => status
  {
    PoolIsCounted(facts, pool);
  }

  /** The report has one total and one status for each pool, in this order: the number of the pool's valid
      members, and the status that follows from what is recorded. */
  lemma PoolsAreCounted(store: Store, d: Date, payload: Payload, i: nat, pool: string, group: string)
    requires IsPool(i, pool, group) && d in store.manifests
    ensures
      var report, facts := ReportOf(store, d, payload), FactsAt(store, d);
      && |report.totals| == 3 && report.totals[i] == Some(|PoolMembers(facts, pool)|)
      && |report.qualities.pools| == 3
      && report.qualities.pools[i] == PoolStatus(store.manifests[d], facts, (pool, group))
  {
    PoolIsCounted(FactsAt(store, d), pool);
    assert POOLS[i] == (pool, group);
    PoolsOfReport(store, d, payload);
  }

  lemma PoolsOfReport(store: Store, d: Date, payload: Payload)
    requires d in store.manifests
    ensures
      var report := ReportOf(store, d, payload);
      && |report.totals| == 3 && |report.qualities.pools| == 3
      && forall i | 0 <= i < 3 ::
           && report.totals[i] == Some(CountIf(FactsAt(store, d), InPool(POOLS[i].0)))
           && report.qualities.pools[i] == PoolStatus(store.manifests[d], FactsAt(store, d), POOLS[i])
  {
  }

  /** A complete membership is degraded exactly when a pool is degraded or failed; streaks are as good as the
      membership when they are complete; without a dataset nothing is known. */
  lemma QualitiesFollowPools(store: Store, d: Date, payload: Payload)
    ensures
      var report := ReportOf(store, d, payload);
      var q := report.qualities;
      if d !in store.manifests then
        && q == Qualities(Insufficient, Insufficient, [Insufficient, Insufficient, Insufficient])
        && report.totals == [None, None, None] && report.dimensions == Dimensions([], [])
      else
        var m := store.manifests[d];
        && report.dimensions == DimensionsOf(Some(m), FactsAt(store, d))
        && (q.membership == Insufficient <==> !m.membershipComplete)
        && (q.membership == Degraded <==> m.membershipComplete && exists s :: s in q.pools && s in {Degraded, Failed})
        && q.membership in {Okay, Degraded, Insufficient}
        && q.streak == (if m.streakComplete then q.membership else Insufficient)
  {
    var report := ReportOf(store, d, payload);
    if d !in store.manifests {
      assert report.totals == [None, None, None];
    }
  }

  // ---------------------------------------------------------------- the standing as a whole

  /** Coverage is the share of 60 usable days, at most all of it; confidence is high exactly with a good history
      and a good promotion, and otherwise medium from five usable days on. */
  lemma ConfidenceFollowsHistory(store: Store, d: Date, payload: Payload)
    ensures
      var report := ReportOf(store, d, payload);
      var n := report.history.valid;
      && report.coverage == (if n >= 60 then 1.0 else Round4(n as real / 60.0))
      && (report.confidence == High <==> n >= 60 && report.promotion.status == Okay)
      && (report.confidence == Medium <==> 5 <= n && report.confidence != High)
      && (report.confidence == NoConfidence <==> n < 5)
  {
    HistoryRanksTheDay(store, d, WithPromotion(payload, BuildPromotion(store, d, payload.quality)));
  }

  // ---------------------------------------------------------------- risk rows

  /** The details of a day are complete and its own. */
  ghost predicate HasDetails(store: Store, d: Date) {
    d in store.manifests && store.manifests[d].membershipComplete && store.manifests[d].actual == Some(d)
  }

  /** Two resolved sessions in a row whose details are both complete. */
  ghost predicate HasBothDetails(store: Store, d: Date, p: Date) {
    && ResolveDay(store, d).refused.None? && ResolveDay(store, d).previous == Some(p)
    && HasDetails(store, d) && HasDetails(store, p)
  }

  /** A metric of an earlier day, from its own snapshot. */
  function MetricThen(store: Store, p: Date, m: Metric): Option<real> {
    if p in store.snapshots then MetricValue(store.snapshots[p].payload, m) else None
  }

  /** The risk rows of the report, from the evidence of the day and the one before. */
  lemma RisksOfReport(store: Store, d: Date, payload: Payload)
    ensures
      var r := BuildPromotion(store, d, payload.quality);
      ReportOf(store, d, payload).risks ==
      RisksOf(d, EvidenceAt(store, d), Before(store, d), WithPromotion(payload, r), r)
  {
  }

  /** The row of consecutive falls is there exactly when both days' details and counts are, and says whether
      both counts are positive. */
  lemma FallsCompareTwoDays(store: Store, d: Date, payload: Payload, p: Date)
    requires ResolveDay(store, d).refused.None? && ResolveDay(store, d).previous == Some(p)
    ensures
      var down, downBefore := MetricValue(payload, LimitDownCount), MetricThen(store, p, LimitDownCount);
      ReportOf(store, d, payload).risks.consecutiveDown ==
      if HasBothDetails(store, d, p) && down.Some? && downBefore.Some?
      then Some(down.value > 0.0 && downBefore.value > 0.0)
      else None
  {
    RisksOfReport(store, d, payload);
    var r := BuildPromotion(store, d, payload.quality);
    PromotionIsSound(store, d, payload.quality);
    PromotionIsRebuilt(payload, r, LimitDownCount);
    DetailsBefore(store, d, p);
  }

  /** The row of the ladder is there exactly when both days' details and streaks are complete and their longest
      streaks known, and is the difference of these. */
  lemma LaddersCompareTwoDays(store: Store, d: Date, payload: Payload, p: Date)
    requires ResolveDay(store, d).refused.None? && ResolveDay(store, d).previous == Some(p)
    ensures
      var streak, streakBefore := MetricValue(payload, MaxStreak), MetricThen(store, p, MaxStreak);
      ReportOf(store, d, payload).risks.ladderChange ==
      if && HasBothDetails(store, d, p) && store.manifests[d].streakComplete && store.manifests[p].streakComplete
         && streak.Some? && streakBefore.Some?
      then Some(streak.value.Floor - streakBefore.value.Floor)
      else None
  {
    RisksOfReport(store, d, payload);
    var r := BuildPromotion(store, d, payload.quality);
    PromotionIsSound(store, d, payload.quality);
    PromotionIsRebuilt(payload, r, MaxStreak);
    DetailsBefore(store, d, p);
  }

  lemma DetailsBefore(store: Store, d: Date, p: Date)
    requires ResolveDay(store, d).refused.None? && ResolveDay(store, d).previous == Some(p)
    ensures Before(store, d) == Some((p, EvidenceAt(store, p)))
    ensures HasBothDetails(store, d, p) <==>
      DetailComplete(EvidenceAt(store, d), d) && DetailComplete(EvidenceAt(store, p), p)
  {
  }

  ghost predicate AreFailed(ids: set<string>, facts: seq<Fact>) {
    forall id :: id in ids <==> exists f :: f in facts && f.id == id && f.pool == "failed_limit_up" && f.membershipValid
  }

  /** The repair row is the rounded share of the earlier day's failed limit-ups that closed at their limit on the
      day, and is there exactly when both days' details are and something had failed. */
  lemma RepairIsShareOfFailed(
    store: Store, d: Date, payload: Payload, p: Date, failed: set<string>, today: set<string>)
    requires ResolveDay(store, d).refused.None? && ResolveDay(store, d).previous == Some(p)
    requires AreFailed(failed, FactsAt(store, p)) && AreMembers(today, FactsAt(store, d))
    ensures
      ReportOf(store, d, payload).risks.repair ==
      if HasBothDetails(store, d, p) && failed != {} then Some(Round4(|failed * today| as real / |failed| as real))
      else None
  {
    RisksOfReport(store, d, payload);
    DetailsBefore(store, d, p);
    MembersAre(today, FactsAt(store, d));
    FailedAre(failed, FactsAt(store, p));
  }

  lemma FailedAre(ids: set<string>, facts: seq<Fact>)
    requires AreFailed(ids, facts)
    ensures ids == FailedIds(facts)
  {
  }

  /** The rows that need the session before have no value when the day does not resolve. */
  lemma NothingToCompareWith(store: Store, d: Date, payload: Payload)
    requires ResolveDay(store, d).refused.Some?
    ensures
      var risks := ReportOf(store, d, payload).risks;
      risks.consecutiveDown.None? && risks.repair.None? && risks.ladderChange.None? && risks.feedback.None?
  {
  }

  /** The feedback row is the promotion ratio, with its status, exactly when there is one. */
  lemma FeedbackIsPromotion(store: Store, d: Date, payload: Payload)
    ensures
      var report := ReportOf(store, d, payload);
      && report.risks.feedback == report.promotion.ratio
      && report.risks.feedbackStatus == (if report.promotion.ratio.Some? then report.promotion.status else Insufficient)
  {
    RisksOfReport(store, d, payload);
    PromotionIsSound(store, d, payload.quality);
  }

  ghost function UpsOnBoard(facts: seq<Fact>, board: string): set<nat> { UpsWithValue(facts, "board", board) }

  lemma BoardIsCounted(facts: seq<Fact>, board: string)
    requires board != ""
    ensures CountIf(LimitUps(facts), HasLabel(Board, board)) == |UpsOnBoard(facts, board)|
  {
    NamesDiffer();
    UpsAreCounted(facts, HasLabel(Board, board), UpsOnBoard(facts, board));
  }

  lemma {:induction false} LargestBoardIsReached(ups: seq<Fact>, all: seq<Fact>) returns (board: string)
    requires ups != [] && forall f | f in ups :: BoardOf(f).Some?
    ensures board in Boards(ups) && board != "" && CountIf(all, HasLabel(Board, board)) == LargestBoard(ups, all)
  {
    assert ups[0] in ups;
    board := BoardOf(ups[0]).value;
    if |ups| > 1 && CountIf(all, HasLabel(Board, board)) < LargestBoard(ups[1..], all) {
      assert forall f | f in ups[1..] :: f in ups;
      board := LargestBoardIsReached(ups[1..], all);
      assert forall b | b in Boards(ups[1..]) :: b in Boards(ups);
    }
  }

  /** A board of the day that no other exceeds, when every limit-up has one. */
  lemma SomeBoardIsLargest(facts: seq<Fact>) returns (board: string)
    requires LimitUps(facts) != [] && forall f | f in LimitUps(facts) :: BoardOf(f).Some?
    ensures |UpsOnBoard(facts, board)| == LargestBoard(LimitUps(facts), LimitUps(facts))
    ensures forall other | other != "" :: |UpsOnBoard(facts, other)| <= |UpsOnBoard(facts, board)|
  {
    var ups := LimitUps(facts);
    board := LargestBoardIsReached(ups, ups);
    BoardIsCounted(facts, board);
    LargestBoardIsLargest(ups, ups);
    forall other | other != "" ensures |UpsOnBoard(facts, other)| <= |UpsOnBoard(facts, board)| {
      BoardIsCounted(facts, other);
      if other !in Boards(ups) { NobodyOnBoard(facts, other); }
    }
  }

  lemma NobodyOnBoard(facts: seq<Fact>, board: string)
    requires board != "" && board !in Boards(LimitUps(facts))
    ensures UpsOnBoard(facts, board) == {}
  {
    NamesDiffer();
    UpsAreKept(facts);
    forall i: nat | i < |facts| && ClosedUp(facts[i]) ensures ValueIn(facts[i], "board") != Some(board) {
      assert facts[i] in LimitUps(facts);
      assert BoardOf(facts[i]).Some? ==> BoardOf(facts[i]).value in Boards(LimitUps(facts));
    }
  }

  lemma BoardsAreKnown(facts: seq<Fact>)
    ensures (forall f | f in LimitUps(facts) :: BoardOf(f).Some?) <==>
      forall f | f in facts && ClosedUp(f) :: ValueIn(f, "board").Some? && ValueIn(f, "board") != Some("")
  {
    NamesDiffer();
    UpsAreKept(facts);
    forall f: Fact ensures BoardOf(f).Some? <==> ValueIn(f, "board").Some? && ValueIn(f, "board") != Some("") {}
  }

  /** The concentration is the rounded share of one board that no board exceeds, and is there exactly when the
      day's details are complete, it has limit-ups, and each of them a board. */
  lemma ConcentrationIsLargestBoard(store: Store, d: Date, payload: Payload) returns (board: string)
    ensures
      var facts := FactsAt(store, d);
      var ups := |LimitUps(facts)|;
      var concentration := ReportOf(store, d, payload).risks.concentration;
      && (concentration.Some? <==>
            HasDetails(store, d) && ups > 0 && ValuesAreKnown(store.manifests[d], facts, "board"))
      && (concentration.Some? ==>
            && concentration.value == Round4(|UpsOnBoard(facts, board)| as real / ups as real)
            && forall other | other != "" :: |UpsOnBoard(facts, other)| <= |UpsOnBoard(facts, board)|)
  {
    RisksOfReport(store, d, payload);
    board := ConcentrationOfUps(FactsAt(store, d));
  }

  lemma ConcentrationOfUps(facts: seq<Fact>) returns (board: string)
    ensures
      var ups := |LimitUps(facts)|;
      var concentration := Concentration(LimitUps(facts));
      && (concentration.Some? <==> ups > 0 && forall f | f in facts && ClosedUp(f) ::
            ValueIn(f, "board").Some? && ValueIn(f, "board") != Some(""))
      && (concentration.Some? ==>
            && concentration.value == Round4(|UpsOnBoard(facts, board)| as real / ups as real)
            && forall other | other != "" :: |UpsOnBoard(facts, other)| <= |UpsOnBoard(facts, board)|)
  {
    BoardsAreKnown(facts);
    if LimitUps(facts) != [] && forall f | f in LimitUps(facts) :: BoardOf(f).Some? {
      board := SomeBoardIsLargest(facts);
    } else {
      board := "";
    }
  }
}
