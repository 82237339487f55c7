/**
 * The history behind a day's limits: the chain of recorded previous sessions, which of its days are usable
 * observations, and where the day's metrics stand among them.
 */
module LimitHistory {
  import opened Common
  import opened LimitEvidence

  const HISTORY_WINDOW_DAYS: nat := 250

  const MIN_VALID_OBSERVATIONS: nat := 60

  const METRICS: seq<Metric> := [LimitUpCount, LimitDownCount, FailedLimitUpRatio, PromotionRatio, MaxStreak]

  // ---------------------------------------------------------------- metrics, percentiles and bands

  predicate IsCount(m: Metric) { m in {LimitUpCount, LimitDownCount, MaxStreak} }

  /** A count is a whole number from 0 up, a ratio a number from 0 to 1; anything else is none. */
  function MetricValue(p: Payload, m: Metric): (r: Option<real>)
    ensures r.Some? ==> r.value >= 0.0 && (if IsCount(m) then r.value.Floor as real == r.value else r.value <= 1.0)
  {
    var v := if m in p.values then p.values[m] else Absent;
    if !v.Number? || v.value < 0.0 then None
    else if if IsCount(m) then v.value.Floor as real == v.value else v.value <= 1.0 then Some(v.value)
    else None
  }

  function CountUpTo(values: seq<real>, v: real): (n: nat)
    ensures n <= |values|
  {
    if values == [] then 0 else (if values[0] <= v then 1 else 0) + CountUpTo(values[1..], v)
  }

  /** The rank of a value among others: from the least, 0, to the greatest, 1; one alone is in the middle. */
  function Percentile(values: seq<real>, v: Option<real>): Option<real> {
    if values == [] || v.None? then None
    else if |values| == 1 then Some(0.5)
    else Some(Round4(Max(0.0, Min(1.0, (CountUpTo(values, v.value) - 1) as real / (|values| - 1) as real))))
  }

  function BandScore(p: real, inverse: bool): int {
    var index := if p <= 0.2 then 0 else if p <= 0.4 then 1 else if p <= 0.6 then 2 else if p <= 0.8 then 3 else 4;
    25 * (if inverse then 4 - index else index)
  }

  lemma {:induction false} CountGrowsWithValue(values: seq<real>, v: real, w: real)
    requires v <= w
    ensures CountUpTo(values, v) <= CountUpTo(values, w)
  {
    if values != [] { CountGrowsWithValue(values[1..], v, w); }
  }

  /** A percentile lies between 0 and 1 and grows with the value, and so do the scores, or fall when a
      high value is bad. */
  lemma PercentileGrowsWithValue(values: seq<real>, v: real, w: real)
    requires v <= w && values != []
    ensures
      var p, q := Percentile(values, Some(v)).value, Percentile(values, Some(w)).value;
      0.0 <= p <= q <= 1.0 && BandScore(p, false) <= BandScore(q, false) && BandScore(p, true) >= BandScore(q, true)
  {
    CountGrowsWithValue(values, v, w);
    if |values| > 1 {
      var whole := (|values| - 1) as real;
      var a, b := (CountUpTo(values, v) - 1) as real / whole, (CountUpTo(values, w) - 1) as real / whole;
      assert a <= b by { QuotientGrows(CountUpTo(values, v) - 1, CountUpTo(values, w) - 1, |values| - 1); }
      Round4OfBounds();
      Round4IsMonotone(0.0, Max(0.0, Min(1.0, a)));
      Round4IsMonotone(Max(0.0, Min(1.0, a)), Max(0.0, Min(1.0, b)));
      Round4IsMonotone(Max(0.0, Min(1.0, b)), 1.0);
    }
  }

  lemma QuotientGrows(a: int, b: int, whole: int)
    requires a <= b && whole > 0
    ensures a as real / whole as real <= b as real / whole as real
  {
  }

  lemma {:induction false} CountOfTop(values: seq<real>, v: real)
    requires forall i | 0 <= i < |values| :: values[i] <= v
    ensures CountUpTo(values, v) == |values|
  {
    if values != [] {
      assert forall i | 0 <= i < |values| - 1 :: values[1..][i] == values[i + 1];
      CountOfTop(values[1..], v);
    }
  }

  /** An observation alone stands in the middle, and among none nothing has a place. */
  lemma OneAloneIsMidway(values: seq<real>, v: Option<real>)
    ensures |values| == 1 && v.Some? ==> Percentile(values, v) == Some(0.5)
    ensures Percentile(values, v).None? <==> values == [] || v.None?
  {
  }

  /** Of two or more observations the greatest stands at 1. */
  lemma GreatestIsAtTheTop(values: seq<real>, v: real)
    requires |values| > 1 && forall i | 0 <= i < |values| :: values[i] <= v
    ensures Percentile(values, Some(v)) == Some(1.0)
  {
    CountOfTop(values, v);
    var whole := (|values| - 1) as real;
    assert whole / whole == 1.0;
    Round4OfBounds();
  }

  // ---------------------------------------------------------------- the chain of sessions

  /** The session recorded before a day, when the day is an evidenced session that names an earlier one. */
  function Previous(store: Store, d: Date): Option<Date> {
    var s := SessionAt(store, d);
    if IsEvidenced(store, d) && s.value.previous.Some? && s.value.previous.value < d then s.value.previous else None
  }

  /** At most n days with snapshots, back from a day through recorded previous sessions. */
  ghost function Chain(store: Store, d: Date, n: nat): seq<Date>
    decreases n
  {
    if n == 0 || SnapshotAt(store, d).None? then []
    else [d] + (if Previous(store, d).Some? then Chain(store, Previous(store, d).value, n - 1) else [])
  }

  method HistoryChain(store: Store, asOf: Date, window: nat) returns (chain: seq<Date>)
    ensures chain == Chain(store, asOf, window)
  {
    var current := asOf;
    chain := [];
    ghost var rest := Chain(store, asOf, window);
    for k := 0 to window
      invariant rest == Chain(store, current, window - k) && Chain(store, asOf, window) == chain + rest
    {
      if SnapshotAt(store, current).None? {
        return;
      }
      ghost var later := ChainAfter(store, current, window - k);
      assert chain + rest == chain + [current] + later;
      chain := chain + [current];
      rest := later;
      var session := SessionAt(store, current);
      if session.None? || !session.value.isSession || session.value.actual != Some(current) {
        return;
      }
      if session.value.previous.None? || session.value.previous.value >= current {
        return;
      }
      current := session.value.previous.value;
    }
  }

  ghost function ChainAfter(store: Store, d: Date, n: nat): (rest: seq<Date>)
    requires n > 0 && SnapshotAt(store, d).Some?
    ensures Chain(store, d, n) == [d] + rest
  {
    if Previous(store, d).Some? then Chain(store, Previous(store, d).value, n - 1) else []
  }

  /** Dates of the chain strictly decrease from the first; every link is the recorded previous session of an
      evidenced one, and every day has a snapshot. */
  lemma {:induction false} ChainLinks(store: Store, d: Date, n: nat)
    ensures
      var chain := Chain(store, d, n);
      && |chain| <= n && (chain != [] ==> chain[0] == d)
      && (forall i | 0 <= i < |chain| :: chain[i] <= d && SnapshotAt(store, chain[i]).Some?)
      && (forall i | 0 <= i < |chain| - 1 :: chain[i + 1] < chain[i] && Previous(store, chain[i]) == Some(chain[i + 1]))
    decreases n
  {
    var chain := Chain(store, d, n);
    if n > 0 && SnapshotAt(store, d).Some? && Previous(store, d).Some? {
      var p := Previous(store, d).value;
      ChainLinks(store, p, n - 1);
      var rest := Chain(store, p, n - 1);
      forall i | 0 <= i < |chain| - 1
        ensures chain[i + 1] < chain[i] && Previous(store, chain[i]) == Some(chain[i + 1])
      {
        if i > 0 { assert rest[i - 1] == chain[i] && rest[i - 1 + 1] == chain[i + 1]; }
      }
    }
  }

  /** A chain shorter than the window ends where the record does: at a day without an earlier recorded
      session, or whose recorded one has no snapshot. */
  lemma {:induction false} ChainIsMaximal(store: Store, d: Date, n: nat)
    requires 0 < |Chain(store, d, n)| < n
    ensures
      var last := Chain(store, d, n)[|Chain(store, d, n)| - 1];
      Previous(store, last).None? || SnapshotAt(store, Previous(store, last).value).None?
    decreases n
  {
    if Previous(store, d).Some? && Chain(store, Previous(store, d).value, n - 1) != [] {
      ChainIsMaximal(store, Previous(store, d).value, n - 1);
    }
  }

  /** Nothing dated after a day matters to its chain. */
  lemma {:induction false} ChainLooksBack(a: Store, b: Store, d: Date, n: nat)
    requires AgreeUpTo(a, b, d)
    ensures Chain(a, d, n) == Chain(b, d, n)
    decreases n
  {
    assert AgreeAt(a, b, d);
    if n > 0 && Previous(a, d).Some? { ChainLooksBack(a, b, Previous(a, d).value, n - 1); }
  }

  // ---------------------------------------------------------------- points

  datatype Point = Point(date: Date, status: Status, values: map<Metric, Option<real>>)

  function ValuesOf(p: Payload): map<Metric, Option<real>> { map m | m in METRICS :: MetricValue(p, m) }

  /** The payload with the promotion ratio rebuilt. */
  function WithPromotion(p: Payload, r: Promotion): Payload {
    p.(values := p.values[PromotionRatio := if r.ratio.Some? then Number(r.ratio.value) else Absent])
  }

  /** The detail dataset is complete, of the day, and bound to the snapshot's quality. */
  predicate IsChecksumBound(q: Option<Quality>, m: Option<Manifest>, d: Date) {
    m.Some? && m.value.membershipComplete && m.value.actual == Some(d) && q.Some?
      && q.value.checksum == Some(m.value.checksum)
  }

  function StatusOf(s: Snapshot): Status {
    if s.payload.quality.Some? && s.payload.quality.value.status.Some? then s.payload.quality.value.status.value
    else s.status
  }

  /** A day is a usable observation: nothing about it is degraded, its details are complete and bound, every
      metric is there and its promotion is good. */
  predicate IsUsable(d: Date, s: Snapshot, m: Option<Manifest>, r: Promotion) {
    && StatusOf(s) == Okay && s.status == Okay && s.warning.NoWarning?
    && IsChecksumBound(s.payload.quality, m, d) && m.value.streakComplete
    && (forall k | k in METRICS :: MetricValue(WithPromotion(s.payload, r), k).Some?)
    && r.status == Okay
  }

  function PointOf(d: Date, s: Snapshot, m: Option<Manifest>, r: Promotion): Point {
    var status :=
      if IsUsable(d, s, m, r) then Okay
      else if StatusOf(s) in {Fallback, Degraded} || s.warning.SomeWarning? then Degraded
      else Insufficient;
    Point(d, status, ValuesOf(WithPromotion(s.payload, r)))
  }

  function PointAt(store: Store, d: Date): Option<Point> {
    var s := SnapshotAt(store, d);
    if s.None? then None
    else Some(PointOf(d, s.value, ManifestAt(store, d), BuildPromotion(store, d, s.value.payload.quality)))
  }

  /** The points of the days that have one. */
  ghost function Points(store: Store, dates: seq<Date>): seq<Point> {
    if dates == [] then []
    else
      var before := Points(store, dates[..|dates| - 1]);
      var p := PointAt(store, dates[|dates| - 1]);
      if p.Some? then before + [p.value] else before
  }

  ghost function CountOkay(points: seq<Point>): (n: nat)
    ensures n <= |points|
  {
    if points == [] then 0 else CountOkay(points[..|points| - 1]) + if points[|points| - 1].status == Okay then 1 else 0
  }

  /** A metric's values at the usable points. */
  ghost function Observed(points: seq<Point>, m: Metric): seq<real> {
    if points == [] then []
    else
      var before := Observed(points[..|points| - 1], m);
      var p := points[|points| - 1];
      if p.status == Okay && m in p.values && p.values[m].Some? then before + [p.values[m].value] else before
  }

  // ---------------------------------------------------------------- the history

  datatype History = History(
    recent: seq<Point>,
    valid: nat,
    percentile: map<Metric, Option<real>>,
    status: Status,
    coverage: real)

  predicate Enough(valid: nat, points: nat) { valid >= MIN_VALID_OBSERVATIONS && points >= MIN_VALID_OBSERVATIONS }

  function Reversed<T>(s: seq<T>): seq<T> { if s == [] then [] else Reversed(s[1..]) + [s[0]] }

  function Recent(points: seq<Point>): seq<Point> { Reversed(if |points| <= 5 then points else points[..5]) }

  ghost function PercentilesOf(
    points: seq<Point>, current: Payload, enough: bool, metrics: seq<Metric>): map<Metric, Option<real>> {
    map m | m in metrics :: if enough then Percentile(Observed(points, m), MetricValue(current, m)) else None
  }

  ghost function HistoryFrom(points: seq<Point>, current: Payload): History {
    var valid := CountOkay(points);
    var enough := Enough(valid, |points|);
    History(
      Recent(points), valid, PercentilesOf(points, current, enough, METRICS), if enough then Okay else Insufficient,
      Round4(valid as real / HISTORY_WINDOW_DAYS as real))
  }

  ghost function HistoryOf(store: Store, asOf: Date, current: Payload): History {
    HistoryFrom(Points(store, Chain(store, asOf, HISTORY_WINDOW_DAYS)), current)
  }

  method BuildHistory(store: Store, asOf: Date, current: Payload) returns (history: History)
    ensures history == HistoryOf(store, asOf, current)
  {
    var dates := HistoryChain(store, asOf, HISTORY_WINDOW_DAYS);
    var points, valid := BuildPoints(store, dates);
    var enough := Enough(valid, |points|);
    var percentile := BuildPercentiles(points, current, enough);
    history := History(
      Recent(points), valid, percentile, if enough then Okay else Insufficient,
      Round4(valid as real / HISTORY_WINDOW_DAYS as real));
  }

  method BuildPoints(store: Store, dates: seq<Date>) returns (points: seq<Point>, valid: nat)
    ensures points == Points(store, dates) && valid == CountOkay(points)
  {
    points, valid := [], 0;
    for i := 0 to |dates|
      invariant points == Points(store, dates[..i]) && valid == CountOkay(points)
    {
      assert dates[..i + 1][..i] == dates[..i];
      var point := PointAt(store, dates[i]);
      if point.Some? {
        assert (points + [point.value])[..|points|] == points;
        valid := valid + if point.value.status == Okay then 1 else 0;
        points := points + [point.value];
      }
    }
    assert dates[..|dates|] == dates;
  }

  method BuildPercentiles(
    points: seq<Point>, current: Payload, enough: bool) returns (percentile: map<Metric, Option<real>>)
    ensures percentile == PercentilesOf(points, current, enough, METRICS)
  {
    percentile := map[];
    for k := 0 to |METRICS|
      invariant percentile == PercentilesOf(points, current, enough, METRICS[..k])
    {
      assert METRICS[..k + 1] == METRICS[..k] + [METRICS[k]];
      var values := ValuesObserved(points, METRICS[k]);
      percentile :=
        percentile[METRICS[k] := if enough then Percentile(values, MetricValue(current, METRICS[k])) else None];
    }
    assert METRICS[..|METRICS|] == METRICS;
  }

  method ValuesObserved(points: seq<Point>, m: Metric) returns (values: seq<real>)
    ensures values == Observed(points, m)
  {
    values := [];
    for i := 0 to |points|
      invariant values == Observed(points[..i], m)
    {
      assert points[..i + 1][..i] == points[..i];
      var p := points[i];
      if p.status == Okay && m in p.values && p.values[m].Some? {
        values := values + [p.values[m].value];
      }
    }
    assert points[..|points|] == points;
  }

  // ---------------------------------------------------------------- what a history says

  /** Each day of the chain has its point. */
  lemma {:induction false} PointsOfChain(store: Store, dates: seq<Date>)
    requires forall i | 0 <= i < |dates| :: SnapshotAt(store, dates[i]).Some?
    ensures |Points(store, dates)| == |dates|
    ensures forall i | 0 <= i < |dates| :: PointAt(store, dates[i]) == Some(Points(store, dates)[i])
  {
    if dates != [] {
      var n := |dates| - 1;
      PointsOfChain(store, dates[..n]);
    }
  }

  /** Every usable point has every metric, so each metric has one value for each usable day. */
  lemma {:induction false} UsablePointsHaveEveryMetric(store: Store, dates: seq<Date>, m: Metric)
    ensures |Observed(Points(store, dates), m)| == CountOkay(Points(store, dates))
  {
    if dates != [] {
      var n := |dates| - 1;
      UsablePointsHaveEveryMetric(store, dates[..n], m);
      EveryMetricIsListed(m);
      var before := Points(store, dates[..n]);
      var p := PointAt(store, dates[n]);
      if p.Some? { assert (before + [p.value])[..|before|] == before; }
    }
  }

  lemma PercentileIsThere(points: seq<Point>, current: Payload, m: Metric)
    requires |Observed(points, m)| == CountOkay(points) && |points| <= HISTORY_WINDOW_DAYS
    ensures
      var h := HistoryFrom(points, current);
      && m in h.percentile && h.valid == CountOkay(points) <= HISTORY_WINDOW_DAYS
      && (h.status == Okay <==> h.valid >= MIN_VALID_OBSERVATIONS)
      && (h.percentile[m].Some? <==> h.status == Okay && MetricValue(current, m).Some?)
  {
    EveryMetricIsListed(m);
  }

  lemma EveryMetricIsListed(m: Metric)
    ensures m in METRICS
  {
    assert m == METRICS[0] || m == METRICS[1] || m == METRICS[2] || m == METRICS[3] || m == METRICS[4];
  }

  /** With enough usable days, a metric has a percentile exactly when the day has the metric; without, none
      has. */
  lemma PercentilesAreComplete(store: Store, asOf: Date, current: Payload, m: Metric)
    ensures
      var h := HistoryOf(store, asOf, current);
      && m in h.percentile && h.valid <= HISTORY_WINDOW_DAYS
      && (h.status == Okay <==> h.valid >= MIN_VALID_OBSERVATIONS)
      && (h.percentile[m].Some? <==> h.status == Okay && MetricValue(current, m).Some?)
  {
    var window := HISTORY_WINDOW_DAYS;
    var dates := Chain(store, asOf, window);
    ChainLinks(store, asOf, window);
    PointsOfChain(store, dates);
    UsablePointsHaveEveryMetric(store, dates, m);
    PercentileIsThere(Points(store, dates), current, m);
  }

  /** A usable day is an evidenced session with a complete, bound detail dataset that follows another such
      session, and its promotion is a share of that one's limit-ups. */
  lemma UsableDayFollowsUsableEvidence(store: Store, d: Date)
    requires PointAt(store, d).Some? && PointAt(store, d).value.status == Okay
    ensures
      var p := ResolveDay(store, d).previous;
      && IsEvidenced(store, d) && p.Some? && p.value < d && IsEvidenced(store, p.value)
      && SampleProblem(d, p.value, EvidenceAt(store, d), EvidenceAt(store, p.value)).None?
      && Members(FactsAt(store, p.value)) != {}
      && (forall m ::
            var payload := SnapshotAt(store, d).value.payload;
            MetricValue(WithPromotion(payload, BuildPromotion(store, d, payload.quality)), m).Some?)
  {
    var quality := SnapshotAt(store, d).value.payload.quality;
    PromotionIsSound(store, d, quality);
    ResolvesExactly(store, d);
    forall m: Metric ensures m in METRICS { EveryMetricIsListed(m); }
  }

  lemma {:induction false} PointsLookBack(a: Store, b: Store, d: Date, dates: seq<Date>)
    requires AgreeUpTo(a, b, d) && forall i | 0 <= i < |dates| :: dates[i] <= d
    ensures Points(a, dates) == Points(b, dates)
  {
    if dates != [] {
      var n := |dates| - 1;
      PointsLookBack(a, b, d, dates[..n]);
      PointLooksBack(a, b, dates[n]);
    }
  }

  lemma PointLooksBack(a: Store, b: Store, d: Date)
    requires AgreeUpTo(a, b, d)
    ensures PointAt(a, d) == PointAt(b, d)
  {
    assert AgreeAt(a, b, d);
    if SnapshotAt(a, d).Some? { PromotionLooksBack(a, b, d, SnapshotAt(a, d).value.payload.quality); }
  }

  /** Nothing dated after a day matters to its history. */
  lemma HistoryLooksBack(a: Store, b: Store, d: Date, current: Payload)
    requires AgreeUpTo(a, b, d)
    ensures HistoryOf(a, d, current) == HistoryOf(b, d, current)
  {
    ChainLooksBack(a, b, d, HISTORY_WINDOW_DAYS);
    ChainLinks(a, d, HISTORY_WINDOW_DAYS);
    PointsLookBack(a, b, d, Chain(a, d, HISTORY_WINDOW_DAYS));
  }
}
