/**
 * The day's report: promoted members, evidence for the rules, risk rows against the session before, and the
 * whole answer. The main result is that no evidence dated after the day can influence it.
 */
module LimitReport {
  import opened Common
  import opened LimitEvidence
  import opened LimitHistory
  import opened LimitEcosystem

  // ---------------------------------------------------------------- promoted members

  /** The day's limit-ups that were limit-ups the session before. */
  function PromotedRows(now: seq<Fact>, before: seq<Fact>): seq<Fact> {
    var ids := Members(before);
    Filter(LimitUps(now), (f: Fact) => f.id in ids)
  }

  predicate IsCounted(r: Promotion) { r.status in {Okay, Degraded} || r.reason.ZeroDenominator? }

  /** The total of the promoted detail rows, none without two complete datasets and a counted promotion. */
  function PromotedTotal(now: Evidence, before: Option<Evidence>, r: Promotion): Option<nat> {
    if && now.manifest.Some? && before.Some? && before.value.manifest.Some?
       && now.manifest.value.membershipComplete && before.value.manifest.value.membershipComplete && IsCounted(r)
    then Some(|PromotedRows(now.facts, before.value.facts)|)
    else None
  }

  /** No two of the rows have one id. */
  ghost predicate DistinctIds(rows: seq<Fact>) { forall i, j | 0 <= i < j < |rows| :: rows[i].id != rows[j].id }

  function IdsOf(rows: seq<Fact>): set<string> { set f | f in rows :: f.id }

  lemma {:induction false} RowsPerId(rows: seq<Fact>)
    ensures |IdsOf(rows)| <= |rows| && (|IdsOf(rows)| == |rows| <==> DistinctIds(rows))
  {
    if rows == [] {
      assert IdsOf(rows) == {};
    } else {
      var n := |rows| - 1;
      var front, last := rows[..n], rows[n].id;
      RowsPerId(front);
      assert rows == front + [rows[n]];
      assert IdsOf(rows) == IdsOf(front) + {last};
      if last in IdsOf(front) {
        var f :| f in front && f.id == last;
        var i :| 0 <= i < n && front[i] == f;
        assert rows[i].id == rows[n].id;
      }
    }
  }

  lemma PromotedIds(now: seq<Fact>, before: seq<Fact>)
    ensures IdsOf(PromotedRows(now, before)) == Members(before) * Members(now)
  {
    var ids, rows := Members(before), PromotedRows(now, before);
    forall id | id in ids * Members(now) ensures id in IdsOf(rows) {
      var f :| f in now && IsClosedLimitUp(f) && f.id == id;
      assert f in LimitUps(now);
      assert f in rows;
    }
  }

  // ---------------------------------------------------------------- risk rows

  /** Each row's value, none when its evidence is insufficient. */
  datatype Risks = Risks(
    consecutiveDown: Option<bool>,
    repair: Option<real>,
    ladderChange: Option<int>,
    concentration: Option<real>,
    feedback: Option<real>,
    feedbackStatus: Status)

  predicate DetailComplete(e: Evidence, d: Date) {
    e.manifest.Some? && e.manifest.value.membershipComplete && e.manifest.value.actual == Some(d)
  }

  predicate StreakComplete(e: Evidence, d: Date) { DetailComplete(e, d) && e.manifest.value.streakComplete }

  function FailedIds(facts: seq<Fact>): set<string> {
    set f | f in facts && f.pool == "failed_limit_up" && f.membershipValid :: f.id
  }

  function BoardOf(f: Fact): Option<string> { Get(f, Board) }

  /** The largest number of facts on one board, over the boards of some facts. */
  function LargestBoard(ups: seq<Fact>, all: seq<Fact>): nat {
    if ups == [] then 0
    else
      var rest := LargestBoard(ups[1..], all);
      var board := BoardOf(ups[0]);
      var own := if board.Some? then CountIf(all, HasLabel(Board, board.value)) else 0;
      if own >= rest then own else rest
  }

  function Boards(ups: seq<Fact>): set<string> { set f | f in ups && BoardOf(f).Some? :: BoardOf(f).value }

  /** The share of the largest board among the limit-ups, when every one has a board. */
  function Concentration(ups: seq<Fact>): Option<real> {
    if ups == [] || exists f | f in ups :: BoardOf(f).None? then None
    else Some(Round4(LargestBoard(ups, ups) as real / |ups| as real))
  }

  /** The metric of the day before, when there is a snapshot of it. */
  function MetricBefore(before: Option<(Date, Evidence)>, m: Metric): Option<real> {
    if before.Some? && before.value.1.snapshot.Some? then MetricValue(before.value.1.snapshot.value.payload, m)
    else None
  }

  function RisksOf(d: Date, now: Evidence, before: Option<(Date, Evidence)>, current: Payload, r: Promotion): Risks {
    var facts := if now.manifest.Some? then now.facts else [];
    var details := DetailComplete(now, d);
    var detailsBefore := before.Some? && DetailComplete(before.value.1, before.value.0);
    var streaks := StreakComplete(now, d) && before.Some? && StreakComplete(before.value.1, before.value.0);
    var down, downBefore := MetricValue(current, LimitDownCount), MetricBefore(before, LimitDownCount);
    var streak, streakBefore := MetricValue(current, MaxStreak), MetricBefore(before, MaxStreak);
    var failed := if before.Some? then FailedIds(before.value.1.facts) else {};
    Risks(
      if details && detailsBefore && down.Some? && downBefore.Some? then
        Some(down.value > 0.0 && downBefore.value > 0.0)
      else None,
      if failed != {} && detailsBefore && details then
        Some(Round4(|failed * Members(facts)| as real / |failed| as real))
      else None,
      if streaks && streak.Some? && streakBefore.Some? then Some(streak.value.Floor - streakBefore.value.Floor)
      else None,
      if details then Concentration(LimitUps(facts)) else None,
      if r.status in {Okay, Degraded} then r.ratio else None,
      if r.status in {Okay, Degraded} && r.ratio.Some? then r.status else Insufficient)
  }

  // ---------------------------------------------------------------- rule evidence

  datatype RuleEvidence = RuleEvidence(metric: Metric, ready: bool, value: Option<real>, score: Option<int>)

  predicate IsInverse(m: Metric) { m in {LimitDownCount, FailedLimitUpRatio} }

  function EvidenceFor(m: Metric, current: Payload, history: History): RuleEvidence {
    var value := MetricValue(current, m);
    var percentile := if m in history.percentile then history.percentile[m] else None;
    var ready := value.Some? && history.status == Okay && percentile.Some?;
    RuleEvidence(m, ready, value, if ready then Some(BandScore(percentile.value, IsInverse(m))) else None)
  }

  ghost function AllEvidence(metrics: seq<Metric>, current: Payload, history: History): seq<RuleEvidence> {
    seq(|metrics|, i requires 0 <= i < |metrics| => EvidenceFor(metrics[i], current, history))
  }

  /** A rule is scored exactly when the day has its metric and the history enough usable days, whatever the
      metric; its score is a band. */
  lemma ScoredWhenObserved(store: Store, d: Date, current: Payload, m: Metric)
    ensures
      var e := EvidenceFor(m, current, HistoryOf(store, d, current));
      && (e.score.Some? <==> e.ready)
      && (e.ready <==> MetricValue(current, m).Some? && HistoryOf(store, d, current).valid >= MIN_VALID_OBSERVATIONS)
      && (e.score.Some? ==> e.score.value in {0, 25, 50, 75, 100})
  {
    PercentilesAreComplete(store, d, current, m);
    ScoredWhenReady(HistoryOf(store, d, current), current, m);
  }

  lemma ScoredWhenReady(h: History, current: Payload, m: Metric)
    requires m in h.percentile && (h.status == Okay <==> h.valid >= MIN_VALID_OBSERVATIONS)
    requires h.percentile[m].Some? <==> h.status == Okay && MetricValue(current, m).Some?
    ensures
      var e := EvidenceFor(m, current, h);
      && (e.score.Some? <==> e.ready)
      && (e.ready <==> MetricValue(current, m).Some? && h.valid >= MIN_VALID_OBSERVATIONS)
      && (e.score.Some? ==> e.score.value in {0, 25, 50, 75, 100})
  {
  }

  // ---------------------------------------------------------------- the whole report

  datatype Confidence = High | Medium | NoConfidence

  datatype Report = Report(
    promotion: Promotion,
    qualities: Qualities,
    dimensions: Dimensions,
    totals: seq<Option<nat>>,
    promotedTotal: Option<nat>,
    history: History,
    rules: seq<RuleEvidence>,
    risks: Risks,
    coverage: real,
    confidence: Confidence)

  function PoolTotal(now: Evidence, pool: string): Option<nat> {
    if now.manifest.Some? then Some(CountIf(now.facts, InPool(pool))) else None
  }

  ghost function PoolTotals(now: Evidence): seq<Option<nat>> {
    seq(|POOLS|, i requires 0 <= i < |POOLS| => PoolTotal(now, POOLS[i].0))
  }

  /** The totals of the detail groups, pool by pool. */
  method DetailTotals(now: Evidence) returns (totals: seq<Option<nat>>)
    ensures totals == PoolTotals(now)
  {
    totals := [];
    for i := 0 to |POOLS|
      invariant totals == PoolTotals(now)[..i]
    {
      totals := totals + [PoolTotal(now, POOLS[i].0)];
    }
  }

  /** The rule rows, metric by metric. */
  method RuleRows(current: Payload, history: History) returns (rules: seq<RuleEvidence>)
    ensures rules == AllEvidence(METRICS, current, history)
  {
    rules := [];
    for i := 0 to |METRICS|
      invariant rules == AllEvidence(METRICS, current, history)[..i]
    {
      rules := rules + [EvidenceFor(METRICS[i], current, history)];
    }
  }

  function CoverageOf(valid: nat): real { if valid < 60 then Round4(valid as real / 60.0) else 1.0 }

  function ConfidenceOf(history: History, r: Promotion): Confidence {
    if history.status == Okay && r.status == Okay then High else if history.valid >= 5 then Medium else NoConfidence
  }

  /** The evidence of the session before, when the day resolves. */
  function Before(store: Store, d: Date): Option<(Date, Evidence)> {
    var resolution := ResolveDay(store, d);
    if resolution.refused.None? && resolution.previous.Some?
    then Some((resolution.previous.value, EvidenceAt(store, resolution.previous.value)))
    else None
  }

  function Evident(before: Option<(Date, Evidence)>): Option<Evidence> {
    if before.Some? then Some(before.value.1) else None
  }

  /** What the store itself contributes to the report. */
  ghost function ReportOf(store: Store, d: Date, payload: Payload): Report {
    ReportFrom(d, EvidenceAt(store, d), Before(store, d), payload, BuildPromotion(store, d, payload.quality),
               HistoryOf(store, d, WithPromotion(payload, BuildPromotion(store, d, payload.quality))))
  }

  ghost function ReportFrom(
    d: Date, now: Evidence, before: Option<(Date, Evidence)>, payload: Payload, r: Promotion,
    history: History): Report {
    var facts := if now.manifest.Some? then now.facts else [];
    var current := WithPromotion(payload, r);
    Report(
      r, QualitiesOf(now.manifest, facts), DimensionsOf(now.manifest, facts), PoolTotals(now),
      PromotedTotal(now, Evident(before), r), history, AllEvidence(METRICS, current, history),
      RisksOf(d, now, before, current, r),
      CoverageOf(history.valid), ConfidenceOf(history, r))
  }

  method BuildLimitEcosystem(store: Store, d: Date, payload: Payload) returns (report: Report)
    ensures report == ReportOf(store, d, payload)
  {
    var now := EvidenceAt(store, d);
    var facts := if now.manifest.Some? then now.facts else [];
    var dimensions := Dimensions([], []);
    if now.manifest.Some? {
      dimensions := FactDimensions(now.manifest.value, facts);
    }
    var r := BuildPromotion(store, d, payload.quality);
    var current := WithPromotion(payload, r);
    var before := Before(store, d);
    var promotedTotal := PromotedTotal(now, Evident(before), r);
    var history := BuildHistory(store, d, current);
    var rules := RuleRows(current, history);
    var totals := DetailTotals(now);
    var qualities := ManifestQualities(now.manifest, facts);
    report := Report(
      r, qualities, dimensions, totals, promotedTotal, history, rules,
      RisksOf(d, now, before, current, r), CoverageOf(history.valid), ConfidenceOf(history, r));
  }

  /** Two stores that hold the same of everything dated at or before a day report the same for it. */
  lemma NoLookAhead(a: Store, b: Store, d: Date, payload: Payload)
    requires AgreeUpTo(a, b, d)
    ensures ReportOf(a, d, payload) == ReportOf(b, d, payload)
  {
    assert AgreeAt(a, b, d);
    PromotionLooksBack(a, b, d, payload.quality);
    var r := BuildPromotion(a, d, payload.quality);
    HistoryLooksBack(a, b, d, WithPromotion(payload, r));
    BeforeLooksBack(a, b, d);
  }

  lemma BeforeLooksBack(a: Store, b: Store, d: Date)
    requires AgreeUpTo(a, b, d)
    ensures Before(a, d) == Before(b, d)
  {
    PromotionLooksBack(a, b, d, None);
    ResolvesExactly(a, d);
    var p := ResolveDay(a, d).previous;
    if p.Some? && p.value < d { assert AgreeAt(a, b, p.value); }
  }

  /** With one fact a security and pool, the rows kept of one pool have distinct ids. */
  lemma {:induction false} PoolRowsAreDistinct(facts: seq<Fact>, p: Fact -> bool, pool: string)
    requires OneFactAPool(facts) && forall f | f in facts && p(f) :: f.pool == pool
    ensures DistinctIds(Filter(facts, p))
  {
    if facts != [] {
      var first, rest := facts[0], facts[1..];
      assert forall i | 0 <= i < |rest| :: rest[i] == facts[i + 1];
      PoolRowsAreDistinct(rest, p, pool);
      if p(first) {
        assert first in facts;
        forall f | f in Filter(rest, p) ensures f.id != first.id {
          var i :| 0 <= i < |rest| && rest[i] == f;
          assert facts[i + 1] == f;
        }
        FirstIsDistinct(first, Filter(rest, p));
      }
    }
  }

  lemma FirstIsDistinct(first: Fact, rest: seq<Fact>)
    requires DistinctIds(rest) && forall f | f in rest :: f.id != first.id
    ensures DistinctIds([first] + rest)
  {
  }

  lemma {:induction false} FilterKeepsDistinct(rows: seq<Fact>, p: Fact -> bool)
    requires DistinctIds(rows)
    ensures DistinctIds(Filter(rows, p))
  {
    if rows != [] {
      var first, rest := rows[0], rows[1..];
      assert forall i | 0 <= i < |rest| :: rest[i] == rows[i + 1];
      FilterKeepsDistinct(rest, p);
      if p(first) {
        forall f | f in Filter(rest, p) ensures f.id != first.id {
          var i :| 0 <= i < |rest| && rest[i] == f;
          assert rows[i + 1].id != rows[0].id;
        }
        FirstIsDistinct(first, Filter(rest, p));
      }
    }
  }

  lemma PromotedRowsAreDistinct(now: seq<Fact>, before: seq<Fact>)
    requires OneFactAPool(now)
    ensures DistinctIds(PromotedRows(now, before))
  {
    PoolRowsAreDistinct(now, IsClosedLimitUp, "limit_up");
    var ids := Members(before);
    FilterKeepsDistinct(LimitUps(now), (f: Fact) => f.id in ids);
  }

  /** The promoted detail rows are there exactly when the promotion is counted, and are exactly as many as it
      promotes. */
  lemma PromotedTotalIsPromoted(store: Store, d: Date, payload: Payload)
    requires Keyed(store)
    ensures ReportOf(store, d, payload).promotedTotal == ReportOf(store, d, payload).promotion.promoted
  {
    var r := BuildPromotion(store, d, payload.quality);
    PromotionIsSound(store, d, payload.quality);
    if r.promoted.Some? {
      var now, before := FactsAt(store, d), FactsAt(store, r.previous.value);
      PromotedIds(now, before);
      PromotedRowsAreDistinct(now, before);
      RowsPerId(PromotedRows(now, before));
    }
  }

  // ---------------------------------------------------------------- board concentration

  /** A set's elements, each once. */
  lemma {:induction false} Listed(s: set<string>) returns (names: seq<string>)
    ensures Distinct(names) && |names| == |s| && forall x :: x in names <==> x in s
    decreases |s|
  {
    names := [];
    if s != {} {
      var x :| x in s;
      names := Listed(s - {x});
      names := names + [x];
    }
  }

  lemma {:induction false} SumIsBounded(facts: seq<Fact>, names: seq<string>, largest: nat)
    requires forall i | 0 <= i < |names| :: CountIf(facts, HasLabel(Board, names[i])) <= largest
    ensures SumOfLabels(facts, Board, names) <= |names| * largest
  {
    if names != [] {
      var n := |names| - 1;
      SumIsBounded(facts, names[..n], largest);
      Multiply(n, largest);
    }
  }

  lemma Multiply(n: nat, k: nat)
    ensures (n + 1) * k == n * k + k
  {
  }

  /** Facts that all have a board are no more than the boards times the largest of them. */
  lemma BoardsHoldAll(facts: seq<Fact>, boards: set<string>, largest: nat)
    requires forall f | f in facts :: BoardOf(f).Some? && BoardOf(f).value in boards
    requires forall b | b in boards :: CountIf(facts, HasLabel(Board, b)) <= largest
    ensures |facts| <= |boards| * largest
  {
    var names := Listed(boards);
    SumIsBounded(facts, names, largest);
    LabelsCountOnce(facts, Board, names);
    CountOfAll(facts, HasOneOf(Board, names));
  }

  lemma {:induction false} LargestBoardIsLargest(ups: seq<Fact>, all: seq<Fact>)
    ensures LargestBoard(ups, all) <= |all|
    ensures forall b | b in Boards(ups) :: CountIf(all, HasLabel(Board, b)) <= LargestBoard(ups, all)
  {
    if ups != [] {
      LargestBoardIsLargest(ups[1..], all);
      assert forall f | f in ups :: f == ups[0] || f in ups[1..];
    }
  }

  /** A concentration is at most 1 and at least an equal share among the boards. */
  lemma ConcentrationIsBounded(ups: seq<Fact>)
    requires Concentration(ups).Some?
    ensures |Boards(ups)| > 0 && Round4(1.0 / |Boards(ups)| as real) <= Concentration(ups).value <= 1.0
  {
    var boards, largest := Boards(ups), LargestBoard(ups, ups);
    assert ups[0] in ups;
    assert BoardOf(ups[0]).value in boards;
    LargestBoardIsLargest(ups, ups);
    BoardsHoldAll(ups, boards, largest);
    RoundedShare(largest, |ups|);
    ShareIsAtLeastEqual(largest, |ups|, |boards|);
    Round4IsMonotone(1.0 / |boards| as real, largest as real / |ups| as real);
  }

  lemma ShareIsAtLeastEqual(part: nat, whole: nat, n: nat)
    requires whole > 0 && n > 0 && whole <= n * part
    ensures 1.0 / n as real <= part as real / whole as real
  {
    var w, p, m := whole as real, part as real, n as real;
    assert w <= m * p;
    assert (1.0 / m) * w <= (1.0 / m) * (m * p);
    assert (1.0 / m) * (m * p) == p;
    assert (p / w) * w == p;
  }

  /** A repair ratio is a share of the earlier failures, and a feedback ratio of the earlier limit-ups. */
  lemma RatiosAreShares(store: Store, d: Date, payload: Payload)
    ensures
      var risks := ReportOf(store, d, payload).risks;
      && (risks.repair.Some? ==> 0.0 <= risks.repair.value <= 1.0)
      && (risks.feedback.Some? ==> 0.0 <= risks.feedback.value <= 1.0)
      && (risks.feedback.Some? <==> risks.feedbackStatus != Insufficient)
  {
    PromotionIsSound(store, d, payload.quality);
    var now, before := EvidenceAt(store, d), Before(store, d);
    if before.Some? && FailedIds(before.value.1.facts) != {} {
      var failed := FailedIds(before.value.1.facts);
      var facts := if now.manifest.Some? then now.facts else [];
      SubsetIsSmaller(failed * Members(facts), failed);
      RoundedShare(|failed * Members(facts)|, |failed|);
    }
  }

  /** The day and the session recorded before it are evidenced, and both have complete details. */
  ghost predicate TwoCompleteDays(store: Store, d: Date) {
    && ResolveDay(store, d).refused.None? && ResolveDay(store, d).previous.Some?
    && var p := ResolveDay(store, d).previous.value;
       && p < d && IsEvidenced(store, d) && IsEvidenced(store, p)
       && DetailComplete(EvidenceAt(store, d), d) && DetailComplete(EvidenceAt(store, p), p)
  }

  /** Both days have a positive number of limit-downs. */
  ghost predicate FellOnBothDays(store: Store, d: Date, payload: Payload)
    requires TwoCompleteDays(store, d)
  {
    var before := SnapshotAt(store, ResolveDay(store, d).previous.value);
    var down := MetricValue(WithPromotion(payload, BuildPromotion(store, d, payload.quality)), LimitDownCount);
    && before.Some? && down.Some? && down.value > 0.0
    && MetricValue(before.value.payload, LimitDownCount).Some?
    && MetricValue(before.value.payload, LimitDownCount).value > 0.0
  }

  /** The rows that compare with the session before have a value only when the day resolves and both days'
      details are complete; a consecutive fall means both days had one. */
  lemma ComparisonsNeedTwoCompleteDays(store: Store, d: Date, payload: Payload)
    ensures
      var risks := ReportOf(store, d, payload).risks;
      (risks.consecutiveDown.Some? || risks.repair.Some? || risks.ladderChange.Some?) ==> TwoCompleteDays(store, d)
    ensures
      var down := ReportOf(store, d, payload).risks.consecutiveDown;
      down.Some? ==> TwoCompleteDays(store, d) && (down.value <==> FellOnBothDays(store, d, payload))
  {
    ResolvesExactly(store, d);
  }
}
