/**
 * The limits ecosystem of a day: pool qualities, the streak ladder and its strata, the promoted members, the
 * standing of each metric in its history, and the risk rows. Everything is counted from evidence dated on or
 * before the day.
 */
module LimitEcosystem {
  import opened Common
  import opened LimitEvidence
  import opened LimitHistory

  // ---------------------------------------------------------------- counting facts

  function CountIf(facts: seq<Fact>, p: Fact -> bool): (n: nat)
    ensures n <= |facts|
  {
    if facts == [] then 0 else (if p(facts[0]) then 1 else 0) + CountIf(facts[1..], p)
  }

  function Filter(facts: seq<Fact>, p: Fact -> bool): (r: seq<Fact>)
    ensures |r| == CountIf(facts, p)
    ensures forall f :: f in r <==> f in facts && p(f)
  {
    if facts == [] then [] else (if p(facts[0]) then [facts[0]] else []) + Filter(facts[1..], p)
  }

  /** The valid members of the limit-up pool that closed at their limit. */
  function LimitUps(facts: seq<Fact>): seq<Fact> { Filter(facts, IsClosedLimitUp) }

  /** Predicates of which exactly one holds of each fact count all of them. */
  lemma {:induction false} CountsOfCases(facts: seq<Fact>, a: Fact -> bool, b: Fact -> bool, c: Fact -> bool)
    requires forall f | f in facts :: (a(f) || b(f) <==> c(f)) && !(a(f) && b(f))
    ensures CountIf(facts, a) + CountIf(facts, b) == CountIf(facts, c)
  {
    if facts != [] {
      assert facts[0] in facts && forall f | f in facts[1..] :: f in facts;
      CountsOfCases(facts[1..], a, b, c);
    }
  }

  /** A count is of all exactly when every fact meets the predicate. */
  lemma {:induction false} CountOfAll(facts: seq<Fact>, p: Fact -> bool)
    ensures CountIf(facts, p) == |facts| <==> forall f | f in facts :: p(f)
  {
    if facts != [] { CountOfAll(facts[1..], p); }
  }

  // ---------------------------------------------------------------- pool qualities

  const POOLS: seq<(string, string)> :=
    [("limit_up", "limitUp"), ("limit_down", "limitDown"), ("failed_limit_up", "failedLimitUp")]

  function InPool(pool: string): Fact -> bool { (f: Fact) => f.pool == pool && f.membershipValid }

  /** A status outside the known ones, or none, is the default. */
  function NormalizedStatus(raw: Status, fallback: Status, observations: nat): Status {
    match raw
    case Fallback | Partial | Missing => if observations > 0 then Degraded else Insufficient
    case OtherStatus => fallback
    case _ => raw
  }

  function PoolStatus(m: Manifest, facts: seq<Fact>, pool: (string, string)): Status {
    var raw :=
      if pool.0 in m.poolQuality then m.poolQuality[pool.0]
      else if pool.1 in m.poolQuality then m.poolQuality[pool.1]
      else OtherStatus;
    NormalizedStatus(raw, if m.membershipComplete then Okay else Insufficient, CountIf(facts, InPool(pool.0)))
  }

  datatype Qualities = Qualities(membership: Status, streak: Status, pools: seq<Status>)

  function QualitiesOf(manifest: Option<Manifest>, facts: seq<Fact>): Qualities {
    if manifest.None? then Qualities(Insufficient, Insufficient, seq(|POOLS|, i => Insufficient))
    else
      var m := manifest.value;
      var pools := seq(|POOLS|, i requires 0 <= i < |POOLS| => PoolStatus(m, facts, POOLS[i]));
      var membership :=
        if !m.membershipComplete then Insufficient
        else if Degraded in pools || Failed in pools then Degraded
        else Okay;
      Qualities(membership, if m.streakComplete then membership else Insufficient, pools)
  }

  /** The pools' qualities, pool by pool, and what they make of the membership and the streaks. */
  method ManifestQualities(manifest: Option<Manifest>, facts: seq<Fact>) returns (r: Qualities)
    ensures r == QualitiesOf(manifest, facts)
  {
    if manifest.None? {
      return Qualities(Insufficient, Insufficient, seq(|POOLS|, i => Insufficient));
    }
    var m := manifest.value;
    var pools: seq<Status>, degraded := [], false;
    for i := 0 to |POOLS|
      invariant pools == QualitiesOf(manifest, facts).pools[..i]
      invariant degraded <==> Degraded in pools || Failed in pools
    {
      var status := PoolStatus(m, facts, POOLS[i]);
      pools := pools + [status];
      degraded := degraded || status == Degraded || status == Failed;
    }
    var membership := if !m.membershipComplete then Insufficient else if degraded then Degraded else Okay;
    r := Qualities(membership, if m.streakComplete then membership else Insufficient, pools);
  }

  // ---------------------------------------------------------------- the ladder and the strata

  /** A count, none when its facts are not complete. */
  datatype Stratum = Stratum(dimension: string, key: string, count: Option<nat>)

  predicate HasStreak(f: Fact) { f.streak.Some? && f.streak.value >= 1 }

  predicate LadderComplete(m: Manifest, ups: seq<Fact>) {
    m.membershipComplete && m.streakComplete && forall f | f in ups :: HasStreak(f)
  }

  function InTier(tier: nat): Fact -> bool {
    (f: Fact) => f.streak.Some? && if tier < 4 then f.streak.value == tier else f.streak.value >= tier
  }

  function CountWhen(complete: bool, facts: seq<Fact>, p: Fact -> bool): Option<nat> {
    if complete then Some(CountIf(facts, p)) else None
  }

  function LadderOf(m: Manifest, ups: seq<Fact>): (r: seq<Option<nat>>)
    ensures |r| == 4
  {
    seq(4, i requires 0 <= i < 4 => CountWhen(LadderComplete(m, ups), ups, InTier(i + 1)))
  }

  datatype Field = Exchange | Regime | Board

  function Get(f: Fact, field: Field): Option<string> {
    var v := match field case Exchange => f.exchange case Regime => f.regime case Board => f.board;
    if v == Some("") then None else v
  }

  function Labels(field: Field): seq<string> {
    match field
    case Exchange => ["SSE", "SZSE", "BSE"]
    case Regime => ["main", "st", "chi_next", "star", "pct:30"]
    case Board => ["main", "chi_next", "star"]
  }

  function FieldName(field: Field): string {
    match field case Exchange => "exchange" case Regime => "regime" case Board => "board"
  }

  function HasLabel(field: Field, name: string): Fact -> bool { (f: Fact) => Get(f, field) == Some(name) }

  predicate FieldComplete(m: Manifest, ups: seq<Fact>, field: Field) {
    m.membershipComplete && forall f | f in ups :: Get(f, field).Some?
  }

  function FieldStrata(m: Manifest, ups: seq<Fact>, field: Field): (r: seq<Stratum>)
    ensures |r| == |Labels(field)|
  {
    seq(|Labels(field)|, i requires 0 <= i < |Labels(field)| =>
      Stratum(FieldName(field), Labels(field)[i],
          CountWhen(FieldComplete(m, ups, field), ups, HasLabel(field, Labels(field)[i]))))
  }

  predicate IsSt(f: Fact) { f.isSt == Some(true) }

  predicate IsNewListing(f: Fact) {
    f.isNew == Some(true) || (f.isNew.None? && f.listingDays.Some? && f.listingDays.value < 5)
  }

  predicate KnowsListing(f: Fact) { f.isNew.Some? || (f.listingDays.Some? && f.listingDays.value >= 0) }

  predicate IsHigh(f: Fact) { f.streak.Some? && f.streak.value >= 4 }

  predicate IsMiddle(f: Fact) { f.streak in {Some(2), Some(3)} }

  predicate IsLow(f: Fact) { f.streak == Some(1) }

  predicate FlagsComplete(m: Manifest, ups: seq<Fact>) { m.membershipComplete && forall f | f in ups :: f.isSt.Some? }

  predicate ListingsComplete(m: Manifest, ups: seq<Fact>) {
    m.membershipComplete && forall f | f in ups :: KnowsListing(f)
  }

  function RiskStrata(m: Manifest, ups: seq<Fact>): seq<Stratum> {
    var ladder := LadderComplete(m, ups);
    [ Stratum("risk_tier", "st", CountWhen(FlagsComplete(m, ups), ups, IsSt)),
      Stratum("risk_tier", "ipo", CountWhen(ListingsComplete(m, ups), ups, IsNewListing)),
      Stratum("risk_tier", "high", CountWhen(ladder, ups, IsHigh)),
      Stratum("risk_tier", "middle", CountWhen(ladder, ups, IsMiddle)),
      Stratum("risk_tier", "low", CountWhen(ladder, ups, IsLow)),
      Stratum("sector", "unknown", None) ]
  }

  datatype Dimensions = Dimensions(ladder: seq<Option<nat>>, strata: seq<Stratum>)

  function DimensionsOf(manifest: Option<Manifest>, facts: seq<Fact>): Dimensions {
    if manifest.None? then Dimensions([], [])
    else
      var m, ups := manifest.value, LimitUps(facts);
      Dimensions(
        LadderOf(m, ups),
        FieldStrata(m, ups, Exchange) + FieldStrata(m, ups, Regime) + FieldStrata(m, ups, Board) + RiskStrata(m, ups))
  }

  /** The ladder and the strata, one dimension and one label at a time. */
  method FactDimensions(m: Manifest, facts: seq<Fact>) returns (r: Dimensions)
    ensures r == DimensionsOf(Some(m), facts)
  {
    var ups := LimitUps(facts);
    var ladderComplete := LadderComplete(m, ups);
    var ladder: seq<Option<nat>> := [];
    for i := 0 to 4
      invariant ladder == LadderOf(m, ups)[..i]
    {
      ladder := ladder + [CountWhen(ladderComplete, ups, InTier(i + 1))];
    }
    var exchanges := CountLabels(m, ups, Exchange);
    var regimes := CountLabels(m, ups, Regime);
    var boards := CountLabels(m, ups, Board);
    r := Dimensions(ladder, exchanges + regimes + boards + RiskStrata(m, ups));
  }

  method CountLabels(m: Manifest, ups: seq<Fact>, field: Field) returns (strata: seq<Stratum>)
    ensures strata == FieldStrata(m, ups, field)
  {
    var complete := FieldComplete(m, ups, field);
    strata := [];
    for i := 0 to |Labels(field)|
      invariant strata == FieldStrata(m, ups, field)[..i]
    {
      var name := Labels(field)[i];
      strata := strata + [Stratum(FieldName(field), name, CountWhen(complete, ups, HasLabel(field, name)))];
    }
  }

  /** With complete streak facts the four tiers, and likewise high, middle and low, make up all limit-ups;
      without, none of them has a count. */
  lemma LadderConserves(m: Manifest, ups: seq<Fact>)
    ensures
      var l, high, middle, low := LadderOf(m, ups), RiskStrata(m, ups)[2], RiskStrata(m, ups)[3], RiskStrata(m, ups)[4];
      if LadderComplete(m, ups) then
        && (forall i | 0 <= i < 4 :: l[i].Some?)
        && l[0].value + l[1].value + l[2].value + l[3].value == |ups|
        && high.count == l[3] && middle.count == Some(l[1].value + l[2].value) && low.count == l[0]
      else
        (forall i | 0 <= i < 4 :: l[i].None?) && high.count.None? && middle.count.None? && low.count.None?
  {
    if LadderComplete(m, ups) {
      TiersAreRiskTiers(ups);
      RiskTiersMakeUpAll(ups);
    }
  }

  /** The first tier is the low one, the second and third the middle, the fourth the high. */
  lemma TiersAreRiskTiers(ups: seq<Fact>)
    ensures CountIf(ups, InTier(1)) == CountIf(ups, IsLow) && CountIf(ups, InTier(4)) == CountIf(ups, IsHigh)
    ensures CountIf(ups, InTier(2)) + CountIf(ups, InTier(3)) == CountIf(ups, IsMiddle)
  {
    CountIsSame(ups, InTier(1), IsLow);
    CountIsSame(ups, InTier(4), IsHigh);
    CountsOfCases(ups, InTier(2), InTier(3), IsMiddle);
  }

  lemma {:induction false} RiskTiersMakeUpAll(ups: seq<Fact>)
    requires forall f | f in ups :: HasStreak(f)
    ensures CountIf(ups, IsHigh) + CountIf(ups, IsMiddle) + CountIf(ups, IsLow) == |ups|
  {
    if ups != [] {
      assert HasStreak(ups[0]) && forall f | f in ups[1..] :: f in ups;
      RiskTiersMakeUpAll(ups[1..]);
    }
  }

  predicate NoFact(f: Fact) { false }

  lemma {:induction false} CountOfNone(facts: seq<Fact>)
    ensures CountIf(facts, NoFact) == 0
  {
    if facts != [] { CountOfNone(facts[1..]); }
  }

  /** The facts whose field is one of some labels. */
  function HasOneOf(field: Field, labels: seq<string>): Fact -> bool {
    (f: Fact) => Get(f, field).Some? && Get(f, field).value in labels
  }

  ghost function SumOfLabels(ups: seq<Fact>, field: Field, labels: seq<string>): nat {
    if labels == [] then 0
    else SumOfLabels(ups, field, labels[..|labels| - 1]) + CountIf(ups, HasLabel(field, labels[|labels| - 1]))
  }

  ghost predicate Distinct(labels: seq<string>) { forall i, j | 0 <= i < j < |labels| :: labels[i] != labels[j] }

  lemma {:induction false} LabelsCountOnce(ups: seq<Fact>, field: Field, labels: seq<string>)
    requires Distinct(labels)
    ensures SumOfLabels(ups, field, labels) == CountIf(ups, HasOneOf(field, labels))
  {
    if labels == [] {
      CountIsSame(ups, HasOneOf(field, labels), NoFact);
      CountOfNone(ups);
    } else {
      var n := |labels| - 1;
      LabelsCountOnce(ups, field, labels[..n]);
      assert labels == labels[..n] + [labels[n]];
      CountsOfCases(ups, HasOneOf(field, labels[..n]), HasLabel(field, labels[n]), HasOneOf(field, labels));
    }
  }

  lemma {:induction false} CountIsSame(facts: seq<Fact>, p: Fact -> bool, q: Fact -> bool)
    requires forall f | f in facts :: p(f) <==> q(f)
    ensures CountIf(facts, p) == CountIf(facts, q)
  {
    if facts != [] {
      assert facts[0] in facts && forall f | f in facts[1..] :: f in facts;
      CountIsSame(facts[1..], p, q);
    }
  }

  lemma LabelsAreDistinct(field: Field)
    ensures Distinct(Labels(field))
  {
    var l := Labels(field);
    match field
    case Exchange => assert |l[0]| == |l[2]| == 3 && l[0][0] == 'S' && l[2][0] == 'B' && |l[1]| == 4;
    case Regime =>
      assert |l[0]| == |l[3]| == 4 && |l[1]| == 2 && |l[2]| == 8 && |l[4]| == 6 && l[0][0] == 'm' && l[3][0] == 's';
    case Board => assert |l[0]| == 4 && |l[1]| == 8 && |l[2]| == 4 && l[0][0] == 'm' && l[2][0] == 's';
  }

  ghost function SumOfCounts(strata: seq<Stratum>): nat
    requires forall i | 0 <= i < |strata| :: strata[i].count.Some?
  {
    if strata == [] then 0 else SumOfCounts(strata[..|strata| - 1]) + strata[|strata| - 1].count.value
  }

  lemma {:induction false} StrataSum(ups: seq<Fact>, field: Field, names: seq<string>, strata: seq<Stratum>)
    requires |strata| == |names|
    requires forall i | 0 <= i < |names| :: strata[i].count == Some(CountIf(ups, HasLabel(field, names[i])))
    ensures SumOfCounts(strata) == SumOfLabels(ups, field, names)
  {
    if names != [] {
      var n := |names| - 1;
      StrataSum(ups, field, names[..n], strata[..n]);
    }
  }

  /** The strata of a dimension have counts exactly when its facts are complete; their counts never exceed the
      limit-ups, and make them all up exactly when every one has a listed label. */
  lemma StrataConserve(m: Manifest, ups: seq<Fact>, field: Field)
    ensures
      var strata := FieldStrata(m, ups, field);
      if FieldComplete(m, ups, field) then
        && (forall i | 0 <= i < |strata| :: strata[i].count.Some?)
        && SumOfCounts(strata) <= |ups|
        && (SumOfCounts(strata) == |ups| <==>
            forall f | f in ups :: Get(f, field).Some? && Get(f, field).value in Labels(field))
      else forall i | 0 <= i < |strata| :: strata[i].count.None?
  {
    if FieldComplete(m, ups, field) {
      LabelsAreDistinct(field);
      LabelsCountOnce(ups, field, Labels(field));
      CountOfAll(ups, HasOneOf(field, Labels(field)));
      StrataSum(ups, field, Labels(field), FieldStrata(m, ups, field));
    }
  }
}
