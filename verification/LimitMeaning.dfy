/**
 * What the numbers of a day's limits are: every count, share, rank and score of the report in terms of the
 * facts, sessions and snapshots in the store.
 */
module LimitMeaning {
  import opened Common
  import opened LimitEvidence
  import opened LimitHistory
  import opened LimitEcosystem
  import opened LimitReport

  // ---------------------------------------------------------------- counts

  /** The places of a list at which something holds. */
  ghost function Places<T>(s: seq<T>, p: T -> bool): set<nat> { set i: nat | i < |s| && p(s[i]) }

  lemma PlacesOfFirst<T>(s: seq<T>, p: T -> bool)
    requires s != []
    ensures |Places(s, p)| == |Places(s[1..], p)| + if p(s[0]) then 1 else 0
  {
    var moved := set i: nat | 0 < i < |s| && p(s[i]);
    forall i: nat ensures i in Places(s[1..], p) <==> i + 1 in moved {
      if i + 1 < |s| { assert s[1..][i] == s[i + 1]; }
    }
    SameSize(Places(s[1..], p), moved);
    if p(s[0]) {
      assert Places(s, p) == moved + {0};
    } else {
      assert Places(s, p) == moved;
    }
  }

  lemma PlacesOfLast<T>(s: seq<T>, p: T -> bool)
    requires s != []
    ensures |Places(s, p)| == |Places(s[..|s| - 1], p)| + if p(s[|s| - 1]) then 1 else 0
  {
    var front := Places(s[..|s| - 1], p);
    if p(s[|s| - 1]) {
      assert Places(s, p) == front + {|s| - 1};
    } else {
      assert Places(s, p) == front;
    }
  }

  lemma {:induction false} SameSize(a: set<nat>, b: set<nat>)
    requires 0 !in b && forall i: nat :: i in a <==> i + 1 in b
    ensures |a| == |b|
  {
    if a != {} {
      var x :| x in a;
      SameSize(a - {x}, b - {x + 1});
    } else {
      forall y: nat ensures y !in b { if y > 0 { assert y - 1 !in a; } }
    }
  }

  /** A count is the number of places. */
  lemma {:induction false} CountIsPlaces(facts: seq<Fact>, p: Fact -> bool)
    ensures CountIf(facts, p) == |Places(facts, p)|
  {
    if facts != [] {
      CountIsPlaces(facts[1..], p);
      PlacesOfFirst(facts, p);
    }
  }

  /** Counting among the facts that were kept is counting both conditions among all. */
  lemma {:induction false} CountOfKept(facts: seq<Fact>, p: Fact -> bool, q: Fact -> bool, both: Fact -> bool)
    requires forall f :: both(f) <==> p(f) && q(f)
    ensures CountIf(Filter(facts, p), q) == |Places(facts, both)|
  {
    if facts != [] {
      CountOfKept(facts[1..], p, q, both);
      PlacesOfFirst(facts, both);
      var kept := Filter(facts[1..], p);
      if p(facts[0]) {
        assert Filter(facts, p) == [facts[0]] + kept;
        assert ([facts[0]] + kept)[1..] == kept;
      } else {
        assert Filter(facts, p) == kept;
      }
    }
  }

  /** A limit-up that closed at its limit, from the fact's own fields. */
  predicate ClosedUp(f: Fact) { f.pool == "limit_up" && f.membershipValid && f.closed == Some(true) }

  /** A count among a day's limit-ups is that of the places of those that meet its condition. */
  lemma UpsAreCounted(facts: seq<Fact>, p: Fact -> bool, places: set<nat>)
    requires forall i: nat :: i in places <==> i < |facts| && ClosedUp(facts[i]) && p(facts[i])
    ensures CountIf(LimitUps(facts), p) == |places|
  {
    var both := (f: Fact) => ClosedUp(f) && p(f);
    forall f: Fact ensures both(f) <==> IsClosedLimitUp(f) && p(f) {
      assert IsClosedLimitUp(f) <==> ClosedUp(f);
    }
    CountOfKept(facts, IsClosedLimitUp, p, both);
    assert places == Places(facts, both);
  }

  // ---------------------------------------------------------------- the ladder and the strata

  /** The closed limit-ups in their k-th session, and in their k-th or a later one. */
  ghost function UpsInSession(facts: seq<Fact>, k: int): set<nat> {
    set i: nat | i < |facts| && ClosedUp(facts[i]) && facts[i].streak == Some(k)
  }

  ghost function UpsFromSession(facts: seq<Fact>, k: int): set<nat> {
    set i: nat | i < |facts| && ClosedUp(facts[i]) && facts[i].streak.Some? && facts[i].streak.value >= k
  }

  /** Every closed limit-up has a streak of at least one session. */
  ghost predicate StreaksAreKnown(m: Manifest, facts: seq<Fact>) {
    && m.membershipComplete && m.streakComplete
    && forall f | f in facts && ClosedUp(f) :: f.streak.Some? && f.streak.value >= 1
  }

  lemma StreaksAreComplete(m: Manifest, facts: seq<Fact>)
    ensures LadderComplete(m, LimitUps(facts)) <==> StreaksAreKnown(m, facts)
  {
    var ups := LimitUps(facts);
    if LadderComplete(m, ups) {
      forall f | f in facts && ClosedUp(f) ensures f.streak.Some? && f.streak.value >= 1 {
        assert f in ups && HasStreak(f);
      }
    }
    if StreaksAreKnown(m, facts) {
      forall f | f in ups ensures HasStreak(f) { assert f in facts && ClosedUp(f); }
    }
  }

  /** The ladder of a day: how many of its limit-ups are in their first, second, third, and a later session,
      or nothing when the day's details or any limit-up's streak are not complete; and the risk tiers high,
      middle and low are the fourth, the second and third together, and the first. */
  lemma LadderCountsStreaks(m: Manifest, facts: seq<Fact>)
    ensures
      DimensionsOf(Some(m), facts).ladder ==
      if StreaksAreKnown(m, facts) then
        [ Some(|UpsInSession(facts, 1)|), Some(|UpsInSession(facts, 2)|), Some(|UpsInSession(facts, 3)|),
          Some(|UpsFromSession(facts, 4)|) ]
      else [None, None, None, None]
  {
    StreaksAreComplete(m, facts);
    TiersAreCounted(facts);
    LadderListsTiers(m, LimitUps(facts));
  }

  lemma LadderListsTiers(m: Manifest, ups: seq<Fact>)
    ensures
      LadderOf(m, ups) ==
      if LadderComplete(m, ups) then
        [ Some(CountIf(ups, InTier(1))), Some(CountIf(ups, InTier(2))), Some(CountIf(ups, InTier(3))),
          Some(CountIf(ups, InTier(4))) ]
      else [None, None, None, None]
  {
    var ladder := LadderOf(m, ups);
    assert ladder == [ladder[0], ladder[1], ladder[2], ladder[3]];
  }

  lemma TiersAreCounted(facts: seq<Fact>)
    ensures CountIf(LimitUps(facts), InTier(1)) == |UpsInSession(facts, 1)|
    ensures CountIf(LimitUps(facts), InTier(2)) == |UpsInSession(facts, 2)|
    ensures CountIf(LimitUps(facts), InTier(3)) == |UpsInSession(facts, 3)|
    ensures CountIf(LimitUps(facts), InTier(4)) == |UpsFromSession(facts, 4)|
  {
    UpsAreCounted(facts, InTier(1), UpsInSession(facts, 1));
    UpsAreCounted(facts, InTier(2), UpsInSession(facts, 2));
    UpsAreCounted(facts, InTier(3), UpsInSession(facts, 3));
    UpsAreCounted(facts, InTier(4), UpsFromSession(facts, 4));
  }

  // ---------------------------------------------------------------- strata

  const KEYS: seq<(string, string)> := [
    ("exchange", "SSE"), ("exchange", "SZSE"), ("exchange", "BSE"),
    ("regime", "main"), ("regime", "st"), ("regime", "chi_next"), ("regime", "star"), ("regime", "pct:30"),
    ("board", "main"), ("board", "chi_next"), ("board", "star"),
    ("risk_tier", "st"), ("risk_tier", "ipo"), ("risk_tier", "high"), ("risk_tier", "middle"), ("risk_tier", "low"),
    ("sector", "unknown")]

  /** A fact's own value in a dimension. */
  function ValueIn(f: Fact, dimension: string): Option<string> {
    if dimension == "exchange" then f.exchange else if dimension == "regime" then f.regime else f.board
  }

  /** Every closed limit-up has a value in the dimension. */
  ghost predicate ValuesAreKnown(m: Manifest, facts: seq<Fact>, dimension: string) {
    && m.membershipComplete
    && forall f | f in facts && ClosedUp(f) :: ValueIn(f, dimension).Some? && ValueIn(f, dimension) != Some("")
  }

  ghost function UpsWithValue(facts: seq<Fact>, dimension: string, key: string): set<nat> {
    set i: nat | i < |facts| && ClosedUp(facts[i]) && ValueIn(facts[i], dimension) == Some(key)
  }

  lemma FieldCounts(m: Manifest, facts: seq<Fact>, field: Field, key: string)
    requires key != ""
    ensures
      CountWhen(FieldComplete(m, LimitUps(facts), field), LimitUps(facts), HasLabel(field, key)) ==
      if ValuesAreKnown(m, facts, FieldName(field)) then Some(|UpsWithValue(facts, FieldName(field), key)|) else None
  {
    var ups, name := LimitUps(facts), FieldName(field);
    NamesDiffer();
    forall f: Fact
      ensures LimitEcosystem.Get(f, field) == if ValueIn(f, name) == Some("") then None else ValueIn(f, name)
    {
    }
    if FieldComplete(m, ups, field) {
      forall f | f in facts && ClosedUp(f) ensures ValueIn(f, name).Some? && ValueIn(f, name) != Some("") {
        assert f in ups;
      }
    }
    if ValuesAreKnown(m, facts, name) {
      forall f | f in ups ensures LimitEcosystem.Get(f, field).Some? { assert f in facts && ClosedUp(f); }
    }
    UpsAreCounted(facts, HasLabel(field, key), UpsWithValue(facts, name, key));
  }

  lemma NamesDiffer()
    ensures "exchange" != "regime" && "exchange" != "board" && "regime" != "board"
  {
    assert |"exchange"| == 8 && |"regime"| == 6 && |"board"| == 5;
  }

  /** Where a field's labels begin among the keys. */
  function Offset(field: Field): nat { match field case Exchange => 0 case Regime => 3 case Board => 8 }

  lemma LabelsAreKeys(field: Field, i: nat)
    requires i < |Labels(field)|
    ensures Offset(field) + i < 11 && KEYS[Offset(field) + i] == (FieldName(field), Labels(field)[i])
  {
    match field
    case Exchange => assert i == 0 || i == 1 || i == 2;
    case Regime => assert i == 0 || i == 1 || i == 2 || i == 3 || i == 4;
    case Board => assert i == 0 || i == 1 || i == 2;
  }

  /** The strata of the fields come first, then those of the risks. */
  lemma StrataAreInOrder(m: Manifest, facts: seq<Fact>)
    ensures
      var strata, ups := DimensionsOf(Some(m), facts).strata, LimitUps(facts);
      |strata| == 17 && forall k | 0 <= k < 6 :: strata[11 + k] == RiskStrata(m, ups)[k]
  {
    var ups := LimitUps(facts);
    InOrder(
      FieldStrata(m, ups, Exchange), FieldStrata(m, ups, Regime), FieldStrata(m, ups, Board), RiskStrata(m, ups));
  }

  lemma StratumOfField(m: Manifest, facts: seq<Fact>, field: Field, i: nat)
    requires i < |Labels(field)|
    ensures
      var strata, ups := DimensionsOf(Some(m), facts).strata, LimitUps(facts);
      && |strata| == 17
      && strata[Offset(field) + i] ==
           Stratum(FieldName(field), Labels(field)[i],
                   CountWhen(FieldComplete(m, ups, field), ups, HasLabel(field, Labels(field)[i])))
  {
    var ups := LimitUps(facts);
    InOrder(
      FieldStrata(m, ups, Exchange), FieldStrata(m, ups, Regime), FieldStrata(m, ups, Board), RiskStrata(m, ups));
    var strata := DimensionsOf(Some(m), facts).strata;
    match field
    case Exchange => assert strata[i] == FieldStrata(m, ups, Exchange)[i];
    case Regime => assert strata[3 + i] == FieldStrata(m, ups, Regime)[i];
    case Board => assert strata[8 + i] == FieldStrata(m, ups, Board)[i];
  }

  lemma InOrder(a: seq<Stratum>, b: seq<Stratum>, c: seq<Stratum>, d: seq<Stratum>)
    requires |a| == 3 && |b| == 5 && |c| == 3 && |d| == 6
    ensures
      var all := a + b + c + d;
      && |all| == 17
      && (forall i | 0 <= i < 3 :: all[i] == a[i]) && (forall i | 0 <= i < 5 :: all[3 + i] == b[i])
      && (forall i | 0 <= i < 3 :: all[8 + i] == c[i]) && (forall i | 0 <= i < 6 :: all[11 + i] == d[i])
  {
  }

  /** The strata of a day come in this order, with these keys. */
  lemma StrataAreListed(m: Manifest, facts: seq<Fact>)
    ensures
      var strata := DimensionsOf(Some(m), facts).strata;
      |strata| == |KEYS| && forall j | 0 <= j < |KEYS| :: (strata[j].dimension, strata[j].key) == KEYS[j]
  {
    var strata, ups := DimensionsOf(Some(m), facts).strata, LimitUps(facts);
    StrataAreInOrder(m, facts);
    forall j | 0 <= j < |KEYS| ensures (strata[j].dimension, strata[j].key) == KEYS[j] {
      if j < 11 {
        var (field, i) := FieldAt(j);
        LabelsAreKeys(field, i);
        StratumOfField(m, facts, field, i);
      } else {
        RiskKeys(m, ups, j - 11);
      }
    }
  }

  function FieldAt(j: nat): (r: (Field, nat))
    requires j < 11
    ensures r.1 < |Labels(r.0)| && Offset(r.0) + r.1 == j
  {
    if j < 3 then (Exchange, j) else if j < 8 then (Regime, j - 3) else (Board, j - 8)
  }

  lemma RiskKeys(m: Manifest, ups: seq<Fact>, k: nat)
    requires k < 6
    ensures var s := RiskStrata(m, ups)[k]; (s.dimension, s.key) == KEYS[11 + k]
  {
    assert k == 0 || k == 1 || k == 2 || k == 3 || k == 4 || k == 5;
  }

  /** The first eleven count the limit-ups with their key's value, when every limit-up has one at all. */
  lemma StrataCountValues(m: Manifest, facts: seq<Fact>, j: nat)
    requires j < 11
    ensures
      var strata := DimensionsOf(Some(m), facts).strata;
      var (dimension, key) := KEYS[j];
      && |strata| == |KEYS|
      && strata[j].count ==
           if ValuesAreKnown(m, facts, dimension) then Some(|UpsWithValue(facts, dimension, key)|) else None
  {
    var (field, i) := FieldAt(j);
    StratumOfField(m, facts, field, i);
    LabelsAreKeys(field, i);
    LabelIsNoBlank(field, i);
    FieldCounts(m, facts, field, Labels(field)[i]);
  }

  lemma LabelIsNoBlank(field: Field, i: nat)
    requires i < |Labels(field)|
    ensures Labels(field)[i] != ""
  {
    match field
    case Exchange => assert i == 0 || i == 1 || i == 2;
    case Regime => assert i == 0 || i == 1 || i == 2 || i == 3 || i == 4;
    case Board => assert i == 0 || i == 1 || i == 2;
  }

  /** What is known of every closed limit-up's listing: that it is new or not, or since when it is listed. */
  ghost predicate ListingsAreKnown(m: Manifest, facts: seq<Fact>) {
    && m.membershipComplete
    && forall f | f in facts && ClosedUp(f) :: f.isNew.Some? || (f.listingDays.Some? && f.listingDays.value >= 0)
  }

  ghost predicate FlagsAreKnown(m: Manifest, facts: seq<Fact>) {
    m.membershipComplete && forall f | f in facts && ClosedUp(f) :: f.isSt.Some?
  }

  ghost function UpsUnderSt(facts: seq<Fact>): set<nat> {
    set i: nat | i < |facts| && ClosedUp(facts[i]) && facts[i].isSt == Some(true)
  }

  /** Said to be new, or not said and listed for less than five days. */
  ghost function UpsNewlyListed(facts: seq<Fact>): set<nat> {
    set i: nat | i < |facts| && ClosedUp(facts[i])
      && if facts[i].isNew.Some? then facts[i].isNew.value
         else facts[i].listingDays.Some? && facts[i].listingDays.value < 5
  }

  ghost function UpsInMiddle(facts: seq<Fact>): set<nat> {
    set i: nat | i < |facts| && ClosedUp(facts[i]) && facts[i].streak in {Some(2), Some(3)}
  }

  /** The risk tiers count flagged and newly listed limit-ups, and those in a high, middle and low session. */
  lemma RiskTiersCount(m: Manifest, facts: seq<Fact>)
    ensures
      var strata := DimensionsOf(Some(m), facts).strata;
      var streaks := StreaksAreKnown(m, facts);
      && |strata| == |KEYS|
      && strata[11].count == (if FlagsAreKnown(m, facts) then Some(|UpsUnderSt(facts)|) else None)
      && strata[12].count == (if ListingsAreKnown(m, facts) then Some(|UpsNewlyListed(facts)|) else None)
      && strata[13].count == (if streaks then Some(|UpsFromSession(facts, 4)|) else None)
      && strata[14].count == (if streaks then Some(|UpsInMiddle(facts)|) else None)
      && strata[15].count == (if streaks then Some(|UpsInSession(facts, 1)|) else None)
      && strata[16].count == None
  {
    StrataAreInOrder(m, facts);
    FlagCounts(m, facts);
    StreakCounts(m, facts);
  }

  lemma FlagCounts(m: Manifest, facts: seq<Fact>)
    ensures
      var risks := RiskStrata(m, LimitUps(facts));
      && risks[0].count == (if FlagsAreKnown(m, facts) then Some(|UpsUnderSt(facts)|) else None)
      && risks[1].count == (if ListingsAreKnown(m, facts) then Some(|UpsNewlyListed(facts)|) else None)
  {
    FlagsAreCounted(m, facts);
    ListingsAreCounted(m, facts);
  }

  lemma FlagsAreCounted(m: Manifest, facts: seq<Fact>)
    ensures CountIf(LimitUps(facts), IsSt) == |UpsUnderSt(facts)|
    ensures FlagsComplete(m, LimitUps(facts)) <==> FlagsAreKnown(m, facts)
  {
    UpsAreCounted(facts, IsSt, UpsUnderSt(facts));
    UpsAreKept(facts);
  }

  lemma ListingsAreCounted(m: Manifest, facts: seq<Fact>)
    ensures CountIf(LimitUps(facts), IsNewListing) == |UpsNewlyListed(facts)|
    ensures ListingsComplete(m, LimitUps(facts)) <==> ListingsAreKnown(m, facts)
  {
    UpsAreCounted(facts, IsNewListing, UpsNewlyListed(facts));
    UpsAreKept(facts);
  }

  lemma UpsAreKept(facts: seq<Fact>)
    ensures forall f :: f in LimitUps(facts) <==> f in facts && ClosedUp(f)
  {
    forall f: Fact ensures f in LimitUps(facts) <==> f in facts && ClosedUp(f) {
      assert IsClosedLimitUp(f) <==> ClosedUp(f);
    }
  }

  lemma StreakCounts(m: Manifest, facts: seq<Fact>)
    ensures
      var risks := RiskStrata(m, LimitUps(facts));
      var streaks := StreaksAreKnown(m, facts);
      && risks[2].count == (if streaks then Some(|UpsFromSession(facts, 4)|) else None)
      && risks[3].count == (if streaks then Some(|UpsInMiddle(facts)|) else None)
      && risks[4].count == (if streaks then Some(|UpsInSession(facts, 1)|) else None)
      && risks[5].count == None
  {
    StreaksAreComplete(m, facts);
    UpsAreCounted(facts, IsHigh, UpsFromSession(facts, 4));
    UpsAreCounted(facts, IsMiddle, UpsInMiddle(facts));
    UpsAreCounted(facts, IsLow, UpsInSession(facts, 1));
  }
}
