/**
 * What the provider gateway keeps for one upstream host, and what each of its lock-protected
 * regions does to it. A run of the gateway, as one host sees it, is a sequence of such regions:
 * callers interleave freely between them, so every theorem below quantifies over all sequences.
 * Times are real numbers; the clock value a region used is an argument of its operation.
 */
module TransportHost {
  import opened Common

  datatype HostPolicy = HostPolicy(
    minimumInterval: real,
    jitterHigh: real,
    maxRetries: int,
    retryBackoff: real,
    requestBudget: int,
    budgetWindow: real,
    failureThreshold: int,
    cooldown: real,
    maxRetryAfter: real)

  datatype HostState = HostState(
    nextAllowedAt: real,
    failures: nat,
    openUntil: real,
    probeInFlight: bool,
    requestsUsed: nat,
    budgetStartedAt: Option<real>)

  const FRESH_HOST := HostState(0.0, 0, 0.0, false, 0, None)

  /** One locked region. `now` is the clock value the region works with. */
  datatype HostOp =
    | TakeSlot(now: real, gatedInternally: bool, draw: real, probeOwner: bool)
    | Authorize(now: real)
    | RecordSuccess
    | RecordRetryable(now: real)
    | RecordNonRetryable
    | ClearProbe

  predicate SlotRefused(st: HostState, now: real, probeOwner: bool) {
    !probeOwner && (st.openUntil > now || (st.openUntil != 0.0 && st.probeInFlight))
  }

  function RequiredGap(p: HostPolicy, gatedInternally: bool, draw: real): real {
    var interval := if gatedInternally then Max(0.0, p.minimumInterval) else 0.0;
    if interval != 0.0 then interval + Max(0.0, draw) else interval
  }

  /** When a slot granted now begins: never before an earlier reservation has run out. */
  function SlotStart(st: HostState, now: real): real { Max(now, st.nextAllowedAt) }

  predicate WindowExpired(p: HostPolicy, st: HostState, now: real) {
    st.budgetStartedAt.None? || now - st.budgetStartedAt.value >= p.budgetWindow
  }

  /** How many attempts the window counts once an attempt at `now` is counted. */
  function UsedWith(p: HostPolicy, st: HostState, now: real): nat {
    (if WindowExpired(p, st, now) then 0 else st.requestsUsed) + 1
  }

  predicate Admitted(p: HostPolicy, st: HostState, now: real) {
    UsedWith(p, st, now) <= p.requestBudget
  }

  function Threshold(p: HostPolicy): int { MaxInt(1, p.failureThreshold) }

  function Apply(p: HostPolicy, st: HostState, op: HostOp): HostState {
    match op
    case TakeSlot(now, gatedInternally, draw, probeOwner) =>
      if SlotRefused(st, now, probeOwner) then st
      else st.(
        probeInFlight := st.probeInFlight || (st.openUntil != 0.0 && !probeOwner),
        nextAllowedAt := SlotStart(st, now) + RequiredGap(p, gatedInternally, draw))
    case Authorize(now) =>
      st.(
        budgetStartedAt := if WindowExpired(p, st, now) then Some(now) else st.budgetStartedAt,
        requestsUsed := UsedWith(p, st, now))
    case RecordSuccess =>
      st.(failures := 0, openUntil := 0.0, probeInFlight := false)
    case RecordRetryable(now) =>
      st.(
        failures := st.failures + 1,
        probeInFlight := false,
        openUntil := if st.failures + 1 >= Threshold(p) then now + Max(0.0, p.cooldown) else st.openUntil)
    case RecordNonRetryable => st.(probeInFlight := false)
    case ClearProbe => st.(probeInFlight := false)
  }

  function Run(p: HostPolicy, st: HostState, ops: seq<HostOp>): HostState {
    if ops == [] then st else Apply(p, Run(p, st, ops[..|ops| - 1]), ops[|ops| - 1])
  }

  /** A reservation is refused while the breaker is open, and when it is half open and somebody probes, unless by
      the probe's owner. Otherwise it begins when the earlier ones have run out, keeps the interval and the drawn
      jitter free behind it when it is gated internally, and makes its caller the probe of a half-open breaker. */
  lemma ReservationLeaves(p: HostPolicy, st: HostState, now: real, gatedInternally: bool, draw: real, owner: bool)
    ensures
      var after := Apply(p, st, TakeSlot(now, gatedInternally, draw, owner));
      var refused := !owner && (now < st.openUntil || (st.openUntil != 0.0 && st.probeInFlight));
      var start := if now >= st.nextAllowedAt then now else st.nextAllowedAt;
      && SlotRefused(st, now, owner) == refused && SlotStart(st, now) == start
      && after.failures == st.failures && after.openUntil == st.openUntil
      && after.requestsUsed == st.requestsUsed && after.budgetStartedAt == st.budgetStartedAt
      && after.probeInFlight == (st.probeInFlight || (!refused && !owner && st.openUntil != 0.0))
      && after.nextAllowedAt ==
           if refused then st.nextAllowedAt
           else if gatedInternally && p.minimumInterval > 0.0 then start + p.minimumInterval + Max(0.0, draw)
           else start
  {
  }

  /** An attempt is charged to the running budget window, or opens one when none runs or it is over. */
  lemma ChargeLeaves(p: HostPolicy, st: HostState, now: real)
    ensures
      var after := Apply(p, st, Authorize(now));
      var runs := st.budgetStartedAt.Some? && now - st.budgetStartedAt.value < p.budgetWindow;
      && after.budgetStartedAt == (if runs then st.budgetStartedAt else Some(now))
      && after.requestsUsed == (if runs then st.requestsUsed + 1 else 1)
      && (Admitted(p, st, now) <==> after.requestsUsed <= p.requestBudget)
      && after == st.(budgetStartedAt := after.budgetStartedAt, requestsUsed := after.requestsUsed)
  {
  }

  /** A success forgets failures and closes the breaker; a retryable failure is counted, and opens it for the
      cooldown from the threshold on; every outcome lowers the probe flag; nothing else changes. */
  lemma OutcomeLeaves(p: HostPolicy, st: HostState, now: real)
    ensures
      var lowered := st.(probeInFlight := false);
      var failures := st.failures + 1;
      var opens := failures >= p.failureThreshold || failures >= 1 >= p.failureThreshold;
      && Apply(p, st, RecordSuccess) == lowered.(failures := 0, openUntil := 0.0)
      && Apply(p, st, RecordRetryable(now)) ==
           lowered.(failures := failures, openUntil := if opens then now + Max(0.0, p.cooldown) else st.openUntil)
      && Apply(p, st, RecordNonRetryable) == lowered && Apply(p, st, ClearProbe) == lowered
  {
  }

  lemma RunAppend(p: HostPolicy, st: HostState, ops: seq<HostOp>, op: HostOp)
    ensures Run(p, st, ops + [op]) == Apply(p, Run(p, st, ops), op)
  {
    assert (ops + [op])[..|ops|] == ops;
  }

  // ---------------------------------------------------------------- slot reservations

  datatype Reservation = Reservation(start: real, gatedInternally: bool)

  /** The slots granted by a run, in the order they were granted. */
  function Reservations(p: HostPolicy, st: HostState, ops: seq<HostOp>): seq<Reservation> {
    if ops == [] then []
    else
      var earlier, op := ops[..|ops| - 1], ops[|ops| - 1];
      var before := Run(p, st, earlier);
      Reservations(p, st, earlier) +
      if op.TakeSlot? && !SlotRefused(before, op.now, op.probeOwner)
      then [Reservation(SlotStart(before, op.now), op.gatedInternally)]
      else []
  }

  ghost predicate SpacedFrom(p: HostPolicy, log: seq<Reservation>, next: real) {
    && (forall i | 0 <= i < |log| ::
          next >= log[i].start + (if log[i].gatedInternally then Max(0.0, p.minimumInterval) else 0.0))
    && (forall i, j | 0 <= i < j < |log| ::
          log[j].start >= log[i].start + (if log[i].gatedInternally then Max(0.0, p.minimumInterval) else 0.0))
  }

  /** Whatever the interleaving and however stale the clock values, no slot begins before every
      earlier internally gated slot is at least the minimum interval old. */
  lemma {:induction false} SlotsAreSpaced(p: HostPolicy, st: HostState, ops: seq<HostOp>)
    ensures SpacedFrom(p, Reservations(p, st, ops), Run(p, st, ops).nextAllowedAt)
  {
    if ops != [] {
      SlotsAreSpaced(p, st, ops[..|ops| - 1]);
    }
  }

  /** Places in a log, in order, of internally gated slots. */
  ghost predicate PicksInternal(log: seq<Reservation>, picks: seq<nat>) {
    && (forall j | 0 <= j < |picks| :: picks[j] < |log| && log[picks[j]].gatedInternally)
    && (forall j, k | 0 <= j < k < |picks| :: picks[j] < picks[k])
  }

  lemma {:induction false} SpacedLogSpans(p: HostPolicy, log: seq<Reservation>, next: real, picks: seq<nat>)
    requires SpacedFrom(p, log, next) && PicksInternal(log, picks) && picks != []
    ensures
      log[picks[|picks| - 1]].start - log[picks[0]].start >= (|picks| - 1) as real * Max(0.0, p.minimumInterval)
  {
    var n := |picks| - 1;
    if n > 0 {
      SpacedLogSpans(p, log, next, picks[..n]);
      assert picks[n - 1] < picks[n];
      assert n as real * Max(0.0, p.minimumInterval) ==
        (n - 1) as real * Max(0.0, p.minimumInterval) + Max(0.0, p.minimumInterval);
    }
  }

  /** Any n internally gated slots span at least n - 1 minimum intervals, whatever slots lie between them. */
  lemma InternalSlotsSpan(p: HostPolicy, st: HostState, ops: seq<HostOp>, picks: seq<nat>)
    requires picks != [] && PicksInternal(Reservations(p, st, ops), picks)
    ensures
      var log := Reservations(p, st, ops);
      log[picks[|picks| - 1]].start - log[picks[0]].start >= (|picks| - 1) as real * Max(0.0, p.minimumInterval)
  {
    SlotsAreSpaced(p, st, ops);
    SpacedLogSpans(p, Reservations(p, st, ops), Run(p, st, ops).nextAllowedAt, picks);
  }

  // ---------------------------------------------------------------- request budget

  /** One authorization: when, in which window (counted from 0), and whether it was let through. */
  datatype Authorization = Authorization(at: real, window: nat, begun: real, admitted: bool)

  function WindowsOpened(p: HostPolicy, ops: seq<HostOp>): nat {
    if ops == [] then 0
    else
      var earlier, op := ops[..|ops| - 1], ops[|ops| - 1];
      WindowsOpened(p, earlier) +
      if op.Authorize? && WindowExpired(p, Run(p, FRESH_HOST, earlier), op.now) then 1 else 0
  }

  /** The authorizations of a run that starts from a host nothing is known about yet. */
  function Authorizations(p: HostPolicy, ops: seq<HostOp>): seq<Authorization>
    ensures forall i | 0 <= i < |Authorizations(p, ops)| :: Authorizations(p, ops)[i].window <= WindowsOpened(p, ops)
  {
    if ops == [] then []
    else
      var earlier, op := ops[..|ops| - 1], ops[|ops| - 1];
      var before := Run(p, FRESH_HOST, earlier);
      Authorizations(p, earlier) +
      if !op.Authorize? then []
      else
        [Authorization(
           op.now, WindowsOpened(p, ops), Apply(p, before, op).budgetStartedAt.value,
           Admitted(p, before, op.now))]
  }

  /** The clock is read under the lock, so authorizations carry non-decreasing times. */
  ghost predicate Monotone(ops: seq<HostOp>) {
    forall i, j | 0 <= i < j < |ops| && ops[i].Authorize? && ops[j].Authorize? :: ops[i].now <= ops[j].now
  }

  function AdmittedInWindow(log: seq<Authorization>, window: nat): nat {
    if log == [] then 0
    else
      var last := log[|log| - 1];
      AdmittedInWindow(log[..|log| - 1], window) + if last.admitted && last.window == window then 1 else 0
  }

  function AdmittedDuring(log: seq<Authorization>, from: real, to: real): nat {
    if log == [] then 0
    else
      var last := log[|log| - 1];
      AdmittedDuring(log[..|log| - 1], from, to) + if last.admitted && from <= last.at <= to then 1 else 0
  }

  lemma CountAppended(log: seq<Authorization>, a: Authorization, window: nat)
    ensures AdmittedInWindow(log + [a], window) ==
      AdmittedInWindow(log, window) + if a.admitted && a.window == window then 1 else 0
  {
    assert (log + [a])[..|log|] == log;
  }

  /** Every window lets at most the budget through. */
  lemma {:induction false} WindowWithinBudget(p: HostPolicy, ops: seq<HostOp>, window: nat)
    ensures
      var count := AdmittedInWindow(Authorizations(p, ops), window);
      && count <= MaxInt(0, p.requestBudget)
      && (window > WindowsOpened(p, ops) ==> count == 0)
      && (window == WindowsOpened(p, ops) ==> count <= Run(p, FRESH_HOST, ops).requestsUsed)
  {
    if ops != [] {
      var earlier, op := ops[..|ops| - 1], ops[|ops| - 1];
      WindowWithinBudget(p, earlier, window);
      var log, before := Authorizations(p, earlier), Run(p, FRESH_HOST, earlier);
      if op.Authorize? {
        var start := Apply(p, before, op).budgetStartedAt.value;
        var a := Authorization(op.now, WindowsOpened(p, ops), start, Admitted(p, before, op.now));
        assert Authorizations(p, ops) == log + [a];
        CountAppended(log, a, window);
        assert Run(p, FRESH_HOST, ops).requestsUsed == UsedWith(p, before, op.now);
      } else {
        assert Authorizations(p, ops) == log;
        assert Run(p, FRESH_HOST, ops).requestsUsed == before.requestsUsed;
      }
    }
  }

  ghost predicate WellWindowed(p: HostPolicy, log: seq<Authorization>, st: HostState, newest: nat) {
    && (forall i | 0 <= i < |log| ::
          && st.budgetStartedAt.Some?
          && log[i].begun <= log[i].at && (log[i].at == log[i].begun || log[i].at < log[i].begun + p.budgetWindow)
          && log[i].window <= newest
          && (log[i].window == newest ==> log[i].begun == st.budgetStartedAt.value)
          && (log[i].window < newest ==> log[i].begun + p.budgetWindow <= st.budgetStartedAt.value))
    && (forall i, j | 0 <= i < j < |log| ::
          && log[i].window <= log[j].window
          && log[i].at <= log[j].at
          && (log[i].window == log[j].window ==> log[i].begun == log[j].begun)
          && (log[i].window < log[j].window ==> log[i].begun + p.budgetWindow <= log[j].begun))
  }

  /** No authorization is later than a time, nor is the start of the present window. */
  ghost predicate NotAfter(log: seq<Authorization>, st: HostState, now: real) {
    && (forall i | 0 <= i < |log| :: log[i].at <= now)
    && (st.budgetStartedAt.Some? ==> st.budgetStartedAt.value <= now)
  }

  lemma {:induction false} AuthorizedBefore(p: HostPolicy, ops: seq<HostOp>, now: real)
    requires forall i | 0 <= i < |ops| && ops[i].Authorize? :: ops[i].now <= now
    ensures NotAfter(Authorizations(p, ops), Run(p, FRESH_HOST, ops), now)
  {
    if ops != [] { AuthorizedBefore(p, ops[..|ops| - 1], now); }
  }

  /** One authorization more in the present window. */
  lemma WindowGoesOn(p: HostPolicy, log: seq<Authorization>, st: HostState, newest: nat, now: real, admitted: bool)
    requires WellWindowed(p, log, st, newest) && NotAfter(log, st, now) && !WindowExpired(p, st, now)
    ensures
      WellWindowed(p, log + [Authorization(now, newest, st.budgetStartedAt.value, admitted)],
                   Apply(p, st, Authorize(now)), newest)
  {
  }

  /** One authorization more, in a new window. */
  lemma WindowOpens(p: HostPolicy, log: seq<Authorization>, st: HostState, newest: nat, now: real, admitted: bool)
    requires WellWindowed(p, log, st, newest) && NotAfter(log, st, now) && WindowExpired(p, st, now)
    ensures WellWindowed(p, log + [Authorization(now, newest + 1, now, admitted)], Apply(p, st, Authorize(now)),
      newest + 1)
  {
  }

  /** Window starts are at least a window apart, and every authorization falls in its window. */
  lemma {:induction false} WindowsAreApart(p: HostPolicy, ops: seq<HostOp>)
    requires Monotone(ops)
    ensures WellWindowed(p, Authorizations(p, ops), Run(p, FRESH_HOST, ops), WindowsOpened(p, ops))
  {
    if ops != [] {
      var earlier, op := ops[..|ops| - 1], ops[|ops| - 1];
      WindowsAreApart(p, earlier);
      var log, st, newest := Authorizations(p, earlier), Run(p, FRESH_HOST, earlier), WindowsOpened(p, earlier);
      if op.Authorize? {
        AuthorizedBefore(p, earlier, op.now);
        if WindowExpired(p, st, op.now) {
          WindowOpens(p, log, st, newest, op.now, Admitted(p, st, op.now));
        } else {
          WindowGoesOn(p, log, st, newest, op.now, Admitted(p, st, op.now));
        }
      } else {
        WindowUntouched(p, log, st, newest, op);
      }
    }
  }

  lemma WindowUntouched(p: HostPolicy, log: seq<Authorization>, st: HostState, newest: nat, op: HostOp)
    requires WellWindowed(p, log, st, newest) && !op.Authorize?
    ensures WellWindowed(p, log, Apply(p, st, op), newest)
  {
    assert Apply(p, st, op).budgetStartedAt == st.budgetStartedAt;
  }

  lemma {:induction false} SpanWithinTwoWindows(log: seq<Authorization>, from: real, to: real, w1: nat, w2: nat)
    requires forall i | 0 <= i < |log| && log[i].admitted && from <= log[i].at <= to ::
      log[i].window == w1 || log[i].window == w2
    ensures AdmittedDuring(log, from, to) <= AdmittedInWindow(log, w1) + AdmittedInWindow(log, w2)
  {
    if log != [] {
      SpanWithinTwoWindows(log[..|log| - 1], from, to, w1, w2);
    }
  }

  /** A time span shorter than the window lets at most twice the budget through, wherever it lies. */
  lemma SpanWithinTwiceTheBudget(p: HostPolicy, ops: seq<HostOp>, from: real, to: real)
    requires Monotone(ops)
    requires to - from < p.budgetWindow
    ensures AdmittedDuring(Authorizations(p, ops), from, to) <= 2 * MaxInt(0, p.requestBudget)
  {
    var log := Authorizations(p, ops);
    WindowsAreApart(p, ops);
    var w1, w2 := TwoWindows(p, ops, log, from, to);
    SpanWithinTwoWindows(log, from, to, w1, w2);
    WindowWithinBudget(p, ops, w1);
    WindowWithinBudget(p, ops, w2);
  }

  lemma TwoWindows(
    p: HostPolicy, ops: seq<HostOp>, log: seq<Authorization>, from: real, to: real) returns (w1: nat, w2: nat)
    requires WellWindowed(p, log, Run(p, FRESH_HOST, ops), WindowsOpened(p, ops))
    requires to - from < p.budgetWindow
    ensures forall i | 0 <= i < |log| && from <= log[i].at <= to :: log[i].window == w1 || log[i].window == w2
  {
    w1, w2 := 0, 0;
    if first :| 0 <= first < |log| && from <= log[first].at <= to {
      w1, w2 := log[first].window, log[first].window;
      if second :| 0 <= second < |log| && from <= log[second].at <= to && log[second].window != w1 {
        w2 := log[second].window;
        forall third | 0 <= third < |log| && from <= log[third].at <= to
          ensures log[third].window == w1 || log[third].window == w2
        {
        }
      }
    }
  }

  // ---------------------------------------------------------------- circuit breaker

  /** Retryable failures since the last success, counted from the history alone. */
  function FailuresSinceSuccess(ops: seq<HostOp>): nat {
    if ops == [] || ops[|ops| - 1].RecordSuccess? then 0
    else FailuresSinceSuccess(ops[..|ops| - 1]) + if ops[|ops| - 1].RecordRetryable? then 1 else 0
  }

  /** When the newest retryable failure was recorded. */
  function LastFailureAt(ops: seq<HostOp>): real {
    if ops == [] then 0.0
    else if ops[|ops| - 1].RecordRetryable? then ops[|ops| - 1].now
    else LastFailureAt(ops[..|ops| - 1])
  }

  /** The breaker is open exactly when the failures since the last success reach the threshold, and
      then it cools down from the newest of them. */
  lemma {:induction false} BreakerFollowsHistory(p: HostPolicy, ops: seq<HostOp>)
    ensures
      var st := Run(p, FRESH_HOST, ops);
      && st.failures == FailuresSinceSuccess(ops)
      && st.openUntil ==
           (if FailuresSinceSuccess(ops) >= Threshold(p) then LastFailureAt(ops) + Max(0.0, p.cooldown) else 0.0)
      && (st.probeInFlight ==> st.openUntil != 0.0)
  {
    if ops != [] {
      BreakerFollowsHistory(p, ops[..|ops| - 1]);
    }
  }
}
