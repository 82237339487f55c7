/**
 * The half-open probe over whole runs: exactly when its flag is left up with nobody to lower it, and
 * exactly how far it keeps a second request out.
 */
module TransportProbe {
  import opened Common
  import opened TransportHost
  import opened TransportReplies
  import opened TransportRuns

  // ---------------------------------------------------------------- raising and lowering the flag

  /** The step runs a region that lowers the flag, or drops the host's state. */
  predicate Lowers(p: HostPolicy, s: System, e: Event)
    requires Enabled(s, e)
  {
    || e.ResetHost?
    || (var op := HostOpOf(p, s, e);
        && op.Some?
        && (|| op.value.RecordSuccess? || op.value.RecordRetryable?
            || op.value.RecordNonRetryable? || op.value.ClearProbe?))
  }

  /** The step lets a call without a claim past an open breaker. */
  predicate Raises(s: System, e: Event)
    requires Enabled(s, e)
  {
    && e.Reserve? && s.host.openUntil != 0.0
    && !s.calls[e.id].pc.probe && !SlotRefused(s.host, s.calls[e.id].pc.now, false)
  }

  lemma FlagFollows(p: HostPolicy, s: System, e: Event)
    requires Enabled(s, e)
    ensures After(p, s, e).host.probeInFlight <==> !Lowers(p, s, e) && (s.host.probeInFlight || Raises(s, e))
    ensures Raises(s, e) ==> After(p, s, e).calls[e.id].pc == Sleeping(s.calls[e.id].pc.attempt, false, |s.retired|)
  {
    if !e.ResetHost? { HostFollowsOps(p, s, e); }
  }

  /** The call knows that it owns the probe. */
  predicate Claims(pc: Pc) {
    match pc
    case WantSlot(_, probe) => probe
    case ClockRead(_, probe, _) => probe
    case Sleeping(_, probe, _) => probe
    case WantBudget(_, probe) => probe
    case Sending(_, probe) => probe
    case Replied(_, probe, _) => probe
    case Ending(probe, _) => probe
    case _ => false
  }

  /** A claim is given up only by lowering the flag. */
  lemma ClaimsStay(p: HostPolicy, s: System, e: Event)
    requires Enabled(s, e) && IsCallStep(e) && Claims(s.calls[e.id].pc) && !Lowers(p, s, e)
    ensures Claims(After(p, s, e).calls[e.id].pc)
  {
  }

  predicate StepsCall(e: Event, id: CallId) { IsCallStep(e) && e.id == id }

  lemma OthersStay(p: HostPolicy, s: System, e: Event, id: CallId)
    requires Enabled(s, e) && id in s.calls && !StepsCall(e, id)
    ensures id in After(p, s, e).calls && After(p, s, e).calls[id] == s.calls[id]
  {
  }

  ghost predicate Untouched(events: seq<Event>, id: CallId, from: nat, upto: nat)
    requires upto <= |events|
  {
    forall j | from <= j < upto :: !StepsCall(events[j], id)
  }

  /** Event r raised the flag and nothing has lowered it up to state n. */
  ghost predicate RaisedFor(p: HostPolicy, trace: seq<System>, events: seq<Event>, r: nat, n: nat)
    requires IsRun(p, trace, events)
  {
    && r < n < |trace| && Raises(trace[r], events[r])
    && forall j | r < j < n :: !Lowers(p, trace[j], events[j])
  }

  /** Event i interrupts the very sleep for which event r raised the flag. */
  ghost predicate SleepBroken(trace: seq<System>, events: seq<Event>, r: nat, i: nat)
    requires r < i < |events| == |trace| - 1 && events[r].Reserve?
  {
    var id := events[r].id;
    && events[i] == Interrupt(id) && Untouched(events, id, r + 1, i)
    && id in trace[i].calls && trace[i].calls[id].pc.Sleeping?
  }

  /** The call sleeps for a slot of the present host. */
  predicate SleepsHere(s: System, id: CallId) {
    id in s.calls && s.calls[id].pc.Sleeping? && s.calls[id].pc.generation == |s.retired|
  }

  predicate ClaimsIn(s: System, id: CallId) { id in s.calls && Claims(s.calls[id].pc) }

  /** The call that raised the flag is still in that sleep, or knows of its claim, or was interrupted. */
  ghost predicate RaiserTraced(trace: seq<System>, events: seq<Event>, r: nat, n: nat)
    requires r < n < |trace| == |events| + 1 && events[r].Reserve?
  {
    || (Untouched(events, events[r].id, r + 1, n) && SleepsHere(trace[n], events[r].id))
    || ClaimsIn(trace[n], events[r].id)
    || WasInterrupted(trace, events, r, n)
  }

  ghost predicate WasInterrupted(trace: seq<System>, events: seq<Event>, r: nat, n: nat)
    requires r < n < |trace| == |events| + 1 && events[r].Reserve?
  {
    exists i: nat :: r < i < n && SleepBroken(trace, events, r, i)
  }

  /** A sleeper of the present host stays asleep, wakes to its claim, or is interrupted. */
  lemma SleeperStep(p: HostPolicy, s: System, e: Event, id: CallId)
    requires Enabled(s, e) && !e.ResetHost? && s.host.openUntil != 0.0 && SleepsHere(s, id)
    ensures !StepsCall(e, id) ==> SleepsHere(After(p, s, e), id)
    ensures StepsCall(e, id) ==> e == Interrupt(id) || ClaimsIn(After(p, s, e), id)
  {
    if !StepsCall(e, id) { OthersStay(p, s, e, id); }
  }

  lemma ClaimantStep(p: HostPolicy, s: System, e: Event, id: CallId)
    requires Enabled(s, e) && !Lowers(p, s, e) && ClaimsIn(s, id)
    ensures ClaimsIn(After(p, s, e), id)
  {
    if StepsCall(e, id) { ClaimsStay(p, s, e); } else { OthersStay(p, s, e, id); }
  }

  lemma InterruptionStays(trace: seq<System>, events: seq<Event>, r: nat, n: nat)
    requires r < n < |events| == |trace| - 1 && events[r].Reserve? && WasInterrupted(trace, events, r, n)
    ensures WasInterrupted(trace, events, r, n + 1)
  {
    var i: nat :| r < i < n && SleepBroken(trace, events, r, i);
    assert r < i < n + 1 && SleepBroken(trace, events, r, i);
  }

  lemma RaiserStep(p: HostPolicy, trace: seq<System>, events: seq<Event>, r: nat, n: nat)
    requires |trace| == |events| + 1 && r < n < |events| && events[r].Reserve?
    requires Enabled(trace[n], events[n]) && trace[n + 1] == After(p, trace[n], events[n])
    requires RaiserTraced(trace, events, r, n) && trace[n].host.openUntil != 0.0 && !Lowers(p, trace[n], events[n])
    ensures RaiserTraced(trace, events, r, n + 1)
  {
    var id, s, e := events[r].id, trace[n], events[n];
    if WasInterrupted(trace, events, r, n) {
      InterruptionStays(trace, events, r, n);
    } else if ClaimsIn(s, id) {
      ClaimantStep(p, s, e, id);
    } else {
      SleeperStep(p, s, e, id);
      if e == Interrupt(id) { assert SleepBroken(trace, events, r, n); }
    }
  }

  /** A raised flag has a call that raised it, and what became of that call is known. */
  lemma {:induction false} FlagHasRaiser(p: HostPolicy, trace: seq<System>, events: seq<Event>, n: nat) returns (r: nat)
    requires IsFirstRun(p, trace, events) && n < |trace| && trace[n].host.probeInFlight
    ensures RaisedFor(p, trace, events, r, n) && RaiserTraced(trace, events, r, n)
  {
    var s, e := trace[n - 1], events[n - 1];
    FlagFollows(p, s, e);
    if s.host.probeInFlight {
      r := FlagHasRaiser(p, trace, events, n - 1);
      InvariantAlways(p, trace, events, n - 1);
      RaiserStep(p, trace, events, r, n - 1);
    } else {
      r := n - 1;
      assert After(p, s, e).retired == s.retired;
    }
  }

  lemma {:induction false} FlagStaysUp(p: HostPolicy, trace: seq<System>, events: seq<Event>, r: nat, n: nat)
    requires IsRun(p, trace, events) && RaisedFor(p, trace, events, r, n)
    ensures trace[n].host.probeInFlight
  {
    if n > r + 1 { FlagStaysUp(p, trace, events, r, n - 1); }
    FlagFollows(p, trace[n - 1], events[n - 1]);
    FlagFollows(p, trace[r], events[r]);
    assert n == r + 1 ==> !Lowers(p, trace[r], events[r]);
  }

  /** No call is in a slot sleep, and none knows of a claim. */
  ghost predicate NobodyProbes(s: System) {
    forall c | c in s.calls :: !s.calls[c].pc.Sleeping? && !Claims(s.calls[c].pc)
  }

  /** A call raised the flag and was interrupted in its slot sleep, and nothing has lowered the flag since. */
  ghost predicate Stranded(p: HostPolicy, trace: seq<System>, events: seq<Event>, n: nat)
    requires IsRun(p, trace, events)
  {
    exists r: nat, i: nat :: r < i < n && RaisedFor(p, trace, events, r, n) && SleepBroken(trace, events, r, i)
  }

  /** With no call that could lower it, the flag is up exactly when it is stranded. */
  lemma FlagIsUpExactlyWhenStranded(p: HostPolicy, trace: seq<System>, events: seq<Event>, n: nat)
    requires IsFirstRun(p, trace, events) && n < |trace| && NobodyProbes(trace[n])
    ensures trace[n].host.probeInFlight <==> Stranded(p, trace, events, n)
  {
    if trace[n].host.probeInFlight {
      var r := FlagHasRaiser(p, trace, events, n);
      assert WasInterrupted(trace, events, r, n);
    }
    if Stranded(p, trace, events, n) {
      var r: nat, i: nat :| r < i < n && RaisedFor(p, trace, events, r, n) && SleepBroken(trace, events, r, i);
      FlagStaysUp(p, trace, events, r, n);
    }
  }

  /** So the flag is never leaked in a run whose slot sleeps are not interrupted. */
  lemma ProbeFlagIsNeverLeaked(p: HostPolicy, trace: seq<System>, events: seq<Event>, n: nat)
    requires IsFirstRun(p, trace, events) && n < |trace| && NobodyProbes(trace[n])
    requires forall i | 0 <= i < n && events[i].Interrupt? :: !trace[i].calls[events[i].id].pc.Sleeping?
    ensures !trace[n].host.probeInFlight
  {
    FlagIsUpExactlyWhenStranded(p, trace, events, n);
  }

  // ---------------------------------------------------------------- who is inside

  /** Admitted through the slot, with no outcome recorded yet. */
  predicate Inside(k: Call) {
    match k.pc
    case WantSlot(attempt, _) => attempt > 0
    case ClockRead(attempt, _, _) => attempt > 0
    case _ => k.pc.Sleeping? || k.pc.WantBudget? || k.pc.Sending? || k.pc.Replied?
  }

  ghost predicate NobodyInside(s: System) { forall c | c in s.calls :: !Inside(s.calls[c]) }

  ghost predicate AtMostOneInside(s: System) {
    forall c, d | c in s.calls && d in s.calls && Inside(s.calls[c]) && Inside(s.calls[d]) :: c == d
  }

  /** A probe that has its outcome and has yet to run its clean-up. */
  predicate CleanUpPends(k: Call) { k.pc.Ending? && k.pc.probe }

  /** A call before its first slot has no claim. */
  predicate Orderly(k: Call) {
    match k.pc
    case WantSlot(attempt, probe) => attempt == 0 ==> !probe
    case ClockRead(attempt, probe, _) => attempt == 0 ==> !probe
    case _ => true
  }

  ghost predicate AllOrderly(s: System) { forall c | c in s.calls :: Orderly(s.calls[c]) }

  lemma OrderlyStep(p: HostPolicy, s: System, e: Event)
    requires Enabled(s, e) && IsCallStep(e) && Orderly(s.calls[e.id])
    ensures Orderly(EffectOf(p, s, e).call)
  {
  }

  lemma {:induction false} AlwaysOrderly(p: HostPolicy, trace: seq<System>, events: seq<Event>, n: nat)
    requires IsFirstRun(p, trace, events) && n < |trace|
    ensures AllOrderly(trace[n])
  {
    if n > 0 {
      AlwaysOrderly(p, trace, events, n - 1);
      var s, e := trace[n - 1], events[n - 1];
      if IsCallStep(e) { OrderlyStep(p, s, e); }
    }
  }

  /** The step is no reset, and no rejection of a cached or shared response. */
  predicate LeavesBreakerAlone(p: HostPolicy, s: System, e: Event)
    requires Enabled(s, e)
  {
    !e.ResetHost? && (e.Enter? || e.Wake? ==> After(p, s, e).host == s.host)
  }

  // ---------------------------------------------------------------- exclusion over runs

  /** An insider is the probe and knows it, or is in the sleep that will tell it. */
  predicate Placed(k: Call, generation: nat) {
    match k.pc
    case Sleeping(_, _, g) => g == generation
    case WantSlot(attempt, probe) => probe == (attempt > 0)
    case ClockRead(attempt, probe, _) => probe == (attempt > 0)
    case WantBudget(_, probe) => probe
    case Sending(_, probe) => probe
    case Replied(_, probe, _) => probe
    case _ => true
  }

  /** The breaker is open, at most one request is inside, and while one is the flag is up. */
  ghost predicate Exclusive(s: System) {
    && s.host.openUntil != 0.0
    && (forall c | c in s.calls :: Placed(s.calls[c], |s.retired|))
    && AtMostOneInside(s)
    && (s.host.probeInFlight || NobodyInside(s))
  }

  /** A clean-up lowers the flag while another request is inside. */
  ghost predicate LateCleanUp(s: System, e: Event)
    requires Enabled(s, e)
  {
    e.Finally? && CleanUpPends(s.calls[e.id]) && !NobodyInside(s)
  }

  lemma PlacedSettle(p: HostPolicy, s: System, c: Call, accepted: bool, draw: real)
    requires c.pc.Replied? && Placed(c, |s.retired|)
    ensures Placed(SettleEffect(p, s, c, accepted, draw).call, |s.retired|)
  {
  }

  lemma PlacedStep(p: HostPolicy, s: System, e: Event)
    requires Enabled(s, e) && IsCallStep(e) && s.host.openUntil != 0.0 && Placed(s.calls[e.id], |s.retired|)
    ensures Placed(EffectOf(p, s, e).call, |s.retired|)
  {
    match e
    case Settle(id, accepted, draw) => PlacedSettle(p, s, s.calls[id], accepted, draw);
    case _ =>
  }

  /** What one step of a placed call does to the flag: to come in it finds the flag down and raises it,
      and only an insider's outcome or a clean-up lowers it. */
  lemma InsiderStep(p: HostPolicy, s: System, e: Event)
    requires Enabled(s, e) && IsCallStep(e) && LeavesBreakerAlone(p, s, e)
    requires s.host.openUntil != 0.0 && Placed(s.calls[e.id], |s.retired|)
    ensures
      var before, f := s.calls[e.id], EffectOf(p, s, e);
      && (Inside(f.call) && !Inside(before) ==> !s.host.probeInFlight && f.host.probeInFlight)
      && (Inside(before) && Inside(f.call) && s.host.probeInFlight ==> f.host.probeInFlight)
      && (!Inside(before) && !CleanUpPends(before) && s.host.probeInFlight ==> f.host.probeInFlight)
      && (f.host.openUntil == s.host.openUntil || (Inside(before) && !Inside(f.call)))
  {
  }

  lemma ExclusiveInstalled(s: System, id: CallId, f: Effect)
    requires Exclusive(s) && id in s.calls && Placed(f.call, |s.retired|) && f.host.openUntil != 0.0
    requires Inside(f.call) && !Inside(s.calls[id]) ==> !s.host.probeInFlight && f.host.probeInFlight
    requires Inside(s.calls[id]) && Inside(f.call) && s.host.probeInFlight ==> f.host.probeInFlight
    requires !Inside(s.calls[id]) && s.host.probeInFlight ==> f.host.probeInFlight || NobodyInside(s)
    ensures Exclusive(Install(s, id, f))
  {
    var t := Install(s, id, f);
    forall c | c in t.calls && !t.host.probeInFlight ensures !Inside(t.calls[c]) {
      if c != id { assert t.calls[c] == s.calls[c]; }
    }
  }

  lemma ExclusiveKept(p: HostPolicy, s: System, e: Event)
    requires Exclusive(s) && Enabled(s, e) && LeavesBreakerAlone(p, s, e) && !LateCleanUp(s, e)
    requires After(p, s, e).host.openUntil != 0.0
    ensures Exclusive(After(p, s, e))
  {
    if IsCallStep(e) {
      assert Placed(s.calls[e.id], |s.retired|);
      PlacedStep(p, s, e);
      InsiderStep(p, s, e);
      assert CleanUpPends(s.calls[e.id]) ==> e.Finally?;
      ExclusiveInstalled(s, e.id, EffectOf(p, s, e));
    } else {
      var t := After(p, s, e);
      assert forall c | c in s.calls :: t.calls[c] == s.calls[c];
      assert forall c | c in t.calls && Inside(t.calls[c]) :: c in s.calls;
    }
  }

  /** The breaker stays open over a stretch in which nobody resets the host or rejects a response for it. */
  ghost predicate StaysOpen(p: HostPolicy, trace: seq<System>, events: seq<Event>, n: nat)
    requires IsRun(p, trace, events) && n < |trace|
  {
    && (forall i | 0 <= i <= n :: trace[i].host.openUntil != 0.0)
    && (forall i | 0 <= i < n :: LeavesBreakerAlone(p, trace[i], events[i]))
  }

  /** From an open breaker with nobody inside, over however many probes: two requests are inside at once only
      after a late clean-up. */
  lemma {:induction false} TwoInsideMeansLateCleanUp(p: HostPolicy, trace: seq<System>, events: seq<Event>, n: nat)
    requires IsRun(p, trace, events) && n < |trace| && StaysOpen(p, trace, events, n)
    requires NobodyInside(trace[0]) && AllOrderly(trace[0])
    ensures Exclusive(trace[n]) || exists i: nat :: i < n && LateCleanUp(trace[i], events[i])
    ensures !AtMostOneInside(trace[n]) ==> exists i: nat :: i < n && LateCleanUp(trace[i], events[i])
  {
    if n > 0 {
      TwoInsideMeansLateCleanUp(p, trace, events, n - 1);
      var i := n - 1;
      if Exclusive(trace[i]) && !LateCleanUp(trace[i], events[i]) { ExclusiveKept(p, trace[i], events[i]); }
    }
  }
}
