/**
 * Runs, from a gateway that has not been used, that show where the probe's flag fails: two requests inside one
 * half-open host after a late clean-up, and a flag that is left up after an interrupted slot sleep.
 */
module TransportProbeRuns {
  import opened Common
  import opened TransportHost
  import opened TransportReplies
  import opened TransportRuns
  import opened TransportProbe
  import opened TransportExclusion

  ghost predicate Reachable(p: HostPolicy, s: System) {
    exists trace: seq<System>, events: seq<Event> :: IsFirstRun(p, trace, events) && trace[|events|] == s
  }

  lemma Starts(p: HostPolicy, clock: real)
    ensures Reachable(p, Initial(clock))
  {
    var trace: seq<System>, events: seq<Event> := [Initial(clock)], [];
    assert IsFirstRun(p, trace, events) && trace[|events|] == Initial(clock);
  }

  lemma Continues(p: HostPolicy, s: System, e: Event)
    requires Reachable(p, s) && Enabled(s, e)
    ensures Reachable(p, After(p, s, e))
  {
    var trace: seq<System>, events: seq<Event> :| IsFirstRun(p, trace, events) && trace[|events|] == s;
    var longer, more := trace + [After(p, s, e)], events + [e];
    forall i | 0 <= i < |more| ensures Enabled(longer[i], more[i]) && longer[i + 1] == After(p, longer[i], more[i]) {
      if i < |events| { assert longer[i] == trace[i] && longer[i + 1] == trace[i + 1] && more[i] == events[i]; }
    }
    assert longer[0] == trace[0];
    assert IsFirstRun(p, longer, more) && longer[|more|] == After(p, s, e);
  }

  /** A policy without retries whose breaker opens for a second at the first failure. */
  predicate OneStrike(p: HostPolicy) {
    p.maxRetries == 0 && p.requestBudget == 10 && p.failureThreshold == 1 && p.cooldown == 1.0
  }

  /** Such a policy, with a least interval between slots. */
  function Policy(interval: real): HostPolicy { HostPolicy(interval, 0.0, 0, 0.0, 10, 60.0, 1, 1.0, 0.0) }

  function NewCall(identity: Identity, pc: Pc): Call { Call(identity, true, 0.0, 0, pc) }

  /** A request enters and reads the clock. */
  lemma RequestEnters(p: HostPolicy, s: System, id: CallId, identity: Identity) returns (t: System)
    requires Reachable(p, s) && id !in s.calls && identity !in s.inflight
    ensures Reachable(p, t)
    ensures
      t == s.(calls := s.calls[id := NewCall(identity, ClockRead(0, false, s.clock))],
          inflight := s.inflight[identity := id])
  {
    var begin := Begin(id, identity, true, 0.0);
    var a := After(p, s, begin);
    Continues(p, s, begin);
    assert a == s.(calls := s.calls[id := NewCall(identity, Entered)]);
    var b := After(p, a, Enter(id, true));
    Continues(p, a, Enter(id, true));
    assert b.calls == s.calls[id := NewCall(identity, WantSlot(0, false))];
    t := After(p, b, ReadClock(id));
    Continues(p, b, ReadClock(id));
    assert t.calls == s.calls[id := NewCall(identity, ClockRead(0, false, s.clock))];
  }

  const FAILED := Failed(Network, true, None)

  /** The host's state when a request has been let in at its clock value. */
  function LetIn(p: HostPolicy, s: System): HostState {
    s.host.(nextAllowedAt := SlotStart(s.host, s.clock) + RequiredGap(p, true, 0.0),
        probeInFlight := s.host.openUntil != 0.0)
  }

  predicate Admits(s: System) { s.host.openUntil <= s.clock && !s.host.probeInFlight }

  predicate ReadsNow(s: System, id: CallId) {
    id in s.calls && s.calls[id].pc == ClockRead(0, false, s.clock) && s.calls[id].gatedInternally
  }

  /** A request that the breaker admits takes its slot, and sleeps until it. */
  lemma RequestTakesSlot(p: HostPolicy, s: System, id: CallId) returns (t: System)
    requires Reachable(p, s) && ReadsNow(s, id) && Admits(s)
    ensures Reachable(p, t)
    ensures t == s.(host := LetIn(p, s), calls := s.calls[id := s.calls[id].(pc := Sleeping(0, false, |s.retired|))])
  {
    t := After(p, s, Reserve(id, 0.0));
    Continues(p, s, Reserve(id, 0.0));
    assert t.calls == s.calls[id := s.calls[id].(pc := Sleeping(0, false, |s.retired|))];
  }

  /** When its slot is now it wakes: as the probe, if the breaker was open. */
  lemma RequestIsLetIn(p: HostPolicy, s: System, id: CallId) returns (t: System)
    requires Reachable(p, s) && ReadsNow(s, id) && Admits(s) && s.host.nextAllowedAt <= s.clock
    ensures Reachable(p, t)
    ensures t ==
      s.(host := LetIn(p, s), calls := s.calls[id := s.calls[id].(pc := WantBudget(0, s.host.openUntil != 0.0))])
  {
    var a := RequestTakesSlot(p, s, id);
    t := After(p, a, EndSleep(id));
    Continues(p, a, EndSleep(id));
    assert t.calls == s.calls[id := s.calls[id].(pc := WantBudget(0, s.host.openUntil != 0.0))];
  }

  /** It is counted, sent, and its engine fails. */
  lemma RequestIsSent(p: HostPolicy, s: System, id: CallId, probe: bool) returns (t: System)
    requires OneStrike(p) && Reachable(p, s) && id in s.calls && s.calls[id].pc == WantBudget(0, probe)
    requires s.host.requestsUsed < 9
    ensures Reachable(p, t)
    ensures t == s.(host := Apply(p, s.host, Authorize(s.clock)),
                    calls := s.calls[id :=
                      s.calls[id].(sends := s.calls[id].sends + 1, pc := Replied(0, probe, FAILED))])
  {
    var c := s.calls[id];
    var a := After(p, s, Charge(id));
    Continues(p, s, Charge(id));
    assert a.calls == s.calls[id := c.(sends := c.sends + 1, pc := Sending(0, probe))];
    t := After(p, a, Receive(id, FAILED));
    Continues(p, a, Receive(id, FAILED));
    assert t.calls == s.calls[id := c.(sends := c.sends + 1, pc := Replied(0, probe, FAILED))];
  }

  /** The failure is recorded and opens the breaker for a second; the clean-up is yet to come. */
  lemma FailureIsRecorded(p: HostPolicy, s: System, id: CallId, probe: bool) returns (t: System)
    requires OneStrike(p) && Reachable(p, s) && id in s.calls && s.calls[id].pc == Replied(0, probe, FAILED)
    ensures Reachable(p, t)
    ensures t ==
      s.(host := Apply(p, s.host, RecordRetryable(s.clock)),
          calls := s.calls[id := s.calls[id].(pc := Ending(probe, Raised(Network)))])
    ensures t.host.openUntil == s.clock + 1.0 && !t.host.probeInFlight
  {
    assert Decide(p, 0, FAILED, true, 0.0) == GiveUp(Network, true);
    t := After(p, s, Settle(id, true, 0.0));
    Continues(p, s, Settle(id, true, 0.0));
  }

  /** All of that: from its clock reading to where its clean-up is pending. */
  lemma RequestFails(p: HostPolicy, s: System, id: CallId) returns (t: System)
    requires OneStrike(p) && Reachable(p, s) && ReadsNow(s, id) && Admits(s)
    requires s.host.nextAllowedAt <= s.clock && s.host.requestsUsed < 9
    ensures Reachable(p, t) && t.calls.Keys == s.calls.Keys && t.inflight == s.inflight && t.clock == s.clock
    ensures t.calls[id].pc == Ending(s.host.openUntil != 0.0, Raised(Network))
    ensures t.calls[id].identity == s.calls[id].identity
    ensures forall c | c in s.calls && c != id :: t.calls[c] == s.calls[c]
    ensures t.host.openUntil == s.clock + 1.0 && !t.host.probeInFlight && t.retired == s.retired
    ensures t.host.nextAllowedAt == s.clock + RequiredGap(p, true, 0.0)
    ensures t.host.requestsUsed <= s.host.requestsUsed + 1
  {
    var a := RequestIsLetIn(p, s, id);
    var b := RequestIsSent(p, a, id, s.host.openUntil != 0.0);
    t := FailureIsRecorded(p, b, id, s.host.openUntil != 0.0);
  }

  lemma TimePasses(p: HostPolicy, s: System, seconds: real) returns (t: System)
    requires Reachable(p, s) && seconds >= 0.0
    ensures Reachable(p, t) && t == s.(clock := s.clock + seconds)
  {
    t := After(p, s, Tick(seconds));
    Continues(p, s, Tick(seconds));
  }

  /** A call that has its outcome cleans up and publishes it. */
  lemma RequestEnds(p: HostPolicy, s: System, id: CallId) returns (t: System)
    requires Reachable(p, s) && id in s.calls && s.calls[id].pc.Ending? && s.calls[id].pc.outcome.Raised?
    ensures Reachable(p, t) && t.clock == s.clock && t.retired == s.retired && t.calls.Keys == s.calls.Keys
    ensures t.host == if s.calls[id].pc.probe then s.host.(probeInFlight := false) else s.host
    ensures t.calls == s.calls[id := s.calls[id].(pc := Done(s.calls[id].pc.outcome, FromOwnRequest))]
    ensures t.inflight == s.inflight - {s.calls[id].identity}
  {
    var c := s.calls[id];
    var a := After(p, s, Finally(id));
    Continues(p, s, Finally(id));
    assert a.calls == s.calls[id := c.(pc := Publishing(c.pc.outcome, false))];
    t := After(p, a, Publish(id));
    Continues(p, a, Publish(id));
    assert t.calls == s.calls[id := c.(pc := Done(c.pc.outcome, FromOwnRequest))];
  }

  // ---------------------------------------------------------------- two requests inside

  /** One failure opens the breaker, and a probe after its cooldown fails and opens it again. */
  lemma ProbeFails(p: HostPolicy) returns (s: System)
    requires p == Policy(0.0)
    ensures Reachable(p, s) && s.calls.Keys == {0, 1} && s.inflight.Keys == {0, 1}
    ensures s.calls[1].pc == Ending(true, Raised(Network))
    ensures s.host.openUntil == 4.0 && s.clock == 3.0 && !s.host.probeInFlight
  {
    Starts(p, 1.0);
    var a := RequestEnters(p, Initial(1.0), 0, 0);
    var b := RequestFails(p, a, 0);
    var c := TimePasses(p, b, 2.0);
    var d := RequestEnters(p, c, 1, 1);
    s := RequestFails(p, d, 1);
  }

  /** Before its clean-up two more requests read the clock after the second cooldown. */
  lemma CleanUpIsPending(p: HostPolicy) returns (s: System)
    requires p == Policy(0.0)
    ensures Reachable(p, s) && ReadsNow(s, 2) && ReadsNow(s, 3)
    ensures 1 in s.calls && s.calls[1].pc == Ending(true, Raised(Network))
    ensures s.host.openUntil != 0.0 && !s.host.probeInFlight && s.host.openUntil <= s.clock
  {
    var a := ProbeFails(p);
    var b := TimePasses(p, a, 2.0);
    var c := RequestEnters(p, b, 2, 2);
    s := RequestEnters(p, c, 3, 3);
  }

  /** A run from an unused gateway has two requests inside one half-open host. */
  lemma TwoProbesAreReachable() returns (p: HostPolicy, s: System)
    ensures Reachable(p, s) && s.host.openUntil != 0.0 && !AtMostOneInside(s)
  {
    p := Policy(0.0);
    var a := CleanUpIsPending(p);
    var b := RequestTakesSlot(p, a, 2);
    assert b.calls[1] == a.calls[1] && b.calls[3] == a.calls[3];
    var c := After(p, b, Finally(1));
    Continues(p, b, Finally(1));
    assert c.calls == b.calls[1 := b.calls[1].(pc := Publishing(Raised(Network), false))];
    s := RequestTakesSlot(p, c, 3);
    assert Inside(s.calls[2]) && Inside(s.calls[3]);
  }

  // ---------------------------------------------------------------- a flag left up

  /** One failed and finished request opens the breaker; its cooldown has passed, the next slot is still to come. */
  lemma BreakerIsHalfOpen(p: HostPolicy) returns (s: System)
    requires p == Policy(5.0)
    ensures Reachable(p, s) && s.calls.Keys == {0} && s.calls[0].pc.Done? && s.inflight.Keys == {}
    ensures s.host.openUntil == 2.0 && !s.host.probeInFlight && s.clock == 3.0 && s.host.nextAllowedAt == 6.0
  {
    Starts(p, 1.0);
    var a := RequestEnters(p, Initial(1.0), 0, 0);
    var b := RequestFails(p, a, 0);
    var c := RequestEnds(p, b, 0);
    s := TimePasses(p, c, 2.0);
  }

  /** A probe that waits for its slot is interrupted in that sleep, and ends without a claim. */
  lemma ProbeIsInterrupted(p: HostPolicy, s: System, id: CallId) returns (t: System)
    requires Reachable(p, s) && ReadsNow(s, id) && Admits(s) && s.host.openUntil != 0.0
    ensures Reachable(p, t) && t.host == LetIn(p, s) && t.calls.Keys == s.calls.Keys && t.calls[id].pc.Done?
    ensures forall c | c in s.calls && c != id :: t.calls[c] == s.calls[c]
  {
    var a := RequestTakesSlot(p, s, id);
    var b := After(p, a, Interrupt(id));
    Continues(p, a, Interrupt(id));
    assert b.calls == a.calls[id := a.calls[id].(pc := Ending(false, Raised(Interruption)))];
    t := RequestEnds(p, b, id);
  }

  /** A run from an unused gateway leaves a host shut with every call done: the probe of an open breaker, still
      waiting for its slot, is interrupted in that sleep. */
  lemma LeakIsReachable() returns (p: HostPolicy, s: System)
    ensures Reachable(p, s) && Shut(s) && forall c | c in s.calls :: s.calls[c].pc.Done?
  {
    p := Policy(5.0);
    var a := BreakerIsHalfOpen(p);
    var b := RequestEnters(p, a, 1, 1);
    assert SlotStart(b.host, b.clock) > b.clock;
    s := ProbeIsInterrupted(p, b, 1);
  }
}
