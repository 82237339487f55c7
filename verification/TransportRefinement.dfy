/**
 * The two accounts of the retry loop are one: an attempt of the gateway object is a walk of one call through
 * the steps of the run machine, with other callers' regions in between.
 */
module TransportRefinement {
  import opened Common
  import opened TransportHost
  import opened TransportReplies
  import opened TransportRuns
  import opened TransportGateway

  /** Other callers run any of their regions on the host while time moves on. */
  ghost predicate OthersMove(p: HostPolicy, s: System, t: System) {
    exists ops: seq<HostOp>, clock: real :: t == Meanwhile(p, s, ops, clock)
  }

  function Meanwhile(p: HostPolicy, s: System, ops: seq<HostOp>, clock: real): System {
    s.(host := Run(p, s.host, ops), clock := clock)
  }

  ghost predicate CallMoves(p: HostPolicy, s: System, t: System, id: CallId) {
    exists e: Event :: Enabled(s, e) && IsCallStep(e) && e.id == id && t == After(p, s, e)
  }

  /** One call walks from one state to another. */
  ghost predicate Walks(p: HostPolicy, s: System, t: System, id: CallId) {
    exists trace: seq<System> ::
      && trace != [] && trace[0] == s && trace[|trace| - 1] == t
      && forall i | 0 <= i < |trace| - 1 :: Moves(p, trace[i], trace[i + 1], id)
  }

  ghost predicate Moves(p: HostPolicy, s: System, t: System, id: CallId) {
    CallMoves(p, s, t, id) || OthersMove(p, s, t)
  }

  lemma WalksNowhere(p: HostPolicy, s: System, id: CallId)
    ensures Walks(p, s, s, id)
  {
    var trace := [s];
    assert trace[0] == s && trace[|trace| - 1] == s;
  }

  lemma WalksOn(p: HostPolicy, s: System, t: System, u: System, id: CallId)
    requires Walks(p, s, t, id) && Moves(p, t, u, id)
    ensures Walks(p, s, u, id)
  {
    var trace: seq<System> :| trace != [] && trace[0] == s && trace[|trace| - 1] == t
      && forall i | 0 <= i < |trace| - 1 :: Moves(p, trace[i], trace[i + 1], id);
    var longer := trace + [u];
    forall i | 0 <= i < |longer| - 1 ensures Moves(p, longer[i], longer[i + 1], id) {
      if i < |trace| - 1 { assert longer[i] == trace[i] && longer[i + 1] == trace[i + 1]; }
    }
    assert longer[0] == s && longer[|longer| - 1] == u;
  }

  lemma Steps(p: HostPolicy, s: System, t: System, e: Event)
    requires Enabled(t, e) && IsCallStep(e) && Walks(p, s, t, e.id)
    ensures Walks(p, s, After(p, t, e), e.id)
  {
    assert CallMoves(p, t, After(p, t, e), e.id);
    WalksOn(p, s, t, After(p, t, e), e.id);
  }

  lemma Others(p: HostPolicy, s: System, t: System, id: CallId, ops: seq<HostOp>, clock: real)
    requires Walks(p, s, t, id)
    ensures Walks(p, s, Meanwhile(p, t, ops, clock), id)
  {
    assert OthersMove(p, t, Meanwhile(p, t, ops, clock));
    WalksOn(p, s, t, Meanwhile(p, t, ops, clock), id);
  }

  ghost predicate Stands(s: System, id: CallId, pc: Pc) { id in s.calls && s.calls[id].pc == pc }

  /** The call is the same request, sent so many times more, and cache and in-flight table are as they were. */
  ghost predicate Carries(s: System, t: System, id: CallId, sends: nat) {
    && t.cache == s.cache && t.inflight == s.inflight && id in s.calls && id in t.calls
    && t.calls[id] == s.calls[id].(pc := t.calls[id].pc, sends := s.calls[id].sends + sends)
  }

  /** Up to its slot: refused, or asleep. */
  lemma AsksForSlot(p: HostPolicy, s: System, id: CallId, attempt: nat, owner: bool, a: Attempt) returns (t: System)
    requires Stands(s, id, WantSlot(attempt, owner))
    ensures Walks(p, s, t, id)
    ensures
      var asked := Run(p, s.host, a.othersBefore);
      if SlotRefused(asked, a.slotClock, owner) then
        t.host == asked && Stands(t, id, Ending(owner, Raised(CircuitOpen)))
      else
        && t.host == Apply(p, asked, TakeSlot(a.slotClock, s.calls[id].gatedInternally, a.slotDraw, owner))
        && Stands(t, id, Sleeping(attempt, owner, |t.retired|))
    ensures Carries(s, t, id, 0)
  {
    WalksNowhere(p, s, id);
    var b := Meanwhile(p, s, a.othersBefore, a.slotClock);
    Others(p, s, s, id, a.othersBefore, a.slotClock);
    var c := After(p, b, ReadClock(id));
    Steps(p, s, b, ReadClock(id));
    assert c.host == b.host && Stands(c, id, ClockRead(attempt, owner, a.slotClock));
    t := After(p, c, Reserve(id, a.slotDraw));
    Steps(p, s, c, Reserve(id, a.slotDraw));
  }

  /** From its sleep to its engine: interrupted, over the budget, or sending. */
  lemma WakesAndSends(
    p: HostPolicy, s: System, t: System, id: CallId, attempt: nat, owner: bool, a: Attempt) returns (u: System)
    requires Walks(p, s, t, id) && Stands(t, id, Sleeping(attempt, owner, |t.retired|))
    ensures Walks(p, s, u, id)
    ensures
      var woken := Run(p, t.host, a.othersAsleep);
      var probing := owner || woken.openUntil != 0.0;
      if !a.wakes then u.host == woken && Stands(u, id, Ending(owner, Raised(Interruption)))
      else
        && u.host == Apply(p, woken, Authorize(a.budgetClock))
        && Stands(u, id, if Admitted(p, woken, a.budgetClock) then Sending(attempt, probing)
                         else Ending(probing, Raised(BudgetExhausted)))
    ensures
      Carries(t, u, id, if a.wakes && Admitted(p, Run(p, t.host, a.othersAsleep), a.budgetClock) then 1 else 0)
  {
    var b := Meanwhile(p, t, a.othersAsleep, a.budgetClock);
    Others(p, s, t, id, a.othersAsleep, a.budgetClock);
    if !a.wakes {
      u := After(p, b, Interrupt(id));
      Steps(p, s, b, Interrupt(id));
    } else {
      var c := After(p, b, EndSleep(id));
      Steps(p, s, b, EndSleep(id));
      assert c.host == b.host && c.clock == b.clock
        && Stands(c, id, WantBudget(attempt, owner || b.host.openUntil != 0.0));
      u := After(p, c, Charge(id));
      Steps(p, s, c, Charge(id));
    }
  }

  /** Its engine replies. */
  lemma IsAnswered(p: HostPolicy, s: System, t: System, id: CallId, attempt: nat, probing: bool, a: Attempt)
    returns (u: System)
    requires Walks(p, s, t, id) && Stands(t, id, Sending(attempt, probing))
    ensures Walks(p, s, u, id) && Stands(u, id, Replied(attempt, probing, a.reply)) && Carries(t, u, id, 0)
    ensures u.host == Run(p, t.host, a.othersSending) && u.clock == a.settleClock
  {
    var b := Meanwhile(p, t, a.othersSending, a.settleClock);
    Others(p, s, t, id, a.othersSending, a.settleClock);
    u := After(p, b, Receive(id, a.reply));
    Steps(p, s, b, Receive(id, a.reply));
  }

  /** The reply is settled. */
  lemma IsSettled(p: HostPolicy, s: System, t: System, id: CallId, attempt: nat, probing: bool, a: Attempt)
    returns (u: System)
    requires Walks(p, s, t, id) && Stands(t, id, Replied(attempt, probing, a.reply)) && t.clock == a.settleClock
    ensures Walks(p, s, u, id) && Carries(t, u, id, 0)
    ensures
      var d := Decide(p, attempt, a.reply, a.accepted, a.backoffDraw);
      && u.host == Settled(p, t.host, d, a.settleClock)
      && Stands(u, id, if d.Retry? then WantSlot(attempt + 1, probing) else Ending(probing, OutcomeOf(d)))
  {
    u := After(p, t, Settle(id, a.accepted, a.backoffDraw));
    Steps(p, s, t, Settle(id, a.accepted, a.backoffDraw));
  }

  /** From its engine's reply to its decision, and out of a backoff that is cut short. */
  lemma IsJudged(p: HostPolicy, s: System, t: System, id: CallId, attempt: nat, probing: bool, a: Attempt)
    returns (u: System)
    requires Walks(p, s, t, id) && Stands(t, id, Sending(attempt, probing))
    ensures Walks(p, s, u, id)
    ensures
      var d := Decide(p, attempt, a.reply, a.accepted, a.backoffDraw);
      && u.host == Settled(p, Run(p, t.host, a.othersSending), d, a.settleClock)
      && Stands(u, id, if !d.Retry? then Ending(probing, OutcomeOf(d))
                       else if a.backsOff then WantSlot(attempt + 1, probing)
                       else Ending(probing, Raised(Interruption)))
    ensures Carries(t, u, id, 0)
  {
    var answered := IsAnswered(p, s, t, id, attempt, probing, a);
    u := IsSettled(p, s, answered, id, attempt, probing, a);
    if Decide(p, attempt, a.reply, a.accepted, a.backoffDraw).Retry? && !a.backsOff {
      var v := After(p, u, Interrupt(id));
      Steps(p, s, u, Interrupt(id));
      assert v.host == u.host;
      u := v;
    }
  }

  /** Where an attempt leaves its call. */
  function PcAfter(r: Attempted, attempt: nat): Pc {
    if GoesOn(r.end) then WantSlot(attempt + 1, r.owner)
    else
      match EndOf(r.end)
      case Classified(outcome) => Ending(r.owner, outcome)
  }

  /** What an attempt leaves, stage by stage. */
  lemma AttemptIsStaged(
    p: HostPolicy, gatedInternally: bool, attempt: nat, a: Attempt, owner: bool, s: HostState)
    ensures
      var r := AttemptOn(p, gatedInternally, attempt, a, owner, s);
      var pc, sent := PcAfter(r, attempt), TransportGateway.SendsOf(r.end);
      var asked := Run(p, s, a.othersBefore);
      var woken := Run(p, Apply(p, asked, TakeSlot(a.slotClock, gatedInternally, a.slotDraw, owner)), a.othersAsleep);
      var probing, charged := owner || woken.openUntil != 0.0, Apply(p, woken, Authorize(a.budgetClock));
      var d := Decide(p, attempt, a.reply, a.accepted, a.backoffDraw);
      if SlotRefused(asked, a.slotClock, owner) then
        r.state == asked && pc == Ending(owner, Raised(CircuitOpen)) && sent == 0
      else if !a.wakes then r.state == woken && pc == Ending(owner, Raised(Interruption)) && sent == 0
      else if !Admitted(p, woken, a.budgetClock) then
        r.state == charged && pc == Ending(probing, Raised(BudgetExhausted)) && sent == 0
      else
        && sent == 1
        && r.state == Settled(p, Run(p, charged, a.othersSending), d, a.settleClock)
        && pc == if !d.Retry? then Ending(probing, OutcomeOf(d))
                 else if a.backsOff then WantSlot(attempt + 1, probing)
                 else Ending(probing, Raised(Interruption))
  {
  }

  /** An attempt of the gateway object walks its call through the steps of a run, with the same effect on the
      host, the same claim on the probe and the same end. */
  lemma AttemptIsAWalk(p: HostPolicy, s: System, id: CallId, attempt: nat, owner: bool, a: Attempt) returns (t: System)
    requires Stands(s, id, WantSlot(attempt, owner))
    ensures Walks(p, s, t, id)
    ensures
      var r := AttemptOn(p, s.calls[id].gatedInternally, attempt, a, owner, s.host);
      t.host == r.state && Stands(t, id, PcAfter(r, attempt)) && Carries(s, t, id, TransportGateway.SendsOf(r.end))
  {
    AttemptIsStaged(p, s.calls[id].gatedInternally, attempt, a, owner, s.host);
    t := AsksForSlot(p, s, id, attempt, owner, a);
    if !SlotRefused(Run(p, s.host, a.othersBefore), a.slotClock, owner) {
      var woken := Run(p, t.host, a.othersAsleep);
      t := WakesAndSends(p, s, t, id, attempt, owner, a);
      if a.wakes && Admitted(p, woken, a.budgetClock) {
        t := IsJudged(p, s, t, id, attempt, owner || woken.openUntil != 0.0, a);
      }
    }
  }

  lemma WalksTogether(p: HostPolicy, s: System, t: System, u: System, id: CallId)
    requires Walks(p, s, t, id) && Walks(p, t, u, id)
    ensures Walks(p, s, u, id)
  {
    var a: seq<System> :| a != [] && a[0] == s && a[|a| - 1] == t
      && forall i | 0 <= i < |a| - 1 :: Moves(p, a[i], a[i + 1], id);
    var b: seq<System> :| b != [] && b[0] == t && b[|b| - 1] == u
      && forall i | 0 <= i < |b| - 1 :: Moves(p, b[i], b[i + 1], id);
    var both := a + b[1..];
    forall i | 0 <= i < |both| - 1 ensures Moves(p, both[i], both[i + 1], id) {
      if i < |a| - 1 {
        assert both[i] == a[i] && both[i + 1] == a[i + 1];
      } else {
        var k := i - (|a| - 1);
        assert both[i] == b[k] && both[i + 1] == b[k + 1];
      }
    }
    assert both[0] == s && both[|both| - 1] == u;
  }

  lemma CarriesOn(s: System, t: System, u: System, id: CallId, m: nat, n: nat)
    requires Carries(s, t, id, m) && Carries(t, u, id, n)
    ensures Carries(s, u, id, m + n)
  {
  }

  /** The call has come to where a loop's result says, sent as often as it says. */
  ghost predicate ComesTo(s: System, t: System, id: CallId, r: Looped, attempt: nat) {
    && r.end.Classified? && r.sends >= attempt && t.host == r.state
    && Stands(t, id, Ending(r.owner, r.end.outcome)) && Carries(s, t, id, r.sends - attempt)
  }

  /** Which states a call's walks lead from and to. */
  ghost function WalksOf(p: HostPolicy, id: CallId): iset<(System, System)> {
    iset s: System, t: System | Walks(p, s, t, id) :: (s, t)
  }

  ghost predicate Composes(walks: iset<(System, System)>) {
    forall s, t, u | (s, t) in walks && (t, u) in walks :: (s, u) in walks
  }

  /** What a step of the loop says of an attempt, its call can walk. */
  ghost predicate StepWalks(
    walks: iset<(System, System)>, step: Step, s: System, id: CallId, attempt: nat, owner: bool) {
    var r := step(attempt, owner, s.host);
    exists t :: (s, t) in walks && t.host == r.state && Stands(t, id, PcAfter(r, attempt))
      && Carries(s, t, id, TransportGateway.SendsOf(r.end))
  }

  ghost predicate AllStepsWalk(walks: iset<(System, System)>, step: Step, id: CallId, gated: bool) {
    forall s: System, attempt: nat, owner ::
      Stands(s, id, WantSlot(attempt, owner)) && s.calls[id].gatedInternally == gated ==>
        StepWalks(walks, step, s, id, attempt, owner)
  }

  lemma AttemptsWalk(p: HostPolicy, gated: bool, env: nat -> Attempt, id: CallId)
    ensures AllStepsWalk(WalksOf(p, id), StepOf(p, gated, env), id, gated) && Composes(WalksOf(p, id))
  {
    forall s: System, attempt: nat, owner
      | Stands(s, id, WantSlot(attempt, owner)) && s.calls[id].gatedInternally == gated
      ensures StepWalks(WalksOf(p, id), StepOf(p, gated, env), s, id, attempt, owner)
    {
      var t := AttemptIsAWalk(p, s, id, attempt, owner, env(attempt));
      assert (s, t) in WalksOf(p, id);
    }
    forall s, t, u | (s, t) in WalksOf(p, id) && (t, u) in WalksOf(p, id) ensures (s, u) in WalksOf(p, id) {
      WalksTogether(p, s, t, u, id);
    }
  }

  lemma OneStepWalks(
    walks: iset<(System, System)>, step: Step, s: System, id: CallId, gated: bool, attempt: nat, owner: bool)
    returns (t: System)
    requires Stands(s, id, WantSlot(attempt, owner)) && s.calls[id].gatedInternally == gated
    requires AllStepsWalk(walks, step, id, gated)
    ensures (s, t) in walks
    ensures
      var r := step(attempt, owner, s.host);
      t.host == r.state && Stands(t, id, PcAfter(r, attempt)) && Carries(s, t, id, TransportGateway.SendsOf(r.end))
  {
    assert StepWalks(walks, step, s, id, attempt, owner);
    var r := step(attempt, owner, s.host);
    t :| (s, t) in walks && t.host == r.state && Stands(t, id, PcAfter(r, attempt))
      && Carries(s, t, id, TransportGateway.SendsOf(r.end));
  }

  /** The whole loop walks its call to where its function says the call ends. */
  lemma {:induction false} LoopIsAWalk(
    walks: iset<(System, System)>, maxRetries: int, step: Step, decisions: nat -> Decision, s: System, id: CallId,
    gated: bool, attempt: nat, slept: real, owner: bool)
    returns (t: System)
    requires Stands(s, id, WantSlot(attempt, owner)) && s.calls[id].gatedInternally == gated && attempt <= maxRetries
    requires Composes(walks) && AllStepsWalk(walks, step, id, gated) && Judges(step, decisions, maxRetries)
    ensures (s, t) in walks
    ensures ComesTo(s, t, id, Loop(maxRetries, step, attempt, slept, owner, s.host), attempt)
    decreases maxRetries - attempt
  {
    var r := step(attempt, owner, s.host);
    t := OneStepWalks(walks, step, s, id, gated, attempt, owner);
    LoopUnfolds(maxRetries, step, attempt, slept, owner, s.host, r);
    if GoesOn(r.end) {
      assert JudgedAs(r.end, decisions(attempt));
      var more := slept + AskedBy(r.end);
      var rest := Loop(maxRetries, step, attempt + 1, more, r.owner, r.state);
      var u := LoopIsAWalk(walks, maxRetries, step, decisions, t, id, gated, attempt + 1, more, r.owner);
      CarriesOn(s, t, u, id, 1, rest.sends - (attempt + 1));
      t := u;
    }
  }

  /** From the end of its loop a call runs its clean-up. */
  lemma CleansUpAndWaits(p: HostPolicy, s: System, t: System, id: CallId, clock: real) returns (u: System)
    requires Walks(p, s, t, id) && id in t.calls && t.calls[id].pc.Ending?
    ensures Walks(p, s, u, id)
    ensures
      var c := t.calls[id];
      && u == t.(clock := clock, calls := t.calls[id := c.(pc := Publishing(c.pc.outcome, false))],
                 host := if c.pc.probe then Apply(p, t.host, ClearProbe) else t.host)
  {
    var a := After(p, t, Finally(id));
    Steps(p, s, t, Finally(id));
    u := Meanwhile(p, a, [], clock);
    Others(p, s, a, id, [], clock);
  }

  /** Then its response is stored when it may be, and its outcome is published. */
  lemma StoresAndPublishes(p: HostPolicy, s: System, t: System, id: CallId) returns (u: System)
    requires Walks(p, s, t, id) && id in t.calls && t.calls[id].pc.Publishing? && !t.calls[id].pc.stored
    ensures Walks(p, s, u, id)
    ensures
      var c, outcome := t.calls[id], t.calls[id].pc.outcome;
      && u.host == t.host
      && u.calls == t.calls[id := c.(pc := Done(outcome, FromOwnRequest))]
      && u.inflight == t.inflight - {c.identity}
      && u.cache == if outcome.Returned? && c.cacheSeconds > 0.0
                    then t.cache[c.identity := CacheEntry(t.clock + c.cacheSeconds, outcome.response)]
                    else t.cache
  {
    var b := t;
    if Storable(t.calls[id]) {
      b := After(p, t, StoreInCache(id));
      Steps(p, s, t, StoreInCache(id));
    }
    u := After(p, b, Publish(id));
    Steps(p, s, b, Publish(id));
  }

  /** From where a loop's result says, the call goes on to be published with it. */
  lemma EndedIsPublished(p: HostPolicy, s: System, ended: System, id: CallId, r: Looped, storeClock: real)
    returns (t: System)
    requires Walks(p, s, ended, id) && ComesTo(s, ended, id, r, 0)
    ensures Walks(p, s, t, id)
    ensures
      var c, outcome := s.calls[id], ResultOf(r.end);
      && Stands(t, id, Done(outcome, FromOwnRequest)) && t.calls[id].sends == c.sends + r.sends
      && t.host == (if r.owner then Apply(p, r.state, ClearProbe) else r.state)
      && t.inflight == s.inflight - {c.identity}
      && t.cache == if outcome.Returned? && c.cacheSeconds > 0.0
                    then s.cache[c.identity := CacheEntry(storeClock + c.cacheSeconds, outcome.response)]
                    else s.cache
  {
    var cleaned := CleansUpAndWaits(p, s, ended, id, storeClock);
    t := StoresAndPublishes(p, s, cleaned, id);
  }

  /** A whole owned request of the gateway object walks its call through the steps of a run: the same result,
      sends, host state, cache and in-flight table. */
  lemma RequestIsAWalk(p: HostPolicy, s: System, id: CallId, env: nat -> Attempt, storeClock: real)
    returns (t: System)
    requires Stands(s, id, WantSlot(0, false)) && p.maxRetries >= 0
    ensures Walks(p, s, t, id)
    ensures
      var c := s.calls[id];
      var r := LoopOn(p, c.gatedInternally, env, s.host);
      && Stands(t, id, Done(ResultOf(r.end), FromOwnRequest))
      && t.calls[id].sends == c.sends + r.sends && t.host == r.state
      && t.inflight == s.inflight - {c.identity}
      && t.cache == if ResultOf(r.end).Returned? && c.cacheSeconds > 0.0
                    then s.cache[c.identity := CacheEntry(storeClock + c.cacheSeconds, ResultOf(r.end).response)]
                    else s.cache
  {
    var gated := s.calls[id].gatedInternally;
    var decisions := Decisions(p, env);
    AttemptsWalk(p, gated, env, id);
    StepJudges(p, gated, env);
    var step := StepOf(p, gated, env);
    var ended := LoopIsAWalk(WalksOf(p, id), p.maxRetries, step, decisions, s, id, gated, 0, 0.0, false);
    t := EndedIsPublished(p, s, ended, id, Loop(p.maxRetries, step, 0, 0.0, false, s.host), storeClock);
  }

  /** A call is served exactly on a live cache hit that its validator accepts, refused exactly on one that it
      rejects, joins exactly the call that holds its identity in flight, and owns it otherwise. */
  lemma EntersAsItFinds(p: HostPolicy, s: System, id: CallId, accepted: bool)
    requires Enabled(s, Enter(id, accepted))
    ensures
      var c, t := s.calls[id], After(p, s, Enter(id, accepted));
      var pc := t.calls[id].pc;
      var hit := c.cacheSeconds > 0.0 && c.identity in s.cache && s.cache[c.identity].expires > s.clock;
      && (pc.Done? && pc.outcome.Returned? <==> hit && accepted)
      && (pc.Done? && pc.outcome == Raised(Contract) <==> hit && !accepted)
      && (pc.Done? && pc.outcome.Returned? ==> pc.outcome.response == s.cache[c.identity].response)
      && (!hit && c.identity in s.inflight ==> pc == Joined(s.inflight[c.identity]))
      && (!hit && c.identity !in s.inflight ==> pc == WantSlot(0, false) && t.inflight == s.inflight[c.identity := id])
      && (hit || c.identity in s.inflight ==> t.inflight == s.inflight)
      && t.cache == (if hit || c.cacheSeconds <= 0.0 then s.cache else s.cache - {c.identity})
      && t.host == (if hit && !accepted then s.host.(probeInFlight := false) else s.host)
  {
  }

  /** A joined call ends as its owner did, unless it rejects a response: then with that, lowering the flag. */
  lemma WakesAsItsOwnerEnded(p: HostPolicy, s: System, id: CallId, accepted: bool)
    requires Enabled(s, Wake(id, accepted))
    ensures
      var t, outcome := After(p, s, Wake(id, accepted)), s.calls[s.calls[id].pc.owner].pc.outcome;
      var rejected := outcome.Returned? && !accepted;
      && t.calls[id].pc.Done? && t.calls[id].pc.outcome == (if rejected then Raised(Contract) else outcome)
      && t.host == (if rejected then s.host.(probeInFlight := false) else s.host)
      && t.cache == s.cache && t.inflight == s.inflight
  {
  }
}
