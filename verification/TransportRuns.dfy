/**
 * Whole runs of the gateway for the calls that target one host. Each event is one step of one call
 * (a locked region, the clock read before it, a sleep, an engine's reply) or the passing of time,
 * and calls interleave in any order. Hosts share nothing but the lock, and a request identity fixes
 * its host, so one host's calls are the whole story of that host.
 */
module TransportRuns {
  import opened Common
  import opened TransportHost
  import opened TransportReplies

  type CallId = nat

  /** How a finished call came by its outcome. */
  datatype Origin =
    | FromOwnRequest
    | FromCache(expires: real, servedAt: real)
    | FromOwner(owner: CallId)
    | WhileWaiting

  datatype Pc =
    | Entered
    | Joined(owner: CallId)
    | WantSlot(attempt: nat, probe: bool)
    | ClockRead(attempt: nat, probe: bool, now: real)
    | Sleeping(attempt: nat, probe: bool, generation: nat)
    | WantBudget(attempt: nat, probe: bool)
    | Sending(attempt: nat, probe: bool)
    | Replied(attempt: nat, probe: bool, reply: Reply)
    | Ending(probe: bool, outcome: Outcome)
    | Publishing(outcome: Outcome, stored: bool)
    | Done(outcome: Outcome, origin: Origin)

  datatype Call = Call(identity: Identity, gatedInternally: bool, cacheSeconds: real, sends: nat, pc: Pc)

  /** `retired` keeps the host states that `reset_host` dropped: a sleeping call may still hold one. */
  datatype System = System(
    host: HostState,
    retired: seq<HostState>,
    cache: map<Identity, CacheEntry>,
    inflight: map<Identity, CallId>,
    calls: map<CallId, Call>,
    answers: set<(Identity, Response)>,
    clock: real)

  datatype Event =
    | Begin(id: CallId, identity: Identity, gatedInternally: bool, cacheSeconds: real)
    | Enter(id: CallId, accepted: bool)
    | Wake(id: CallId, accepted: bool)
    | ReadClock(id: CallId)
    | Reserve(id: CallId, draw: real)
    | EndSleep(id: CallId)
    | Interrupt(id: CallId)
    | Charge(id: CallId)
    | Receive(id: CallId, reply: Reply)
    | Settle(id: CallId, accepted: bool, draw: real)
    | Finally(id: CallId)
    | StoreInCache(id: CallId)
    | Publish(id: CallId)
    | Tick(seconds: real)
    | ResetHost

  function Initial(clock: real): System {
    System(FRESH_HOST, [], map[], map[], map[], {}, clock)
  }

  predicate Enabled(s: System, e: Event) {
    match e
    case Begin(id, _, _, _) => id !in s.calls
    case Enter(id, _) => id in s.calls && s.calls[id].pc.Entered?
    case Wake(id, _) => id in s.calls && s.calls[id].pc.Joined? && OwnerDone(s, s.calls[id].pc.owner)
    case ReadClock(id) => id in s.calls && s.calls[id].pc.WantSlot?
    case Reserve(id, _) => id in s.calls && s.calls[id].pc.ClockRead?
    case EndSleep(id) => id in s.calls && s.calls[id].pc.Sleeping?
    case Interrupt(id) => id in s.calls && Waits(s.calls[id].pc)
    case Charge(id) => id in s.calls && s.calls[id].pc.WantBudget?
    case Receive(id, _) => id in s.calls && s.calls[id].pc.Sending?
    case Settle(id, _, _) => id in s.calls && s.calls[id].pc.Replied?
    case Finally(id) => id in s.calls && s.calls[id].pc.Ending?
    case StoreInCache(id) => id in s.calls && s.calls[id].pc.Publishing? && Storable(s.calls[id])
    case Publish(id) => id in s.calls && s.calls[id].pc.Publishing? && !Storable(s.calls[id])
    case Tick(seconds) => seconds >= 0.0
    case ResetHost => true
  }

  /** Asleep until its slot, backing off before a retry, or waiting for the owner it joined. */
  predicate Waits(pc: Pc) { pc.Sleeping? || (pc.WantSlot? && pc.attempt > 0) || pc.Joined? }

  predicate OwnerDone(s: System, owner: CallId) { owner in s.calls && s.calls[owner].pc.Done? }

  predicate Storable(c: Call)
    requires c.pc.Publishing?
  {
    c.pc.outcome.Returned? && !c.pc.stored && c.cacheSeconds > 0.0
  }

  /** What one step of a call leaves behind: the call itself and the shared state it may touch. */
  datatype Effect = Effect(
    call: Call,
    host: HostState,
    cache: map<Identity, CacheEntry>,
    inflight: map<Identity, CallId>,
    answers: set<(Identity, Response)>)

  predicate IsCallStep(e: Event) { !e.Begin? && !e.Tick? && !e.ResetHost? }

  function Moved(s: System, c: Call, pc: Pc): Effect {
    Effect(c.(pc := pc), s.host, s.cache, s.inflight, s.answers)
  }

  /** The first locked region of `request`: the cache, then the in-flight table. */
  function EnterEffect(p: HostPolicy, s: System, id: CallId, accepted: bool): Effect
    requires id in s.calls
  {
    var c := s.calls[id];
    if c.cacheSeconds > 0.0 && c.identity in s.cache && s.cache[c.identity].expires > s.clock then
      var hit := s.cache[c.identity];
      if accepted then Moved(s, c, Done(Returned(hit.response), FromCache(hit.expires, s.clock)))
      else
        var rejected := Moved(s, c, Done(Raised(Contract), FromCache(hit.expires, s.clock)));
        rejected.(host := Apply(p, s.host, RecordNonRetryable))
    else
      var left := if c.cacheSeconds > 0.0 then s.cache - {c.identity} else s.cache;
      if c.identity in s.inflight then Moved(s, c, Joined(s.inflight[c.identity])).(cache := left)
      else Moved(s, c, WantSlot(0, false)).(cache := left, inflight := s.inflight[c.identity := id])
  }

  function WakeEffect(p: HostPolicy, s: System, c: Call, accepted: bool): Effect
    requires c.pc.Joined? && OwnerDone(s, c.pc.owner)
  {
    var outcome := s.calls[c.pc.owner].pc.outcome;
    if outcome.Raised? || accepted then Moved(s, c, Done(outcome, FromOwner(c.pc.owner)))
    else Moved(s, c, Done(Raised(Contract), FromOwner(c.pc.owner))).(host := Apply(p, s.host, RecordNonRetryable))
  }

  function ReserveEffect(p: HostPolicy, s: System, c: Call, draw: real): Effect
    requires c.pc.ClockRead?
  {
    if SlotRefused(s.host, c.pc.now, c.pc.probe) then Moved(s, c, Ending(c.pc.probe, Raised(CircuitOpen)))
    else
      Moved(s, c, Sleeping(c.pc.attempt, c.pc.probe, |s.retired|)).(
        host := Apply(p, s.host, TakeSlot(c.pc.now, c.gatedInternally, draw, c.pc.probe)))
  }

  /** The open-until time a call re-reads after its sleep, in the state object it looked up before. */
  function SeenOpenUntil(s: System, generation: nat): real {
    if generation < |s.retired| then s.retired[generation].openUntil else s.host.openUntil
  }

  /** An exception out of a wait. The caller learns that it owns the probe only when its slot sleep ends, so
      one interrupted there ends with the claim it had before. */
  function InterruptEffect(s: System, c: Call): Effect
    requires Waits(c.pc)
  {
    if c.pc.Joined? then Moved(s, c, Done(Raised(Interruption), WhileWaiting))
    else Moved(s, c, Ending(c.pc.probe, Raised(Interruption)))
  }

  function ChargeEffect(p: HostPolicy, s: System, c: Call): Effect
    requires c.pc.WantBudget?
  {
    var next :=
      if Admitted(p, s.host, s.clock)
      then Moved(s, c.(sends := c.sends + 1), Sending(c.pc.attempt, c.pc.probe))
      else Moved(s, c, Ending(c.pc.probe, Raised(BudgetExhausted)));
    next.(host := Apply(p, s.host, Authorize(s.clock)))
  }

  function SettleEffect(p: HostPolicy, s: System, c: Call, accepted: bool, draw: real): Effect
    requires c.pc.Replied?
  {
    match Decide(p, c.pc.attempt, c.pc.reply, accepted, draw)
    case Succeed(r) => Moved(s, c, Ending(c.pc.probe, Returned(r))).(host := Apply(p, s.host, RecordSuccess))
    case GiveUp(category, counts) =>
      var op := if counts then RecordRetryable(s.clock) else RecordNonRetryable;
      Moved(s, c, Ending(c.pc.probe, Raised(category))).(host := Apply(p, s.host, op))
    case Retry(_) => Moved(s, c, WantSlot(c.pc.attempt + 1, c.pc.probe))
    case Abandon => Moved(s, c, Ending(c.pc.probe, Raised(Interruption)))
  }

  function EffectOf(p: HostPolicy, s: System, e: Event): Effect
    requires Enabled(s, e) && IsCallStep(e)
  {
    var c := s.calls[e.id];
    match e
    case Enter(id, accepted) => EnterEffect(p, s, id, accepted)
    case Wake(_, accepted) => WakeEffect(p, s, c, accepted)
    case ReadClock(_) => Moved(s, c, ClockRead(c.pc.attempt, c.pc.probe, s.clock))
    case Reserve(_, draw) => ReserveEffect(p, s, c, draw)
    case EndSleep(_) => Moved(s, c, WantBudget(c.pc.attempt, c.pc.probe || SeenOpenUntil(s, c.pc.generation) != 0.0))
    case Interrupt(_) => InterruptEffect(s, c)
    case Charge(_) => ChargeEffect(p, s, c)
    case Receive(_, reply) =>
      Moved(s, c, Replied(c.pc.attempt, c.pc.probe, reply)).(
        answers := if reply.Answered? then s.answers + {(c.identity, reply.response)} else s.answers)
    case Settle(_, accepted, draw) => SettleEffect(p, s, c, accepted, draw)
    case Finally(_) =>
      Moved(s, c, Publishing(c.pc.outcome, false)).(
        host := if c.pc.probe then Apply(p, s.host, ClearProbe) else s.host)
    case StoreInCache(_) =>
      Moved(s, c, c.pc.(stored := true)).(
        cache := s.cache[c.identity := CacheEntry(s.clock + c.cacheSeconds, c.pc.outcome.response)])
    case Publish(_) => Moved(s, c, Done(c.pc.outcome, FromOwnRequest)).(inflight := s.inflight - {c.identity})
  }

  function Install(s: System, id: CallId, f: Effect): System {
    System(f.host, s.retired, f.cache, f.inflight, s.calls[id := f.call], f.answers, s.clock)
  }

  function After(p: HostPolicy, s: System, e: Event): System
    requires Enabled(s, e)
  {
    match e
    case Begin(id, identity, gated, seconds) => s.(calls := s.calls[id := Call(identity, gated, seconds, 0, Entered)])
    case Tick(seconds) => s.(clock := s.clock + seconds)
    case ResetHost => s.(host := FRESH_HOST, retired := s.retired + [s.host], cache := map[])
    case _ => Install(s, e.id, EffectOf(p, s, e))
  }

  /** `trace` is a run: each state follows from the one before by an enabled event. */
  ghost predicate IsRun(p: HostPolicy, trace: seq<System>, events: seq<Event>) {
    && |trace| == |events| + 1
    && forall i | 0 <= i < |events| :: Enabled(trace[i], events[i]) && trace[i + 1] == After(p, trace[i], events[i])
  }

  // ---------------------------------------------------------------- single flight

  /** The call is inside the policy, between taking the in-flight entry and giving it up. */
  predicate OwnsFlight(pc: Pc) { !pc.Entered? && !pc.Joined? && !pc.Done? }

  ghost predicate SingleFlight(s: System) {
    && (forall i | i in s.inflight ::
          s.inflight[i] in s.calls && s.calls[s.inflight[i]].identity == i && OwnsFlight(s.calls[s.inflight[i]].pc))
    && (forall c | c in s.calls && OwnsFlight(s.calls[c].pc) ::
          s.calls[c].identity in s.inflight && s.inflight[s.calls[c].identity] == c)
  }

  /** The step keeps the call where it is with respect to the in-flight table. */
  predicate KeepsFlight(s: System, id: CallId, f: Effect)
    requires id in s.calls
  {
    && f.inflight == s.inflight
    && f.call.identity == s.calls[id].identity
    && OwnsFlight(f.call.pc) == OwnsFlight(s.calls[id].pc)
  }

  lemma FlightUntouched(s: System, id: CallId, f: Effect)
    requires SingleFlight(s) && id in s.calls && KeepsFlight(s, id, f)
    ensures SingleFlight(Install(s, id, f))
  {
  }

  lemma FlightEffects(p: HostPolicy, s: System, e: Event)
    requires Enabled(s, e) && IsCallStep(e)
    ensures
      var f := EffectOf(p, s, e);
      var c := s.calls[e.id];
      || KeepsFlight(s, e.id, f)
      || (e.Enter? && c.identity !in s.inflight && f.inflight == s.inflight[c.identity := e.id]
            && f.call == c.(pc := WantSlot(0, false)))
      || (e.Publish? && f.inflight == s.inflight - {c.identity} && f.call.identity == c.identity && f.call.pc.Done?)
  {
  }

  lemma SingleFlightKept(p: HostPolicy, s: System, e: Event)
    requires SingleFlight(s) && Enabled(s, e)
    ensures SingleFlight(After(p, s, e))
  {
    if IsCallStep(e) {
      FlightEffects(p, s, e);
      var f := EffectOf(p, s, e);
      if KeepsFlight(s, e.id, f) { FlightUntouched(s, e.id, f); }
    }
  }

  /** A joined call waits for a call of its own identity, and ends as that call ended unless its own
      validator refuses the shared response. */
  ghost predicate WellShared(s: System, k: Call) {
    match k.pc
    case Joined(o) =>
      && o in s.calls && s.calls[o].identity == k.identity
      && (OwnsFlight(s.calls[o].pc) || EndedByItself(s.calls[o].pc))
    case Done(outcome, FromOwner(o)) =>
      && o in s.calls && s.calls[o].identity == k.identity && EndedByItself(s.calls[o].pc)
      && (outcome == s.calls[o].pc.outcome || (s.calls[o].pc.outcome.Returned? && outcome == Raised(Contract)))
    case _ => true
  }

  predicate EndedByItself(pc: Pc) { pc.Done? && pc.origin == FromOwnRequest }

  ghost predicate SharedOutcomes(s: System) { forall c | c in s.calls :: WellShared(s, s.calls[c]) }

  /** An owner stays an owner until it is done by its own request; what is done stays as it is. */
  predicate OwnerProgress(before: Call, after: Call) {
    && after.identity == before.identity
    && !before.pc.Done?
    && (OwnsFlight(before.pc) ==> OwnsFlight(after.pc) || EndedByItself(after.pc))
  }

  lemma SharedStable(s: System, id: CallId, f: Effect, k: Call)
    requires WellShared(s, k) && id in s.calls && OwnerProgress(s.calls[id], f.call)
    ensures WellShared(Install(s, id, f), k)
  {
  }

  lemma SharedEffects(p: HostPolicy, s: System, e: Event)
    requires Enabled(s, e) && IsCallStep(e) && SingleFlight(s) && WellShared(s, s.calls[e.id])
    ensures OwnerProgress(s.calls[e.id], EffectOf(p, s, e).call) && WellShared(s, EffectOf(p, s, e).call)
  {
    FlightEffects(p, s, e);
  }

  lemma SharedOutcomesKept(p: HostPolicy, s: System, e: Event)
    requires SingleFlight(s) && SharedOutcomes(s) && Enabled(s, e)
    ensures SharedOutcomes(After(p, s, e))
  {
    var t := After(p, s, e);
    if IsCallStep(e) {
      SharedEffects(p, s, e);
      var f := EffectOf(p, s, e);
      forall c | c in t.calls ensures WellShared(t, t.calls[c]) {
        SharedStable(s, e.id, f, t.calls[c]);
      }
    } else {
      forall c | c in t.calls ensures WellShared(t, t.calls[c]) {
        if c in s.calls { assert WellShared(s, s.calls[c]); }
      }
    }
  }

  // ---------------------------------------------------------------- where responses come from

  /** An engine answered a request of this identity with `r`, and `r` is usable. */
  predicate Sound(answers: set<(Identity, Response)>, identity: Identity, r: Response) {
    (identity, r) in answers && Usable(r)
  }

  predicate SoundOutcome(answers: set<(Identity, Response)>, identity: Identity, o: Outcome) {
    o.Returned? ==> Sound(answers, identity, o.response)
  }

  predicate ProvenCall(answers: set<(Identity, Response)>, k: Call) {
    match k.pc
    case Replied(_, _, Answered(r, _)) => (k.identity, r) in answers
    case Ending(_, o) => SoundOutcome(answers, k.identity, o)
    case Publishing(o, _) => SoundOutcome(answers, k.identity, o)
    case Done(o, origin) =>
      SoundOutcome(answers, k.identity, o) && (origin.FromCache? ==> origin.servedAt < origin.expires)
    case _ => true
  }

  ghost predicate Provenance(s: System) {
    && (forall i | i in s.cache :: Sound(s.answers, i, s.cache[i].response))
    && (forall c | c in s.calls :: ProvenCall(s.answers, s.calls[c]))
  }

  lemma ProvenSettle(p: HostPolicy, s: System, c: Call, accepted: bool, draw: real)
    requires c.pc.Replied? && ProvenCall(s.answers, c)
    ensures ProvenCall(s.answers, SettleEffect(p, s, c, accepted, draw).call)
  {
    if c.pc.reply.Answered? { NoFailureIffUsable(c.pc.reply.response); }
  }

  lemma ProvenEffects(p: HostPolicy, s: System, e: Event)
    requires Enabled(s, e) && IsCallStep(e) && WellShared(s, s.calls[e.id]) && ProvenCall(s.answers, s.calls[e.id])
    requires e.Wake? ==> ProvenCall(s.answers, s.calls[s.calls[e.id].pc.owner])
    requires e.Enter? && s.calls[e.id].identity in s.cache ==>
      Sound(s.answers, s.calls[e.id].identity, s.cache[s.calls[e.id].identity].response)
    ensures
      var f := EffectOf(p, s, e);
      var i := s.calls[e.id].identity;
      && s.answers <= f.answers
      && ProvenCall(f.answers, f.call)
      && f.cache.Keys <= s.cache.Keys + {i}
      && (forall j | j in f.cache && j != i :: f.cache[j] == s.cache[j])
      && (i in f.cache ==> Sound(f.answers, i, f.cache[i].response) || (i in s.cache && f.cache[i] == s.cache[i]))
  {
    if e.Settle? { ProvenSettle(p, s, s.calls[e.id], e.accepted, e.draw); }
  }

  lemma ProvenanceKept(p: HostPolicy, s: System, e: Event)
    requires SharedOutcomes(s) && Provenance(s) && Enabled(s, e)
    ensures Provenance(After(p, s, e))
  {
    if IsCallStep(e) {
      assert WellShared(s, s.calls[e.id]);
      ProvenEffects(p, s, e);
      ProvenInstalled(s, e.id, EffectOf(p, s, e));
    }
  }

  lemma ProvenInstalled(s: System, id: CallId, f: Effect)
    requires Provenance(s) && s.answers <= f.answers && ProvenCall(f.answers, f.call)
    requires forall j | j in f.cache ::
      Sound(f.answers, j, f.cache[j].response) || (j in s.cache && f.cache[j] == s.cache[j])
    ensures Provenance(Install(s, id, f))
  {
    var t := Install(s, id, f);
    forall c | c in t.calls ensures ProvenCall(t.answers, t.calls[c]) {
      if c != id { assert ProvenCall(s.answers, s.calls[c]); }
    }
  }

  // ---------------------------------------------------------------- bounded attempts

  predicate BoundedCall(p: HostPolicy, k: Call) {
    var most := MaxInt(0, p.maxRetries);
    match k.pc
    case Entered => k.sends == 0
    case Joined(_) => k.sends == 0
    case WantSlot(a, _) => k.sends == a <= most
    case ClockRead(a, _, _) => k.sends == a <= most
    case Sleeping(a, _, _) => k.sends == a <= most
    case WantBudget(a, _) => k.sends == a <= most
    case Sending(a, _) => k.sends == a + 1 <= most + 1
    case Replied(a, _, _) => k.sends == a + 1 <= most + 1
    case _ => k.sends <= most + 1
  }

  ghost predicate BoundedSends(p: HostPolicy, s: System) { forall c | c in s.calls :: BoundedCall(p, s.calls[c]) }

  lemma BoundedSettle(p: HostPolicy, s: System, c: Call, accepted: bool, draw: real)
    requires c.pc.Replied? && BoundedCall(p, c)
    ensures BoundedCall(p, SettleEffect(p, s, c, accepted, draw).call)
  {
    RetryIsInTime(p, c.pc.attempt, c.pc.reply, accepted, draw);
  }

  lemma BoundedEnter(p: HostPolicy, s: System, id: CallId, accepted: bool)
    requires id in s.calls && s.calls[id].pc.Entered? && BoundedCall(p, s.calls[id])
    ensures BoundedCall(p, EnterEffect(p, s, id, accepted).call)
  {
  }

  lemma BoundedSlot(p: HostPolicy, s: System, c: Call, draw: real)
    requires c.pc.ClockRead? && BoundedCall(p, c)
    ensures BoundedCall(p, ReserveEffect(p, s, c, draw).call)
  {
  }

  lemma BoundedCharge(p: HostPolicy, s: System, c: Call)
    requires c.pc.WantBudget? && BoundedCall(p, c)
    ensures BoundedCall(p, ChargeEffect(p, s, c).call)
  {
  }

  lemma BoundedEffects(p: HostPolicy, s: System, e: Event)
    requires Enabled(s, e) && IsCallStep(e) && BoundedCall(p, s.calls[e.id])
    ensures BoundedCall(p, EffectOf(p, s, e).call)
  {
    var c := s.calls[e.id];
    match e
    case Enter(id, accepted) => BoundedEnter(p, s, id, accepted);
    case Reserve(_, draw) => BoundedSlot(p, s, c, draw);
    case Charge(_) => BoundedCharge(p, s, c);
    case Settle(_, accepted, draw) => BoundedSettle(p, s, c, accepted, draw);
    case _ =>
  }

  lemma BoundedSendsKept(p: HostPolicy, s: System, e: Event)
    requires BoundedSends(p, s) && Enabled(s, e)
    ensures BoundedSends(p, After(p, s, e))
  {
    if IsCallStep(e) { BoundedEffects(p, s, e); }
  }

  // ---------------------------------------------------------------- the probe flag and the breaker

  /** Only an open breaker raises the flag. */
  ghost predicate OpenWhenProbed(s: System) { s.host.probeInFlight ==> s.host.openUntil != 0.0 }

  lemma OpenWhenProbedKept(p: HostPolicy, s: System, e: Event)
    requires OpenWhenProbed(s) && Enabled(s, e)
    ensures OpenWhenProbed(After(p, s, e))
  {
    if !e.ResetHost? { HostFollowsOps(p, s, e); }
  }

  // ---------------------------------------------------------------- every run

  /** A run from a gateway that has not been used yet. */
  ghost predicate IsFirstRun(p: HostPolicy, trace: seq<System>, events: seq<Event>) {
    IsRun(p, trace, events) && exists clock: real :: trace[0] == Initial(clock)
  }

  ghost predicate Invariant(p: HostPolicy, s: System) {
    SingleFlight(s) && SharedOutcomes(s) && Provenance(s) && BoundedSends(p, s) && OpenWhenProbed(s)
  }

  lemma InvariantKept(p: HostPolicy, s: System, e: Event)
    requires Invariant(p, s) && Enabled(s, e)
    ensures Invariant(p, After(p, s, e))
  {
    SingleFlightKept(p, s, e);
    SharedOutcomesKept(p, s, e);
    ProvenanceKept(p, s, e);
    BoundedSendsKept(p, s, e);
    OpenWhenProbedKept(p, s, e);
  }

  lemma {:induction false} InvariantAlways(p: HostPolicy, trace: seq<System>, events: seq<Event>, n: nat)
    requires IsFirstRun(p, trace, events) && n < |trace|
    ensures Invariant(p, trace[n])
  {
    if n > 0 {
      InvariantAlways(p, trace, events, n - 1);
      InvariantKept(p, trace[n - 1], events[n - 1]);
    }
  }

  /** In every run at most one call per identity is inside the policy, and the in-flight table holds
      exactly those calls: an owner that has ended has left it. */
  lemma OneOwnerPerIdentity(p: HostPolicy, trace: seq<System>, events: seq<Event>, n: nat)
    requires IsFirstRun(p, trace, events) && n < |trace|
    ensures
      var s := trace[n];
      && (forall c, d | c in s.calls && d in s.calls && OwnsFlight(s.calls[c].pc) && OwnsFlight(s.calls[d].pc) ::
            s.calls[c].identity == s.calls[d].identity ==> c == d)
      && (forall i ::
            i in s.inflight <==> exists c | c in s.calls :: OwnsFlight(s.calls[c].pc) && s.calls[c].identity == i)
  {
    InvariantAlways(p, trace, events, n);
    var s := trace[n];
    assert forall i | i in s.inflight :: OwnsFlight(s.calls[s.inflight[i]].pc);
  }

  /** A call that joined another ends with that call's response or error, or with its own validator's
      rejection of the shared response. */
  lemma JoinedCallsShareTheOutcome(p: HostPolicy, trace: seq<System>, events: seq<Event>, n: nat, c: CallId)
    requires IsFirstRun(p, trace, events) && n < |trace|
    requires c in trace[n].calls && trace[n].calls[c].pc.Done? && trace[n].calls[c].pc.origin.FromOwner?
    ensures
      var s := trace[n];
      var o := s.calls[c].pc.origin.owner;
      && o in s.calls && s.calls[o].identity == s.calls[c].identity && EndedByItself(s.calls[o].pc)
      && (s.calls[c].pc.outcome == s.calls[o].pc.outcome
            || (s.calls[o].pc.outcome.Returned? && s.calls[c].pc.outcome == Raised(Contract)))
  {
    InvariantAlways(p, trace, events, n);
    assert WellShared(trace[n], trace[n].calls[c]);
  }

  /** Whatever `request` returns, an engine answered with it to the same identity, its status is below
      400 and it is no challenge; if it came from the cache it had not expired. */
  lemma ReturnedResponsesAreSound(p: HostPolicy, trace: seq<System>, events: seq<Event>, n: nat, c: CallId)
    requires IsFirstRun(p, trace, events) && n < |trace|
    requires c in trace[n].calls && trace[n].calls[c].pc.Done? && trace[n].calls[c].pc.outcome.Returned?
    ensures
      var k := trace[n].calls[c];
      && (k.identity, k.pc.outcome.response) in trace[n].answers
      && Usable(k.pc.outcome.response)
      && (k.pc.origin.FromCache? ==> k.pc.origin.servedAt < k.pc.origin.expires)
  {
    InvariantAlways(p, trace, events, n);
    assert ProvenCall(trace[n].answers, trace[n].calls[c]);
  }

  /** No call sends more than one attempt plus the configured retries. */
  lemma SendsAreBounded(p: HostPolicy, trace: seq<System>, events: seq<Event>, n: nat, c: CallId)
    requires IsFirstRun(p, trace, events) && n < |trace| && c in trace[n].calls
    ensures trace[n].calls[c].sends <= MaxInt(0, p.maxRetries) + 1
  {
    InvariantAlways(p, trace, events, n);
    assert BoundedCall(p, trace[n].calls[c]);
  }

  // ---------------------------------------------------------------- the host's share of a run

  /** The locked region of the host that an event runs, if it runs one. */
  function HostOpOf(p: HostPolicy, s: System, e: Event): Option<HostOp>
    requires Enabled(s, e)
  {
    match e
    case Enter(id, accepted) =>
      if After(p, s, e).calls[id].pc.Done? && !accepted then Some(RecordNonRetryable) else None
    case Wake(id, accepted) =>
      if s.calls[s.calls[id].pc.owner].pc.outcome.Raised? || accepted then None else Some(RecordNonRetryable)
    case Reserve(id, draw) =>
      Some(TakeSlot(s.calls[id].pc.now, s.calls[id].gatedInternally, draw, s.calls[id].pc.probe))
    case Charge(id) => Some(Authorize(s.clock))
    case Settle(id, accepted, draw) =>
      (match Decide(p, s.calls[id].pc.attempt, s.calls[id].pc.reply, accepted, draw)
       case Succeed(_) => Some(RecordSuccess)
       case GiveUp(_, counts) => Some(if counts then RecordRetryable(s.clock) else RecordNonRetryable)
       case _ => None)
    case Finally(id) => if s.calls[id].pc.probe then Some(ClearProbe) else None
    case _ => None
  }

  lemma HostFollowsOps(p: HostPolicy, s: System, e: Event)
    requires Enabled(s, e) && !e.ResetHost?
    ensures
      var op := HostOpOf(p, s, e);
      && After(p, s, e).host == (if op.Some? then Apply(p, s.host, op.value) else s.host)
      && (op.Some? && op.value.Authorize? ==> op.value.now == s.clock)
      && s.clock <= After(p, s, e).clock
  {
  }

  function HostOps(p: HostPolicy, trace: seq<System>, events: seq<Event>, n: nat): seq<HostOp>
    requires |trace| == |events| + 1 && n <= |events|
    requires forall i | 0 <= i < n :: Enabled(trace[i], events[i])
  {
    if n == 0 then []
    else
      var op := HostOpOf(p, trace[n - 1], events[n - 1]);
      HostOps(p, trace, events, n - 1) + if op.Some? then [op.value] else []
  }

  /** `host` at `clock` is where the locked regions `ops` lead a fresh host. */
  ghost predicate Explains(p: HostPolicy, ops: seq<HostOp>, host: HostState, clock: real) {
    && host == Run(p, FRESH_HOST, ops)
    && Monotone(ops)
    && (forall i | 0 <= i < |ops| && ops[i].Authorize? :: ops[i].now <= clock)
  }

  lemma ExplanationGrows(p: HostPolicy, ops: seq<HostOp>, host: HostState, clock: real, op: Option<HostOp>, later: real)
    requires Explains(p, ops, host, clock) && clock <= later
    requires op.Some? && op.value.Authorize? ==> op.value.now == clock
    ensures Explains(p, ops + (if op.Some? then [op.value] else []),
      if op.Some? then Apply(p, host, op.value) else host, later)
  {
    if op.Some? {
      RunAppend(p, FRESH_HOST, ops, op.value);
    } else {
      assert ops + [] == ops;
    }
  }

  lemma {:induction false} RunsAreHostRuns(p: HostPolicy, trace: seq<System>, events: seq<Event>, n: nat)
    requires IsFirstRun(p, trace, events) && n <= |events|
    requires forall i | 0 <= i < n :: !events[i].ResetHost?
    ensures Explains(p, HostOps(p, trace, events, n), trace[n].host, trace[n].clock)
  {
    if n > 0 {
      RunsAreHostRuns(p, trace, events, n - 1);
      HostFollowsOps(p, trace[n - 1], events[n - 1]);
      ExplanationGrows(
        p, HostOps(p, trace, events, n - 1), trace[n - 1].host, trace[n - 1].clock,
        HostOpOf(p, trace[n - 1], events[n - 1]), trace[n].clock);
    }
  }

  // ---------------------------------------------------------------- engine sends

  /** The step lets the call on to its engine. */
  predicate Sends(p: HostPolicy, s: System, e: Event)
    requires Enabled(s, e)
  {
    e.Charge? && Admitted(p, s.host, s.clock)
  }

  /** When the engine sends of a run were let through. */
  ghost function SendTimes(p: HostPolicy, trace: seq<System>, events: seq<Event>, n: nat): seq<real>
    requires IsRun(p, trace, events) && n <= |events|
  {
    if n == 0 then []
    else
      var earlier := SendTimes(p, trace, events, n - 1);
      if Sends(p, trace[n - 1], events[n - 1]) then earlier + [trace[n - 1].clock] else earlier
  }

  /** How many of them are one call's. */
  ghost function SendsOf(p: HostPolicy, trace: seq<System>, events: seq<Event>, n: nat, c: CallId): nat
    requires IsRun(p, trace, events) && n <= |events|
  {
    if n == 0 then 0
    else
      SendsOf(p, trace, events, n - 1, c) +
        if Sends(p, trace[n - 1], events[n - 1]) && events[n - 1].id == c then 1 else 0
  }

  /** A call counts exactly its own sends. */
  lemma {:induction false} SendsAreCounted(p: HostPolicy, trace: seq<System>, events: seq<Event>, n: nat, c: CallId)
    requires IsFirstRun(p, trace, events) && n <= |events|
    ensures SendsOf(p, trace, events, n, c) == if c in trace[n].calls then trace[n].calls[c].sends else 0
  {
    if n > 0 {
      SendsAreCounted(p, trace, events, n - 1, c);
      SendCounted(p, trace[n - 1], events[n - 1], c);
    }
  }

  function SendsIn(s: System, c: CallId): nat { if c in s.calls then s.calls[c].sends else 0 }

  lemma SendCounted(p: HostPolicy, s: System, e: Event, c: CallId)
    requires Enabled(s, e)
    ensures SendsIn(After(p, s, e), c) == SendsIn(s, c) + if Sends(p, s, e) && e.id == c then 1 else 0
  {
  }

  function AdmittedTimes(log: seq<Authorization>): seq<real> {
    if log == [] then []
    else
      var last := log[|log| - 1];
      AdmittedTimes(log[..|log| - 1]) + if last.admitted then [last.at] else []
  }

  lemma AuthorizationsGrow(p: HostPolicy, ops: seq<HostOp>, op: HostOp)
    ensures
      var times := AdmittedTimes(Authorizations(p, ops));
      AdmittedTimes(Authorizations(p, ops + [op])) ==
      if op.Authorize? && Admitted(p, Run(p, FRESH_HOST, ops), op.now) then times + [op.now] else times
  {
    var more := ops + [op];
    assert more[..|more| - 1] == ops && more[|more| - 1] == op;
    var log, grown := Authorizations(p, ops), Authorizations(p, more);
    if op.Authorize? {
      assert |grown| == |log| + 1 && grown[..|grown| - 1] == log && grown[|log|].at == op.now;
    } else {
      assert grown == log;
    }
  }

  /** The engine sends of a run are exactly the authorizations that its host admitted. */
  lemma {:induction false} SendsAreAdmissions(p: HostPolicy, trace: seq<System>, events: seq<Event>, n: nat)
    requires IsFirstRun(p, trace, events) && n <= |events|
    requires forall i | 0 <= i < n :: !events[i].ResetHost?
    ensures SendTimes(p, trace, events, n) == AdmittedTimes(Authorizations(p, HostOps(p, trace, events, n)))
  {
    if n > 0 {
      SendsAreAdmissions(p, trace, events, n - 1);
      RunsAreHostRuns(p, trace, events, n - 1);
      var s, e, ops := trace[n - 1], events[n - 1], HostOps(p, trace, events, n - 1);
      var op := HostOpOf(p, s, e);
      if op.Some? {
        AuthorizationsGrow(p, ops, op.value);
        AuthorizesAreCharges(p, s, e);
      } else {
        assert ops + [] == ops;
      }
    }
  }

  lemma AuthorizesAreCharges(p: HostPolicy, s: System, e: Event)
    requires Enabled(s, e) && HostOpOf(p, s, e).Some?
    ensures
      var op := HostOpOf(p, s, e).value;
      (op.Authorize? <==> e.Charge?) && (op.Authorize? ==> op.now == s.clock)
  {
  }

  function CountDuring(times: seq<real>, from: real, to: real): nat {
    if times == [] then 0
    else CountDuring(times[..|times| - 1], from, to) + if from <= times[|times| - 1] <= to then 1 else 0
  }

  lemma {:induction false} AdmittedDuringCounts(log: seq<Authorization>, from: real, to: real)
    ensures AdmittedDuring(log, from, to) == CountDuring(AdmittedTimes(log), from, to)
  {
    if log != [] {
      var front, last := log[..|log| - 1], log[|log| - 1];
      AdmittedDuringCounts(front, from, to);
      var times := AdmittedTimes(front);
      if last.admitted {
        assert (times + [last.at])[..|times|] == times;
      } else {
        assert times + [] == times;
      }
    }
  }

  /** In every run in which nobody resets the host its engine sends stay within the budget: at most the
      budget in each window, the windows at least a window apart, and at most twice the budget in any shorter
      time. */
  lemma SendsStayWithinBudget(
    p: HostPolicy, trace: seq<System>, events: seq<Event>, n: nat, from: real, to: real, window: nat)
    requires IsFirstRun(p, trace, events) && n <= |events|
    requires forall i | 0 <= i < n :: !events[i].ResetHost?
    ensures
      var log := Authorizations(p, HostOps(p, trace, events, n));
      && SendTimes(p, trace, events, n) == AdmittedTimes(log)
      && AdmittedInWindow(log, window) <= MaxInt(0, p.requestBudget)
      && WellWindowed(p, log, trace[n].host, WindowsOpened(p, HostOps(p, trace, events, n)))
      && (to - from < p.budgetWindow ==>
          CountDuring(SendTimes(p, trace, events, n), from, to) <= 2 * MaxInt(0, p.requestBudget))
  {
    var ops := HostOps(p, trace, events, n);
    SendsAreAdmissions(p, trace, events, n);
    RunsAreHostRuns(p, trace, events, n);
    WindowWithinBudget(p, ops, window);
    WindowsAreApart(p, ops);
    AdmittedDuringCounts(Authorizations(p, ops), from, to);
    if to - from < p.budgetWindow { SpanWithinTwiceTheBudget(p, ops, from, to); }
  }

  /** And its slots are spaced, and its breaker follows its history. */
  lemma HostGuaranteesInEveryRun(p: HostPolicy, trace: seq<System>, events: seq<Event>, n: nat)
    requires IsFirstRun(p, trace, events) && n <= |events|
    requires forall i | 0 <= i < n :: !events[i].ResetHost?
    ensures
      var ops := HostOps(p, trace, events, n);
      && SpacedFrom(p, Reservations(p, FRESH_HOST, ops), trace[n].host.nextAllowedAt)
      && trace[n].host.failures == FailuresSinceSuccess(ops)
      && trace[n].host.openUntil ==
         (if FailuresSinceSuccess(ops) >= Threshold(p) then LastFailureAt(ops) + Max(0.0, p.cooldown) else 0.0)
  {
    RunsAreHostRuns(p, trace, events, n);
    var ops := HostOps(p, trace, events, n);
    SlotsAreSpaced(p, FRESH_HOST, ops);
    BreakerFollowsHistory(p, ops);
  }
}
