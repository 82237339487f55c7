/**
 * The policy gateway as the object it is. Every method is one lock-protected region, or the code
 * between two of them, and states the fields it leaves behind by the functions the run theorems of
 * TransportHost and TransportRuns are about. A call that has to wait for another is split where it
 * waits: `BeginRequest`, then `RunOwned` or `FinishJoined`.
 */
module TransportGateway {
  import opened Common
  import opened TransportHost
  import opened TransportReplies

  type Host = string

  /** How the retry loop ended: with a classified result, or by running out of iterations. */
  datatype LoopEnd = Classified(outcome: Outcome) | FellThrough

  /** What the world answers during one attempt. `others` are regions other callers run meanwhile; a slot sleep
      may not return, and neither may a backoff. */
  datatype Attempt = Attempt(
    othersBefore: seq<HostOp>,
    slotClock: real,
    slotDraw: real,
    wakes: bool,
    othersAsleep: seq<HostOp>,
    budgetClock: real,
    reply: Reply,
    accepted: bool,
    backoffDraw: real,
    backsOff: bool,
    othersSending: seq<HostOp>,
    settleClock: real)

  class Flight {
    var finished: bool
    var response: Option<Response>
    var error: Option<Category>

    constructor ()
      ensures !finished && response.None? && error.None?
    {
      finished, response, error := false, None, None;
    }
  }

  datatype Entry =
    | Served(response: Response)
    | Rejected
    | Owner(flight: Flight)
    | Joiner(flight: Flight)

  // ---------------------------------------------------------------- the retry loop's meaning

  /** What is decided on the reply to each attempt. */
  ghost function Decisions(p: HostPolicy, env: nat -> Attempt): nat -> Decision {
    (i: nat) => Decide(p, i, env(i).reply, env(i).accepted, env(i).backoffDraw)
  }

  /** The total time the first k attempts ask to sleep before a retry. */
  ghost function Waits(decisions: nat -> Decision, k: nat): real {
    if k == 0 then 0.0 else Waits(decisions, k - 1) + if decisions(k - 1).Retry? then decisions(k - 1).wait else 0.0
  }

  function OutcomeOf(d: Decision): Outcome
    requires !d.Retry?
  {
    match d
    case Succeed(r) => Returned(r)
    case GiveUp(category, _) => Raised(category)
    case Abandon => Raised(Interruption)
  }

  /** The draw for a retry's jitter is between zero and the upper jitter bound. */
  ghost predicate HonestDraws(p: HostPolicy, env: nat -> Attempt) {
    forall i: nat :: 0.0 <= env(i).backoffDraw <= Max(0.0, p.jitterHigh)
  }

  function WaitBound(p: HostPolicy, k: nat): real {
    k as real * Max(0.0, p.maxRetryAfter) + Max(0.0, p.retryBackoff) * (Pow2(k) - 1) as real
      + k as real * Max(0.0, p.jitterHigh)
  }

  lemma WaitBoundGrows(p: HostPolicy, k: nat)
    ensures WaitBound(p, k + 1) == WaitBound(p, k) + Max(0.0, p.maxRetryAfter) + Backoff(p, k) + Max(0.0, p.jitterHigh)
  {
    var a, b, j := Max(0.0, p.maxRetryAfter), Max(0.0, p.retryBackoff), Max(0.0, p.jitterHigh);
    assert (k + 1) as real * a == k as real * a + a;
    assert (k + 1) as real * j == k as real * j + j;
    var low, step := (Pow2(k) - 1) as real, Pow2(k) as real;
    assert (Pow2(k + 1) - 1) as real == low + step;
    assert b * (low + step) == b * low + b * step;
  }

  /** One retry sleeps no longer than the bound's step at its number. */
  lemma OneWait(p: HostPolicy, env: nat -> Attempt, i: nat)
    requires HonestDraws(p, env) && Decisions(p, env)(i).Retry?
    ensures 0.0 <= Decisions(p, env)(i).wait <= WaitBound(p, i + 1) - WaitBound(p, i)
  {
    WaitBoundGrows(p, i);
    assert 0.0 <= env(i).backoffDraw <= Max(0.0, p.jitterHigh);
    RetryWaitIsShort(p, i, env(i).reply, env(i).accepted, env(i).backoffDraw);
  }

  /** Waits within the steps of a rising bound sum to within the bound. */
  lemma {:induction false} WaitsAreBounded(decisions: nat -> Decision, bound: nat -> real, k: nat, n: nat)
    requires k <= n && bound(0) == 0.0 && forall i: nat :: bound(i) <= bound(i + 1)
    requires forall i: nat | decisions(i).Retry? :: 0.0 <= decisions(i).wait <= bound(i + 1) - bound(i)
    ensures 0.0 <= Waits(decisions, k) <= bound(k) <= bound(n)
  {
    if k < n {
      WaitsAreBounded(decisions, bound, k, n - 1);
      assert bound(n - 1) <= bound(n - 1 + 1);
    } else if k > 0 {
      WaitsAreBounded(decisions, bound, k - 1, k - 1);
      assert bound(k - 1) <= bound(k - 1 + 1);
    }
  }

  /** Backoff over a whole request, every retry included. */
  lemma TotalBackoff(p: HostPolicy, env: nat -> Attempt, k: nat)
    requires HonestDraws(p, env) && k <= MaxInt(0, p.maxRetries)
    ensures Waits(Decisions(p, env), k) <= WaitBound(p, MaxInt(0, p.maxRetries))
  {
    var bound := (i: nat) => WaitBound(p, i);
    forall i: nat ensures bound(i) <= bound(i + 1) { WaitBoundGrows(p, i); }
    forall i: nat | Decisions(p, env)(i).Retry? ensures 0.0 <= Decisions(p, env)(i).wait <= bound(i + 1) - bound(i) {
      OneWait(p, env, i);
    }
    WaitsAreBounded(Decisions(p, env), bound, k, MaxInt(0, p.maxRetries));
  }

  /** Two host tables agree on every host but one. */
  ghost predicate OthersKept(before: map<Host, HostState>, after: map<Host, HostState>, host: Host) {
    && (forall h | h in before && h != host :: h in after && after[h] == before[h])
    && (forall h | h in after && h != host :: h in before)
  }

  /** How far one attempt got: the breaker refused it, the budget did, an exception cut short its slot sleep or
      the backoff it was to take, or its reply was judged. */
  datatype AttemptEnd = Refused | OverBudget | CutShort(backoff: Option<real>) | Judged(decision: Decision)

  /** The sends of one attempt, and the time it asked to sleep before a retry. */
  function SendsOf(end: AttemptEnd): nat { if end.Judged? || (end.CutShort? && end.backoff.Some?) then 1 else 0 }

  function AskedBy(end: AttemptEnd): real {
    match end
    case Judged(Retry(wait)) => wait
    case CutShort(Some(wait)) => wait
    case _ => 0.0
  }

  predicate GoesOn(end: AttemptEnd) { end.Judged? && end.decision.Retry? }

  /** What one attempt leaves: its end, whether the call now owns the probe, and the host's state. */
  datatype Attempted = Attempted(end: AttemptEnd, owner: bool, state: HostState)

  ghost function Settled(p: HostPolicy, s: HostState, d: Decision, now: real): HostState {
    match d
    case Succeed(_) => Apply(p, s, RecordSuccess)
    case GiveUp(_, counts) => Apply(p, s, if counts then RecordRetryable(now) else RecordNonRetryable)
    case _ => s
  }

  ghost function AttemptOn(
    p: HostPolicy, gatedInternally: bool, attempt: nat, a: Attempt, owner: bool, s: HostState): Attempted {
    var asked := Run(p, s, a.othersBefore);
    if SlotRefused(asked, a.slotClock, owner) then Attempted(Refused, owner, asked)
    else
      var woken := Run(p, Apply(p, asked, TakeSlot(a.slotClock, gatedInternally, a.slotDraw, owner)), a.othersAsleep);
      if !a.wakes then Attempted(CutShort(None), owner, woken)
      else
        var probing := owner || woken.openUntil != 0.0;
        var charged := Apply(p, woken, Authorize(a.budgetClock));
        if !Admitted(p, woken, a.budgetClock) then Attempted(OverBudget, probing, charged)
        else
          var d := Decide(p, attempt, a.reply, a.accepted, a.backoffDraw);
          var replied := Run(p, charged, a.othersSending);
          if d.Retry? && !a.backsOff then Attempted(CutShort(Some(d.wait)), probing, replied)
          else Attempted(Judged(d), probing, Settled(p, replied, d, a.settleClock))
  }

  datatype Looped = Looped(end: LoopEnd, sends: nat, slept: real, owner: bool, state: HostState)

  type Step = (nat, bool, HostState) -> Attempted

  /** The retry loop from one attempt on, over what each attempt does. */
  ghost function Loop(maxRetries: int, step: Step, attempt: nat, slept: real, owner: bool, s: HostState): Looped
    decreases MaxInt(0, maxRetries + 1 - attempt)
  {
    if attempt >= maxRetries + 1 then Looped(FellThrough, attempt, slept, owner, s)
    else
      var r := step(attempt, owner, s);
      if GoesOn(r.end) then Loop(maxRetries, step, attempt + 1, slept + AskedBy(r.end), r.owner, r.state)
      else Looped(EndOf(r.end), attempt + SendsOf(r.end), slept + AskedBy(r.end), r.owner, r.state)
  }

  function EndOf(end: AttemptEnd): LoopEnd
    requires !GoesOn(end)
  {
    Classified(match end
               case Refused => Raised(CircuitOpen)
               case OverBudget => Raised(BudgetExhausted)
               case CutShort(_) => Raised(Interruption)
               case Judged(d) => OutcomeOf(d))
  }

  /** What a request whose loop ends so comes back with: a loop without an iteration has no classified result. */
  function ResultOf(end: LoopEnd): Outcome {
    match end case Classified(outcome) => outcome case FellThrough => Raised(Internal)
  }

  lemma LoopUnfolds(maxRetries: int, step: Step, attempt: nat, slept: real, owner: bool, s: HostState, r: Attempted)
    requires attempt < maxRetries + 1 && r == step(attempt, owner, s)
    ensures
      Loop(maxRetries, step, attempt, slept, owner, s) ==
      if GoesOn(r.end) then Loop(maxRetries, step, attempt + 1, slept + AskedBy(r.end), r.owner, r.state)
      else Looped(EndOf(r.end), attempt + SendsOf(r.end), slept + AskedBy(r.end), r.owner, r.state)
  {
  }

  /** The loop with its variables where they are, running or not, still has the whole loop's result. */
  ghost predicate OnItsWay(
    whole: Looped, maxRetries: int, step: Step, running: bool, end: LoopEnd, sends: nat, slept: real, owner: bool,
    s: HostState)
  {
    if running then end == FellThrough && whole == Loop(maxRetries, step, sends, slept, owner, s)
    else whole == Looped(end, sends, slept, owner, s)
  }

  lemma StaysOnItsWay(
    whole: Looped, maxRetries: int, step: Step, end: LoopEnd, sends: nat, slept: real, owner: bool, s: HostState,
    r: Attempted)
    requires OnItsWay(whole, maxRetries, step, true, end, sends, slept, owner, s)
    requires sends < maxRetries + 1 && r == step(sends, owner, s)
    ensures var more := slept + AskedBy(r.end);
      if GoesOn(r.end) then OnItsWay(whole, maxRetries, step, true, end, sends + 1, more, r.owner, r.state)
      else OnItsWay(whole, maxRetries, step, false, EndOf(r.end), sends + SendsOf(r.end), more, r.owner, r.state)
  {
    LoopUnfolds(maxRetries, step, sends, slept, owner, s, r);
  }

  lemma OthersStayKept(
    a: map<Host, HostState>, b: map<Host, HostState>, c: map<Host, HostState>, host: Host)
    requires OthersKept(a, b, host) && OthersKept(b, c, host)
    ensures OthersKept(a, c, host)
  {
  }

  ghost function StepOf(p: HostPolicy, gatedInternally: bool, env: nat -> Attempt): Step {
    (attempt: nat, owner: bool, s: HostState) => AttemptOn(p, gatedInternally, attempt, env(attempt), owner, s)
  }

  /** A whole request on a host's state; at its end a call that owns the probe lowers the flag. */
  ghost function LoopOn(p: HostPolicy, gatedInternally: bool, env: nat -> Attempt, s: HostState): Looped {
    var r := Loop(p.maxRetries, StepOf(p, gatedInternally, env), 0, 0.0, false, s);
    if r.owner then r.(state := Apply(p, r.state, ClearProbe)) else r
  }

  /** The loop's result after `sends` sends, of which all but the last were followed by a retry: refused, over
      the budget or interrupted before another, or as the last one was decided. */
  ghost predicate EndsWith(decisions: nat -> Decision, sends: nat, outcome: Outcome) {
    || (outcome in {Raised(CircuitOpen), Raised(BudgetExhausted), Raised(Interruption)}
        && (sends > 0 ==> decisions(sends - 1).Retry?))
    || (sends > 0 && !decisions(sends - 1).Retry? && outcome == OutcomeOf(decisions(sends - 1)))
  }

  /** At most one send more than the retries allowed, always a classified end when there is an attempt at
      all, and a retry, with its wait, after every send but the last. */
  ghost predicate LoopIsSound(maxRetries: int, decisions: nat -> Decision, r: Looped) {
    && (r.end.FellThrough? <==> maxRetries < 0)
    && r.sends <= MaxInt(0, maxRetries) + 1
    && (forall i: nat | i < r.sends - 1 :: decisions(i).Retry?)
    && (r.end.Classified? ==> EndsWith(decisions, r.sends, r.end.outcome))
    && r.slept == Waits(decisions, r.sends)
  }

  /** Each attempt that is judged is judged as the decision at its number says, a backoff cut short is the one
      decided, and the last attempt is never followed by another. */
  ghost predicate Judges(step: Step, decisions: nat -> Decision, maxRetries: int) {
    && (forall n: nat, owner, s :: JudgedAs(step(n, owner, s).end, decisions(n)))
    && (forall n: nat | decisions(n).Retry? :: n < maxRetries)
  }

  predicate JudgedAs(end: AttemptEnd, d: Decision) {
    && (end.Judged? ==> end.decision == d)
    && (end.CutShort? && end.backoff.Some? ==> d == Retry(end.backoff.value))
  }

  lemma AttemptIsJudged(p: HostPolicy, gatedInternally: bool, attempt: nat, a: Attempt, owner: bool, s: HostState)
    ensures
      JudgedAs(AttemptOn(p, gatedInternally, attempt, a, owner, s).end,
               Decide(p, attempt, a.reply, a.accepted, a.backoffDraw))
  {
  }

  lemma StepJudges(p: HostPolicy, gatedInternally: bool, env: nat -> Attempt)
    ensures Judges(StepOf(p, gatedInternally, env), Decisions(p, env), p.maxRetries)
  {
    var step, decisions := StepOf(p, gatedInternally, env), Decisions(p, env);
    forall n: nat, owner, s ensures JudgedAs(step(n, owner, s).end, decisions(n)) {
      AttemptIsJudged(p, gatedInternally, n, env(n), owner, s);
    }
    forall n: nat | decisions(n).Retry? ensures n < p.maxRetries {
      RetryIsInTime(p, n, env(n).reply, env(n).accepted, env(n).backoffDraw);
    }
  }

  /** A response is returned only for a send that it answered, usable and accepted by the validator. */
  lemma ReturnedIsEarned(p: HostPolicy, env: nat -> Attempt, sends: nat, r: Response)
    requires EndsWith(Decisions(p, env), sends, Returned(r))
    ensures sends > 0 && Usable(r) && env(sends - 1).reply.Answered? && env(sends - 1).reply.response == r
    ensures env(sends - 1).accepted
  {
    var i := sends - 1;
    assert Decisions(p, env)(i) == Succeed(r);
    SuccessIsEarned(p, i, env(i).reply, env(i).accepted, env(i).backoffDraw);
  }

  lemma {:induction false} LoopFollowsDecisions(
    maxRetries: int, step: Step, decisions: nat -> Decision, attempt: nat, slept: real, owner: bool, s: HostState)
    requires Judges(step, decisions, maxRetries) && slept == Waits(decisions, attempt)
    requires if maxRetries < 0 then attempt == 0 else attempt <= maxRetries
    requires forall i: nat | i < attempt :: decisions(i).Retry?
    ensures LoopIsSound(maxRetries, decisions, Loop(maxRetries, step, attempt, slept, owner, s))
    decreases MaxInt(0, maxRetries + 1 - attempt)
  {
    if attempt <= maxRetries {
      var r := step(attempt, owner, s);
      assert JudgedAs(r.end, decisions(attempt));
      if GoesOn(r.end) {
        LoopFollowsDecisions(maxRetries, step, decisions, attempt + 1, slept + AskedBy(r.end), r.owner, r.state);
      }
    }
  }

  /** Every request's loop is sound, whatever the host's state and the world; a call that owned the probe
      leaves its flag down. */
  lemma LoopOnIsSound(p: HostPolicy, gatedInternally: bool, env: nat -> Attempt, s: HostState)
    ensures LoopIsSound(p.maxRetries, Decisions(p, env), LoopOn(p, gatedInternally, env, s))
    ensures LoopOn(p, gatedInternally, env, s).owner ==> !LoopOn(p, gatedInternally, env, s).state.probeInFlight
  {
    StepJudges(p, gatedInternally, env);
    LoopFollowsDecisions(p.maxRetries, StepOf(p, gatedInternally, env), Decisions(p, env), 0, 0.0, false, s);
  }

  /** The backoff of a whole request stays within the policy's bound. */
  lemma BackoffOfLoop(p: HostPolicy, gatedInternally: bool, env: nat -> Attempt, s: HostState)
    requires HonestDraws(p, env)
    ensures LoopOn(p, gatedInternally, env, s).slept <= WaitBound(p, MaxInt(0, p.maxRetries))
  {
    LoopOnIsSound(p, gatedInternally, env, s);
    StepJudges(p, gatedInternally, env);
    var decisions, sends, most := Decisions(p, env), LoopOn(p, gatedInternally, env, s).sends, MaxInt(0, p.maxRetries);
    TotalBackoff(p, env, if sends <= most then sends else most);
    if sends > most { assert Waits(decisions, sends) == Waits(decisions, most); }
  }

  class TransportPolicyGateway {
    var states: map<Host, HostState>
    var cache: map<Identity, CacheEntry>
    var cacheHosts: map<Identity, Host>
    var inflight: map<Identity, Flight>

    constructor ()
      ensures states == map[] && cache == map[] && cacheHosts == map[] && inflight == map[]
    {
      states, cache, cacheHosts, inflight := map[], map[], map[], map[];
    }

    /** Every cached response is filed under a host, so that resetting the host finds it. */
    ghost predicate Valid() reads this { cache.Keys == cacheHosts.Keys }

    function StateOf(host: Host): HostState reads this {
      if host in states then states[host] else FRESH_HOST
    }

    method WaitForSlot(p: HostPolicy, host: Host, now: real, gatedInternally: bool, draw: real, probeOwner: bool)
      returns (granted: bool, delay: real)
      modifies this`states
      ensures granted == !SlotRefused(old(StateOf(host)), now, probeOwner)
      ensures states ==
        old(states)[host := Apply(p, old(StateOf(host)), TakeSlot(now, gatedInternally, draw, probeOwner))]
      ensures granted ==> delay >= 0.0 && now + delay == SlotStart(old(StateOf(host)), now)
    {
      var state := StateOf(host);
      states := states[host := state];
      delay := 0.0;
      if !probeOwner && state.openUntil > now {
        return false, delay;
      }
      if state.openUntil != 0.0 && !probeOwner {
        if state.probeInFlight {
          return false, delay;
        }
        state := state.(probeInFlight := true);
      }
      var required := if gatedInternally then Max(0.0, p.minimumInterval) else 0.0;
      if required != 0.0 {
        required := required + Max(0.0, draw);
      }
      delay := Max(0.0, state.nextAllowedAt - now);
      state := state.(nextAllowedAt := Max(now, state.nextAllowedAt) + required);
      states := states[host := state];
      granted := true;
    }

    method AuthorizeAttempt(p: HostPolicy, host: Host, now: real) returns (admitted: bool)
      modifies this`states
      ensures admitted == Admitted(p, old(StateOf(host)), now)
      ensures states == old(states)[host := Apply(p, old(StateOf(host)), Authorize(now))]
    {
      var state := StateOf(host);
      if state.budgetStartedAt.None? || now - state.budgetStartedAt.value >= p.budgetWindow {
        state := state.(budgetStartedAt := Some(now), requestsUsed := 0);
      }
      state := state.(requestsUsed := state.requestsUsed + 1);
      states := states[host := state];
      admitted := state.requestsUsed <= p.requestBudget;
    }

    method Success(p: HostPolicy, host: Host)
      modifies this`states
      ensures states == old(states)[host := Apply(p, old(StateOf(host)), RecordSuccess)]
    {
      states := states[host := StateOf(host).(failures := 0, openUntil := 0.0, probeInFlight := false)];
    }

    method RetryableFailure(p: HostPolicy, host: Host, now: real)
      modifies this`states
      ensures states == old(states)[host := Apply(p, old(StateOf(host)), RecordRetryable(now))]
    {
      var state := StateOf(host);
      state := state.(failures := state.failures + 1, probeInFlight := false);
      if state.failures >= MaxInt(1, p.failureThreshold) {
        state := state.(openUntil := now + Max(0.0, p.cooldown));
      }
      states := states[host := state];
    }

    /** Both `_record_non_retryable_failure` and `_clear_probe`: they do the same to the state. */
    method LowerProbe(p: HostPolicy, host: Host)
      modifies this`states
      ensures states == old(states)[host := Apply(p, old(StateOf(host)), RecordNonRetryable)]
      ensures states == old(states)[host := Apply(p, old(StateOf(host)), ClearProbe)]
    {
      states := states[host := StateOf(host).(probeInFlight := false)];
    }

    /** Other callers get the lock: any sequence of their regions runs. */
    method Interleave(p: HostPolicy, host: Host, others: seq<HostOp>)
      modifies this`states
      ensures StateOf(host) == Run(p, old(StateOf(host)), others)
      ensures OthersKept(old(states), states, host)
    {
      var i := 0;
      while i < |others|
        invariant i <= |others|
        invariant StateOf(host) == Run(p, old(StateOf(host)), others[..i])
        invariant OthersKept(old(states), states, host)
      {
        states := states[host := Apply(p, StateOf(host), others[i])];
        assert others[..i + 1][..i] == others[..i];
        i := i + 1;
      }
      assert others[..|others|] == others;
    }

    /** One pass of the retry loop, with other callers interleaved wherever the lock is free. */
    method OneAttempt(p: HostPolicy, host: Host, gatedInternally: bool, attempt: nat, a: Attempt, probeOwner: bool)
      returns (end: AttemptEnd, owner: bool)
      modifies this`states
      ensures Attempted(end, owner, StateOf(host)) ==
        AttemptOn(p, gatedInternally, attempt, a, probeOwner, old(StateOf(host)))
      ensures OthersKept(old(states), states, host)
    {
      owner := probeOwner;
      Interleave(p, host, a.othersBefore);
      var granted, _ := WaitForSlot(p, host, a.slotClock, gatedInternally, a.slotDraw, probeOwner);
      if !granted {
        return Refused, owner;
      }
      Interleave(p, host, a.othersAsleep);
      if !a.wakes {
        return CutShort(None), owner;
      }
      owner := probeOwner || StateOf(host).openUntil != 0.0;
      var admitted := AuthorizeAttempt(p, host, a.budgetClock);
      if !admitted {
        return OverBudget, owner;
      }
      Interleave(p, host, a.othersSending);
      var decision := Decide(p, attempt, a.reply, a.accepted, a.backoffDraw);
      if decision.Retry? && !a.backsOff {
        return CutShort(Some(decision.wait)), owner;
      }
      match decision {
        case Succeed(_) => Success(p, host);
        case GiveUp(_, countsAsFailure) =>
          if countsAsFailure {
            RetryableFailure(p, host, a.settleClock);
          } else {
            LowerProbe(p, host);
          }
        case Retry(_) =>
        case Abandon =>
      }
      end := Judged(decision);
    }

    /** The retry loop, as its function of the host's state and the world says. */
    method RunAttempts(p: HostPolicy, host: Host, gatedInternally: bool, env: nat -> Attempt)
      returns (end: LoopEnd, sends: nat, slept: real, probeOwner: bool)
      modifies this`states
      ensures
        Looped(end, sends, slept, probeOwner, StateOf(host)) ==
        Loop(p.maxRetries, StepOf(p, gatedInternally, env), 0, 0.0, false, old(StateOf(host)))
      ensures OthersKept(old(states), states, host)
    {
      ghost var step := StepOf(p, gatedInternally, env);
      ghost var whole := Loop(p.maxRetries, step, 0, 0.0, false, StateOf(host));
      probeOwner, sends, slept, end := false, 0, 0.0, FellThrough;
      var running := true;
      while running && sends < p.maxRetries + 1
        invariant OnItsWay(whole, p.maxRetries, step, running, end, sends, slept, probeOwner, StateOf(host))
        invariant OthersKept(old(states), states, host)
        decreases running, p.maxRetries + 1 - sends
      {
        ghost var table := states;
        running, end, sends, slept, probeOwner :=
          NextAttempt(p, host, gatedInternally, env, sends, slept, probeOwner, whole);
        OthersStayKept(old(states), table, states, host);
      }
    }

    /** One turn of the loop: a retry goes on with the next attempt, any other end leaves it. */
    method NextAttempt(
      p: HostPolicy, host: Host, gatedInternally: bool, env: nat -> Attempt, attempt: nat, waited: real, owner: bool,
      ghost whole: Looped)
      returns (running: bool, end: LoopEnd, sends: nat, slept: real, probeOwner: bool)
      requires attempt < p.maxRetries + 1
      requires OnItsWay(
        whole, p.maxRetries, StepOf(p, gatedInternally, env), true, FellThrough, attempt, waited, owner, StateOf(host))
      modifies this`states
      ensures OnItsWay(
        whole, p.maxRetries, StepOf(p, gatedInternally, env), running, end, sends, slept, probeOwner, StateOf(host))
      ensures running ==> sends == attempt + 1
      ensures OthersKept(old(states), states, host)
    {
      ghost var step, before := StepOf(p, gatedInternally, env), StateOf(host);
      var result;
      result, probeOwner := OneAttempt(p, host, gatedInternally, attempt, env(attempt), owner);
      ghost var r := Attempted(result, probeOwner, StateOf(host));
      StaysOnItsWay(whole, p.maxRetries, step, FellThrough, attempt, waited, owner, before, r);
      slept := waited + AskedBy(result);
      if GoesOn(result) {
        running, end, sends := true, FellThrough, attempt + 1;
      } else {
        running, end, sends := false, EndOf(result), attempt + SendsOf(result);
      }
    }

    /** The loop and its clean-up: a call that owns the probe lowers the flag. */
    method RequestWithPolicy(p: HostPolicy, host: Host, gatedInternally: bool, env: nat -> Attempt)
      returns (end: LoopEnd, sends: nat, slept: real, probeOwner: bool)
      modifies this`states
      ensures Looped(end, sends, slept, probeOwner, StateOf(host)) ==
        LoopOn(p, gatedInternally, env, old(StateOf(host)))
      ensures OthersKept(old(states), states, host)
    {
      end, sends, slept, probeOwner := RunAttempts(p, host, gatedInternally, env);
      if probeOwner {
        LowerProbe(p, host);
      }
    }

    /** The first locked region of a request: serve it from the cache, join its owner, or own it. */
    method BeginRequest(p: HostPolicy, host: Host, identity: Identity, cacheSeconds: real, now: real, accepted: bool)
      returns (entry: Entry)
      requires Valid()
      modifies this
      ensures Valid()
      ensures
        var hit := cacheSeconds > 0.0 && identity in old(cache) && old(cache)[identity].expires > now;
        && (entry.Served? <==> hit && accepted)
        && (entry.Rejected? <==> hit && !accepted)
        && (entry.Served? ==> entry.response == old(cache)[identity].response)
        && (hit ==> inflight == old(inflight))
        && cache == (if hit || cacheSeconds <= 0.0 then old(cache) else old(cache) - {identity})
        && cacheHosts == (if hit || cacheSeconds <= 0.0 then old(cacheHosts) else old(cacheHosts) - {identity})
      ensures entry.Joiner? ==>
        identity in old(inflight) && entry.flight == old(inflight)[identity] && inflight == old(inflight)
      ensures entry.Owner? ==>
        identity !in old(inflight) && fresh(entry.flight) && !entry.flight.finished
          && inflight == old(inflight)[identity := entry.flight]
      ensures states ==
        if entry.Rejected? then old(states)[host := Apply(p, old(StateOf(host)), RecordNonRetryable)] else old(states)
    {
      if cacheSeconds > 0.0 {
        if identity in cache && cache[identity].expires > now {
          if accepted {
            return Served(cache[identity].response);
          }
          LowerProbe(p, host);
          return Rejected;
        }
        cache := cache - {identity};
        cacheHosts := cacheHosts - {identity};
      }
      if identity in inflight {
        return Joiner(inflight[identity]);
      }
      var flight := new Flight();
      inflight := inflight[identity := flight];
      return Owner(flight);
    }

    /** The owner's part: run the policy, cache the response, hand the result to whoever joined. */
    method RunOwned(
      p: HostPolicy, host: Host, identity: Identity, flight: Flight, gatedInternally: bool, cacheSeconds: real,
      storeClock: real, env: nat -> Attempt)
      returns (outcome: Outcome, sends: nat)
      requires Valid()
      requires identity in inflight && inflight[identity] == flight && !flight.finished && flight.response.None?
      requires flight.error.None?
      modifies this, flight
      ensures Valid()
      ensures flight.finished && inflight == old(inflight) - {identity}
      ensures
        match outcome
        case Returned(r) => flight.response == Some(r) && flight.error.None? && Usable(r) && sends > 0
          && env(sends - 1).reply.Answered? && env(sends - 1).reply.response == r && env(sends - 1).accepted
        case Raised(category) => flight.error == Some(category) && flight.response.None?
      ensures outcome == ResultOf(LoopOn(p, gatedInternally, env, old(StateOf(host))).end)
      ensures
        cache == if outcome.Returned? && cacheSeconds > 0.0
                 then old(cache)[identity := CacheEntry(storeClock + cacheSeconds, outcome.response)]
                 else old(cache)
      ensures
        cacheHosts == if outcome.Returned? && cacheSeconds > 0.0 then old(cacheHosts)[identity := host]
                      else old(cacheHosts)
      ensures StateOf(host) == LoopOn(p, gatedInternally, env, old(StateOf(host))).state
      ensures OthersKept(old(states), states, host)
      ensures sends == LoopOn(p, gatedInternally, env, old(StateOf(host))).sends <= MaxInt(0, p.maxRetries) + 1
    {
      LoopOnIsSound(p, gatedInternally, env, StateOf(host));
      var end, count, _, _ := RequestWithPolicy(p, host, gatedInternally, env);
      sends := count;
      outcome := ResultOf(end);
      if outcome.Returned? {
        ReturnedIsEarned(p, env, sends, outcome.response);
        if cacheSeconds > 0.0 {
          cache := cache[identity := CacheEntry(storeClock + cacheSeconds, outcome.response)];
          cacheHosts := cacheHosts[identity := host];
        }
        flight.response := Some(outcome.response);
      } else {
        flight.error := Some(outcome.category);
      }
      inflight := inflight - {identity};
      flight.finished := true;
    }

    /** A joiner's part, once the owner has finished: the owner's error, or its response if this
        caller's own validator takes it. */
    method FinishJoined(p: HostPolicy, host: Host, flight: Flight, accepted: bool) returns (outcome: Outcome)
      requires flight.finished
      modifies this`states
      ensures flight.error.Some? ==> outcome == Raised(flight.error.value) && states == old(states)
      ensures flight.error.None? && flight.response.None? ==> outcome == Raised(Internal) && states == old(states)
      ensures flight.error.None? && flight.response.Some? && accepted ==>
        outcome == Returned(flight.response.value) && states == old(states)
      ensures flight.error.None? && flight.response.Some? && !accepted ==>
        outcome == Raised(Contract) && states == old(states)[host := Apply(p, old(StateOf(host)), RecordNonRetryable)]
    {
      if flight.error.Some? {
        return Raised(flight.error.value);
      }
      if flight.response.None? {
        return Raised(Internal);
      }
      if !accepted {
        LowerProbe(p, host);
        return Raised(Contract);
      }
      return Returned(flight.response.value);
    }

    /** Forget a host: its state and every response cached for it, and nothing else. */
    method ResetHost(host: Host)
      requires Valid()
      modifies this`states, this`cache, this`cacheHosts
      ensures Valid()
      ensures states == old(states) - {host}
      ensures forall i :: i in cache <==> i in old(cache) && old(cacheHosts)[i] != host
      ensures forall i | i in cache :: cache[i] == old(cache)[i] && cacheHosts[i] == old(cacheHosts)[i]
    {
      states := states - {host};
      var stale := set i | i in cacheHosts && cacheHosts[i] == host;
      cache := cache - stale;
      cacheHosts := cacheHosts - stale;
    }
  }
}
