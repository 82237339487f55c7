/**
 * How a whole request ends, from the world it meets: which attempts go through, which of their replies are
 * retried, and what the first attempt that is not retried makes of the request.
 */
module TransportRequests {
  import opened Common
  import opened TransportHost
  import opened TransportReplies
  import opened TransportGateway

  /** Where a call stands before an attempt: whether it owns the probe, and its host's state. */
  datatype Stage = Stage(owner: bool, state: HostState)

  /** The host when an attempt asks for its slot, when it has slept for it, and when its reply has come. */
  ghost function Asked(p: HostPolicy, a: Attempt, b: Stage): HostState { Run(p, b.state, a.othersBefore) }

  ghost function Woken(p: HostPolicy, gated: bool, a: Attempt, b: Stage): HostState {
    Run(p, Apply(p, Asked(p, a, b), TakeSlot(a.slotClock, gated, a.slotDraw, b.owner)), a.othersAsleep)
  }

  ghost function Replied(p: HostPolicy, gated: bool, a: Attempt, b: Stage): HostState {
    Run(p, Apply(p, Woken(p, gated, a, b), Authorize(a.budgetClock)), a.othersSending)
  }

  /** Where it stands before attempt k, when every earlier attempt was sent and retried. */
  ghost function StageBefore(p: HostPolicy, gated: bool, env: nat -> Attempt, s: HostState, k: nat): Stage {
    if k == 0 then Stage(false, s)
    else
      var a, b := env(k - 1), StageBefore(p, gated, env, s, k - 1);
      Stage(b.owner || Woken(p, gated, a, b).openUntil != 0.0, Replied(p, gated, a, b))
  }

  /** The breaker lets the attempt through: the call is the probe, or the breaker is closed, or it is half open
      and nobody probes. */
  ghost predicate GetsSlot(p: HostPolicy, a: Attempt, b: Stage) {
    var asked := Asked(p, a, b);
    b.owner || (asked.openUntil <= a.slotClock && (asked.openUntil == 0.0 || !asked.probeInFlight))
  }

  /** Fewer requests than the budget were charged in the running window, if one runs. */
  ghost predicate FitsBudget(p: HostPolicy, gated: bool, a: Attempt, b: Stage) {
    var woken := Woken(p, gated, a, b);
    if woken.budgetStartedAt.Some? && a.budgetClock - woken.budgetStartedAt.value < p.budgetWindow
    then woken.requestsUsed < p.requestBudget
    else p.requestBudget >= 1
  }

  /** The attempt reaches its engine. */
  ghost predicate IsSent(p: HostPolicy, gated: bool, a: Attempt, b: Stage) {
    GetsSlot(p, a, b) && a.wakes && FitsBudget(p, gated, a, b)
  }

  /** The attempt's reply is worth another attempt, and one is left. */
  ghost predicate AsksAgain(p: HostPolicy, attempt: nat, reply: Reply) {
    IsTransient(reply) && attempt < p.maxRetries && !AsksTooLong(p, reply)
  }

  /** Attempt k is sent and followed by another. */
  ghost predicate IsRetried(p: HostPolicy, gated: bool, env: nat -> Attempt, s: HostState, k: nat) {
    IsSent(p, gated, env(k), StageBefore(p, gated, env, s, k)) && AsksAgain(p, k, env(k).reply) && env(k).backsOff
  }

  /** Attempt n is the first that is not followed by another. */
  ghost predicate IsLast(p: HostPolicy, gated: bool, env: nat -> Attempt, s: HostState, n: nat) {
    && n <= p.maxRetries && !IsRetried(p, gated, env, s, n)
    && forall i: nat | i < n :: IsRetried(p, gated, env, s, i)
  }

  lemma AttemptGoesAsSent(p: HostPolicy, gated: bool, attempt: nat, a: Attempt, b: Stage)
    ensures
      var r := AttemptOn(p, gated, attempt, a, b.owner, b.state);
      var d := Decide(p, attempt, a.reply, a.accepted, a.backoffDraw);
      if !GetsSlot(p, a, b) then r.end == Refused
      else if !a.wakes then r.end == CutShort(None)
      else if !FitsBudget(p, gated, a, b) then r.end == OverBudget
      else if AsksAgain(p, attempt, a.reply) && !a.backsOff then d.Retry? && r.end == CutShort(Some(d.wait))
      else r.end == Judged(d) && (d.Retry? <==> AsksAgain(p, attempt, a.reply))
    ensures
      IsSent(p, gated, a, b) && AsksAgain(p, attempt, a.reply) && a.backsOff ==>
        var r := AttemptOn(p, gated, attempt, a, b.owner, b.state);
        Stage(r.owner, r.state) == Stage(b.owner || Woken(p, gated, a, b).openUntil != 0.0, Replied(p, gated, a, b))
  {
    TransientFailuresAreRetried(p, attempt, a.reply, a.accepted, a.backoffDraw);
  }

  /** The step's attempt i goes on, from stage to stage. */
  ghost predicate GoesFrom(step: Step, stages: nat -> Stage, i: nat) {
    var r := step(i, stages(i).owner, stages(i).state);
    GoesOn(r.end) && stages(i + 1) == Stage(r.owner, r.state)
  }

  /** The loop is where the attempts that went on have brought it. */
  lemma {:induction false} LoopReaches(maxRetries: int, step: Step, stages: nat -> Stage, k: nat)
    returns (slept: real)
    requires k <= MaxInt(0, maxRetries) && forall i: nat | i < k :: GoesFrom(step, stages, i)
    ensures
      Loop(maxRetries, step, 0, 0.0, stages(0).owner, stages(0).state) ==
      Loop(maxRetries, step, k, slept, stages(k).owner, stages(k).state)
  {
    if k == 0 {
      slept := 0.0;
    } else {
      var earlier := LoopReaches(maxRetries, step, stages, k - 1);
      assert GoesFrom(step, stages, k - 1);
      var b := stages(k - 1);
      var r := step(k - 1, b.owner, b.state);
      LoopUnfolds(maxRetries, step, k - 1, earlier, b.owner, b.state, r);
      slept := earlier + AskedBy(r.end);
    }
  }

  lemma RetriedGoesOn(p: HostPolicy, gated: bool, env: nat -> Attempt, s: HostState, i: nat)
    requires IsRetried(p, gated, env, s, i)
    ensures
      var stages := (k: nat) => StageBefore(p, gated, env, s, k);
      GoesFrom(StepOf(p, gated, env), stages, i)
  {
    AttemptGoesAsSent(p, gated, i, env(i), StageBefore(p, gated, env, s, i));
  }

  /** Unless no attempt is allowed at all, some attempt is the last. */
  lemma {:induction false} SomeAttemptIsLast(
    p: HostPolicy, gated: bool, env: nat -> Attempt, s: HostState, from: nat) returns (n: nat)
    requires from <= p.maxRetries && forall i: nat | i < from :: IsRetried(p, gated, env, s, i)
    ensures IsLast(p, gated, env, s, n)
    decreases p.maxRetries - from
  {
    if IsRetried(p, gated, env, s, from) {
      n := SomeAttemptIsLast(p, gated, env, s, from + 1);
    } else {
      n := from;
    }
  }

  /** A request ends with its last attempt: refused by the breaker, interrupted in its sleep, over the budget,
      interrupted in its backoff, or as its reply is judged; it was sent once more than it was retried, if it
      was sent at all. */
  lemma RequestEndsWithLastAttempt(p: HostPolicy, gated: bool, env: nat -> Attempt, s: HostState, n: nat)
    requires IsLast(p, gated, env, s, n)
    ensures
      var r, a, b := LoopOn(p, gated, env, s), env(n), StageBefore(p, gated, env, s, n);
      && r.sends == n + (if IsSent(p, gated, a, b) then 1 else 0)
      && r.end == Classified(
           if !GetsSlot(p, a, b) then Raised(CircuitOpen)
           else if !a.wakes then Raised(Interruption)
           else if !FitsBudget(p, gated, a, b) then Raised(BudgetExhausted)
           else if AsksAgain(p, n, a.reply) then Raised(Interruption)
           else OutcomeOf(Decide(p, n, a.reply, a.accepted, a.backoffDraw)))
  {
    var stages := (k: nat) => StageBefore(p, gated, env, s, k);
    forall i: nat | i < n ensures GoesFrom(StepOf(p, gated, env), stages, i) { RetriedGoesOn(p, gated, env, s, i); }
    var slept := LoopReaches(p.maxRetries, StepOf(p, gated, env), stages, n);
    var a, b := env(n), StageBefore(p, gated, env, s, n);
    AttemptGoesAsSent(p, gated, n, a, b);
    LoopUnfolds(
      p.maxRetries, StepOf(p, gated, env), n, slept, b.owner, b.state,
      AttemptOn(p, gated, n, a, b.owner, b.state));
  }

  /** In a world that lets every attempt through and interrupts none, a request returns exactly the first answer
      that is not transient, when that one is usable and accepted, and raises what the first such reply, or the
      last one it may retry for, failed for. */
  lemma FirstLastingReplyDecides(p: HostPolicy, gated: bool, env: nat -> Attempt, s: HostState, n: nat)
    requires n <= p.maxRetries && !AsksAgain(p, n, env(n).reply)
    requires forall i: nat | i < n :: AsksAgain(p, i, env(i).reply) && env(i).backsOff
    requires forall i: nat | i <= n :: IsSent(p, gated, env(i), StageBefore(p, gated, env, s, i))
    ensures
      var r, a := LoopOn(p, gated, env, s), env(n);
      var usable := a.reply.Answered? && a.reply.response.status < 400 && a.reply.response.screening == Clean;
      && r.sends == n + 1 && r.end.Classified?
      && (forall response :: ResultOf(r.end) == Returned(response) <==>
            usable && a.accepted && response == a.reply.response)
      && (usable && !a.accepted ==> ResultOf(r.end) == Raised(Contract))
      && (!usable ==>
            && r.end.outcome.Raised?
            && if IsTransient(a.reply) && n < p.maxRetries then r.end.outcome.category == RetryAfterExceeded
               else FailsAs(a.reply, r.end.outcome.category))
  {
    RequestEndsWithLastAttempt(p, gated, env, s, n);
    RepliesEndAsTheyFail(p, n, env(n).reply, env(n).accepted, env(n).backoffDraw);
    TransientFailuresAreRetried(p, n, env(n).reply, env(n).accepted, env(n).backoffDraw);
  }
}
