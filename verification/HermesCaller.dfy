/**
 * The scheduled caller of the full collection: one POST, one replay with the same key when its fate is not
 * known, then polling within a budget. The wire is an object that keeps the time and logs every exchange;
 * answers and durations come from an arbitrary world.
 */
module HermesCaller {
  import opened Common

  // ---------------------------------------------------------------- the slot key

  const SHANGHAI_OFFSET := 28800.0
  const DAY_SECONDS := 86400.0
  const CATCH_UP_DEADLINE := 57600.0

  /** The key of a Shanghai date's 15:30 slot. */
  datatype Key = Key(date: int)

  /** The Shanghai date of an instant in seconds since the epoch. */
  function ShanghaiDate(instant: real): int { ((instant + SHANGHAI_OFFSET) / DAY_SECONDS).Floor }

  function ShanghaiTime(instant: real): real { instant + SHANGHAI_OFFSET - ShanghaiDate(instant) as real * DAY_SECONDS }

  function ScheduleSlotKey(instant: real): Key { Key(ShanghaiDate(instant)) }

  /** Two instants have one key exactly when they fall in one Shanghai day; a time of day is within a day. */
  lemma OneKeyADay(a: real, b: real)
    ensures 0.0 <= ShanghaiTime(a) < DAY_SECONDS
    ensures ScheduleSlotKey(a) == ScheduleSlotKey(b) <==> a - ShanghaiTime(a) == b - ShanghaiTime(b)
  {
    var q := (a + SHANGHAI_OFFSET) / DAY_SECONDS;
    assert q.Floor as real <= q < q.Floor as real + 1.0;
    assert q * DAY_SECONDS == a + SHANGHAI_OFFSET;
  }

  // ---------------------------------------------------------------- exchanges

  datatype Payload = Payload(outcome: Option<string>, status: Option<string>, statusUrl: Option<string>)

  /** What becomes of a request: lost in transport, or answered, possibly without a mapping as its body. */
  datatype Answer = Lost | Answered(status: int, location: Option<string>, payload: Option<Payload>)

  datatype Request = Post(wait: int, key: Key, timeout: real) | Get(url: string, timeout: real)

  datatype Exchange = Exchange(request: Request, at: real, answer: Answer, back: real)

  /** Answers and durations by interaction number, and which status addresses are the backend's own. */
  datatype World = World(
    answer: nat -> Answer, took: (nat, Request) -> real, late: nat -> real, trusted: string -> Option<string>)
  {
    /** Time does not run backwards, and a sleep lasts at least as long as asked. */
    ghost predicate Forward() { (forall n: nat, r :: took(n, r) >= 0.0) && forall n: nat :: late(n) >= 0.0 }

    /** Sleeps are exact, and a request returns within its timeout. */
    ghost predicate Prompt() {
      (forall n: nat, r: Request :: took(n, r) <= r.timeout) && forall n: nat :: late(n) == 0.0
    }
  }

  const INITIAL_WAIT := 900
  const INITIAL_TIMEOUT := 930.0
  const REPLAY_TIMEOUT := 30.0
  const POLL_TIMEOUT := 30.0

  class Wire {
    const world: World
    var now: real
    var step: nat
    var log: seq<Exchange>

    constructor (world: World, now: real)
      ensures this.world == world && this.now == now && log == []
    {
      this.world, this.now, step, log := world, now, 0, [];
    }

    method Clock() returns (t: real)
      requires world.Forward()
      modifies this`now, this`step
      ensures t == old(now) <= now && (world.Prompt() ==> now == t)
    {
      t := now;
      now, step := now + world.late(step), step + 1;
    }

    method Sleep(d: real)
      requires world.Forward() && d >= 0.0
      modifies this`now, this`step
      ensures now >= old(now) + d && (world.Prompt() ==> now == old(now) + d)
    {
      now, step := now + d + world.late(step), step + 1;
    }

    method Send(request: Request) returns (answer: Answer)
      requires world.Forward()
      modifies this
      ensures now >= old(now) && (world.Prompt() ==> now <= old(now) + request.timeout)
      ensures log == old(log) + [Exchange(request, old(now), answer, now)]
    {
      answer := world.answer(step);
      log := log + [Exchange(request, now, answer, now + world.took(step, request))];
      now, step := now + world.took(step, request), step + 1;
    }
  }

  // ---------------------------------------------------------------- results

  datatype Kind = Skipped | Ran | StillRunning | EndpointError | Rejected | Unreachable

  /** The kind, the payload reported, whether the POST was replayed and whether a retry makes sense. */
  datatype Result = Result(kind: Kind, payload: Option<Payload>, replayed: bool, retryable: bool)

  datatype Outcome = Reported(result: Result) | Raised

  predicate IsTerminal(p: Payload) { p.status in {Some("success"), Some("partial"), Some("failed")} }

  /** A poll answered 200 with a mapping. */
  predicate IsGood(a: Answer) { a.Answered? && a.status == 200 && a.payload.Some? }

  predicate EndsRun(a: Answer) { IsGood(a) && IsTerminal(a.payload.value) }

  /** The payload of the last good poll, or the first one. */
  ghost function Latest(initial: Payload, polls: seq<Exchange>): Payload {
    if polls == [] then initial
    else if IsGood(polls[|polls| - 1].answer) then polls[|polls| - 1].answer.payload.value
    else Latest(initial, polls[..|polls| - 1])
  }

  /** What polling reports: the run when the last poll ended it, an error when the last poll failed, and
      otherwise that it is still running. */
  ghost function PollResult(initial: Payload, polls: seq<Exchange>, replayed: bool): Result {
    if polls == [] then Result(StillRunning, Some(initial), replayed, false)
    else
      var last := polls[|polls| - 1].answer;
      if EndsRun(last) then Result(Ran, last.payload, replayed, false)
      else if IsGood(last) then Result(StillRunning, last.payload, replayed, false)
      else Result(EndpointError, Some(Latest(initial, polls)), replayed, true)
  }

  /** Polls of one address, of which only the last can end the run. */
  ghost predicate ArePolls(polls: seq<Exchange>, url: string) {
    && (forall i | 0 <= i < |polls| :: polls[i].request == Get(url, POLL_TIMEOUT))
    && (forall i | 0 <= i < |polls| - 1 :: !EndsRun(polls[i].answer))
  }

  /** No more polls than intervals begin within the budget. */
  ghost predicate WithinBudget(polls: nat, budget: real, interval: real) {
    polls > 0 ==> (polls - 1) as real * interval < budget
  }

  // ---------------------------------------------------------------- polling

  lemma NextPoll(n: nat, interval: real)
    ensures (n + 1) as real * interval == n as real * interval + interval
  {
  }

  /** A budget that n intervals do not fill is at least n whole quotients. */
  lemma PollsAreFinite(n: nat, budget: real, interval: real)
    requires interval > 0.0 && n as real * interval < budget
    ensures n <= (budget / interval).Floor
  {
    var q := budget / interval;
    assert q * interval == budget;
    Divide(n as real, q, interval);
  }

  lemma Divide(a: real, b: real, c: real)
    requires c > 0.0 && a * c < b * c
    ensures a < b
  {
  }

  /** The contract of polling a run from one time on. */
  ghost predicate Polled(
    world: World, initial: Payload, statusUrl: string, replayed: bool, budget: real, interval: real,
                         started: real, polls: seq<Exchange>, ended: real, result: Result) {
    match world.trusted(statusUrl)
    case None => polls == [] && result == Result(EndpointError, Some(initial), replayed, false)
    case Some(url) =>
      && ArePolls(polls, url) && WithinBudget(|polls|, budget, interval)
      && result == PollResult(initial, polls, replayed)
      && (result.kind == Ran || ended >= started + budget)
      && (world.Prompt() ==>
            ended <= started + budget + POLL_TIMEOUT && forall e | e in polls :: e.at <= started + budget)
      && (world.Prompt() ==> AtIntervals(polls, started, started + budget, interval))
  }

  /** When the wait for a poll begins: at the start, or when the poll before has returned. */
  ghost function WaitsFrom(polls: seq<Exchange>, started: real, i: nat): real
    requires i <= |polls|
  {
    if i == 0 then started else polls[i - 1].back
  }

  /** Each poll is sent an interval after that, or at the deadline if that comes first. */
  ghost predicate AtIntervals(polls: seq<Exchange>, started: real, deadline: real, interval: real) {
    forall i | 0 <= i < |polls| ::
      var due := WaitsFrom(polls, started, i) + interval;
      polls[i].at == if due < deadline then due else deadline
  }

  /** One sleep, to the next interval or the deadline, and one GET. */
  method PollOnce(
    wire: Wire, url: string, deadline: real, interval: real) returns (answer: Answer, ghost exchange: Exchange)
    requires wire.world.Forward() && interval > 0.0
    modifies wire
    ensures wire.log == old(wire.log) + [exchange] && exchange.request == Get(url, POLL_TIMEOUT)
    ensures exchange.answer == answer
    ensures wire.now >= deadline || wire.now >= old(wire.now) + interval
    ensures wire.world.Prompt() && old(wire.now) <= deadline ==>
      exchange.at <= deadline && wire.now <= deadline + POLL_TIMEOUT
    ensures exchange.back == wire.now
    ensures wire.world.Prompt() && old(wire.now) <= deadline ==>
      exchange.at == if old(wire.now) + interval < deadline then old(wire.now) + interval else deadline
  {
    var before := wire.Clock();
    wire.Sleep(Min(interval, Max(0.0, deadline - before)));
    ghost var at := wire.now;
    answer := wire.Send(Get(url, POLL_TIMEOUT));
    exchange := Exchange(Get(url, POLL_TIMEOUT), at, answer, wire.now);
  }

  /** None of the polls so far ended the run, and `latest` and `failed` are as they left them. */
  ghost predicate StillPolling(initial: Payload, url: string, polls: seq<Exchange>, latest: Payload, failed: bool) {
    && ArePolls(polls, url)
    && (polls != [] ==> !EndsRun(polls[|polls| - 1].answer))
    && latest == Latest(initial, polls)
    && (failed <==> polls != [] && !IsGood(polls[|polls| - 1].answer))
  }

  lemma OnePollMore(initial: Payload, url: string, polls: seq<Exchange>, latest: Payload, failed: bool, e: Exchange)
    requires StillPolling(initial, url, polls, latest, failed) && e.request == Get(url, POLL_TIMEOUT)
    ensures ArePolls(polls + [e], url)
    ensures Latest(initial, polls + [e]) == if IsGood(e.answer) then e.answer.payload.value else latest
  {
    assert (polls + [e])[..|polls|] == polls;
  }

  /** The time, after some polls: later than as many intervals, or the budget is spent. */
  ghost predicate OnTime(now: real, started: real, budget: real, interval: real, polls: nat) {
    (now >= started + budget || now >= started + polls as real * interval) && WithinBudget(polls, budget, interval)
  }

  lemma OneIntervalMore(before: real, after: real, started: real, budget: real, interval: real, polls: nat)
    requires OnTime(before, started, budget, interval, polls) && before < started + budget
    requires after >= started + budget || after >= before + interval
    ensures OnTime(after, started, budget, interval, polls + 1)
  {
    NextPoll(polls, interval);
  }

  /** Before the deadline there are fewer polls than fill the budget. */
  lemma PollsGoOn(now: real, started: real, budget: real, interval: real, polls: nat)
    requires OnTime(now, started, budget, interval, polls) && now < started + budget && interval > 0.0
    ensures polls <= (budget / interval).Floor
  {
    PollsAreFinite(polls, budget, interval);
  }

  /** Polls sent by a deadline when the world keeps its times. */
  ghost predicate InTime(world: World, deadline: real, polls: seq<Exchange>, now: real) {
    world.Prompt() ==> now <= deadline + POLL_TIMEOUT && forall e | e in polls :: e.at <= deadline
  }

  /** The state of the polling loop. */
  ghost predicate Polling(world: World, initial: Payload, url: string, budget: real, interval: real, started: real,
                          polls: seq<Exchange>, now: real, latest: Payload, failed: bool) {
    && StillPolling(initial, url, polls, latest, failed)
    && OnTime(now, started, budget, interval, |polls|)
    && InTime(world, started + budget, polls, now)
  }

  /** The polls so far were sent at their intervals, and nothing has taken time since. */
  ghost predicate OnSchedule(
    world: World, started: real, deadline: real, interval: real, polls: seq<Exchange>, now: real) {
    world.Prompt() ==> AtIntervals(polls, started, deadline, interval) && now == WaitsFrom(polls, started, |polls|)
  }

  lemma PollKeepsSchedule(world: World, started: real, deadline: real, interval: real, polls: seq<Exchange>,
                          before: real, e: Exchange)
    requires OnSchedule(world, started, deadline, interval, polls, before)
    requires world.Prompt() ==> e.at == if before + interval < deadline then before + interval else deadline
    ensures OnSchedule(world, started, deadline, interval, polls + [e], e.back)
  {
    if world.Prompt() {
      forall i | 0 <= i < |polls| + 1
        ensures WaitsFrom(polls + [e], started, i) == WaitsFrom(polls, started, i)
      {}
    }
  }

  /** One poll before the deadline keeps it, unless the poll ends the run; then the run is reported. */
  lemma PollIsTaken(world: World, initial: Payload, url: string, budget: real, interval: real, started: real,
                    polls: seq<Exchange>, before: real, latest: Payload, failed: bool, e: Exchange, now: real)
    requires Polling(world, initial, url, budget, interval, started, polls, before, latest, failed)
    requires before < started + budget && e.request == Get(url, POLL_TIMEOUT)
    requires now >= started + budget || now >= before + interval
    requires world.Prompt() ==> e.at <= started + budget && now <= started + budget + POLL_TIMEOUT
    ensures
      var more := polls + [e];
      var reached := if IsGood(e.answer) then e.answer.payload.value else latest;
      && ArePolls(more, url) && WithinBudget(|more|, budget, interval)
      && InTime(world, started + budget, more, now)
      && (!EndsRun(e.answer) ==>
          Polling(world, initial, url, budget, interval, started, more, now, reached, !IsGood(e.answer)))
  {
    OneIntervalMore(before, now, started, budget, interval, |polls|);
    OnePollMore(initial, url, polls, latest, failed, e);
  }

  /** Sleep and ask, until the run has ended or the budget is spent. */
  method PollRun(wire: Wire, initial: Payload, statusUrl: string, replayed: bool, budget: real, interval: real)
    returns (result: Result, ghost polls: seq<Exchange>)
    requires wire.world.Forward() && budget >= 0.0 && interval > 0.0
    modifies wire
    ensures wire.log == old(wire.log) + polls
    ensures Polled(wire.world, initial, statusUrl, replayed, budget, interval, old(wire.now), polls, wire.now, result)
  {
    polls := [];
    var absolute := wire.world.trusted(statusUrl);
    if absolute.None? {
      return Result(EndpointError, Some(initial), replayed, false), polls;
    }
    var url := absolute.value;
    ghost var started := wire.now;
    var latest, failed := initial, false;
    var begun := wire.Clock();
    var deadline := begun + budget;
    while true
      invariant deadline == started + budget && wire.log == old(wire.log) + polls
      invariant Polling(wire.world, initial, url, budget, interval, started, polls, wire.now, latest, failed)
      invariant OnSchedule(wire.world, started, deadline, interval, polls, wire.now)
      decreases (budget / interval).Floor + 1 - |polls|
    {
      ghost var before := wire.now;
      var checked := wire.Clock();
      if checked >= deadline {
        break;
      }
      PollsGoOn(before, started, budget, interval, |polls|);
      var answer;
      ghost var exchange;
      answer, exchange := PollOnce(wire, url, deadline, interval);
      PollIsTaken(wire.world, initial, url, budget, interval, started, polls, before, latest, failed, exchange,
          wire.now);
      PollKeepsSchedule(wire.world, started, deadline, interval, polls, before, exchange);
      polls := polls + [exchange];
      failed := !IsGood(answer);
      if !failed {
        latest := answer.payload.value;
        if IsTerminal(latest) {
          return Result(Ran, Some(latest), replayed, false), polls;
        }
      }
    }
    result :=
      if failed then Result(EndpointError, Some(latest), replayed, true)
      else Result(StillRunning, Some(latest), replayed, false);
  }

  // ---------------------------------------------------------------- the POST's response

  predicate IsSkipped(p: Payload) { p.outcome == Some("skipped") || p.status == Some("skipped") }

  /** The status address: the payload's own, or the one of the location header. */
  function StatusUrl(p: Payload, location: Option<string>): Option<string> {
    if p.statusUrl.Some? then p.statusUrl else location
  }

  /** Accepted but not finished, and the caller is told where to ask. */
  predicate IsPollable(a: Answer) {
    a.Answered? && a.status == 202 && a.payload.Some? && !IsSkipped(a.payload.value)
      && StatusUrl(a.payload.value, a.location).Some?
  }

  /** The report on any other response. */
  function Direct(a: Answer, replayed: bool): Result
    requires a.Answered?
  {
    if a.status in {200, 202} && a.payload.Some? then
      if IsSkipped(a.payload.value) then Result(Skipped, a.payload, replayed, false)
      else if a.status == 200 then Result(Ran, a.payload, replayed, false)
      else Result(EndpointError, a.payload, replayed, false)
    else
      Result(if a.status in {400, 403, 409, 422} then Rejected else EndpointError, a.payload, replayed,
          a.status == 429 || a.status >= 500)
  }

  ghost predicate Handled(world: World, a: Answer, replayed: bool, budget: real, interval: real,
                          started: real, polls: seq<Exchange>, ended: real, result: Result)
    requires a.Answered?
  {
    if IsPollable(a) then
      Polled(world, a.payload.value, StatusUrl(a.payload.value, a.location).value, replayed, budget, interval, started,
          polls, ended, result)
    else polls == [] && result == Direct(a, replayed)
  }

  method HandlePostResponse(wire: Wire, a: Answer, replayed: bool, budget: real, interval: real)
    returns (result: Result, ghost polls: seq<Exchange>)
    requires wire.world.Forward() && budget >= 0.0 && interval > 0.0 && a.Answered?
    modifies wire
    ensures wire.log == old(wire.log) + polls
    ensures Handled(wire.world, a, replayed, budget, interval, old(wire.now), polls, wire.now, result)
  {
    polls := [];
    if a.status in {200, 202} && a.payload.Some? {
      var payload := a.payload.value;
      if IsSkipped(payload) {
        return Result(Skipped, a.payload, replayed, false), polls;
      }
      if a.status == 200 {
        return Result(Ran, a.payload, replayed, false), polls;
      }
      var statusUrl := StatusUrl(payload, a.location);
      if statusUrl.None? {
        return Result(EndpointError, a.payload, replayed, false), polls;
      }
      result, polls := PollRun(wire, payload, statusUrl.value, replayed, budget, interval);
    } else {
      var kind := if a.status in {400, 403, 409, 422} then Rejected else EndpointError;
      result := Result(kind, a.payload, replayed, a.status == 429 || a.status >= 500);
    }
  }

  // ---------------------------------------------------------------- the run

  function FirstPost(key: Key): Request { Post(INITIAL_WAIT, key, INITIAL_TIMEOUT) }

  function Replay(key: Key): Request { Post(0, key, REPLAY_TIMEOUT) }

  /** The protocol of one run, over what it sent: nothing after the catch-up deadline; otherwise one POST, a
      replay only when that was lost, and polls only of a run the backend accepted and has not finished. */
  ghost predicate Protocol(
    world: World, instant: real, budget: real, interval: real, sent: seq<Exchange>, ended: real, outcome: Outcome) {
    if ShanghaiTime(instant) > CATCH_UP_DEADLINE then
      sent == [] && outcome == Reported(Result(Skipped, None, false, false))
    else if budget < 0.0 || interval <= 0.0 then sent == [] && outcome == Raised
    else
      && outcome.Reported? && sent != [] && sent[0].request == FirstPost(ScheduleSlotKey(instant))
      && var replayed := sent[0].answer.Lost?;
         var posts := if replayed then 2 else 1;
         && |sent| >= posts && (replayed ==> sent[1].request == Replay(ScheduleSlotKey(instant)))
         && var answer, polls := sent[posts - 1].answer, sent[posts..];
            if answer.Lost? then polls == [] && outcome.result == Result(Unreachable, None, true, true)
            else Handled(world, answer, replayed, budget, interval, sent[posts - 1].back, polls, ended, outcome.result)
  }

  method Run(
    wire: Wire, instant: real, budget: real, interval: real) returns (outcome: Outcome, ghost sent: seq<Exchange>)
    requires wire.world.Forward()
    modifies wire
    ensures wire.log == old(wire.log) + sent
    ensures Protocol(wire.world, instant, budget, interval, sent, wire.now, outcome)
  {
    sent := [];
    var key := ScheduleSlotKey(instant);
    if ShanghaiTime(instant) > CATCH_UP_DEADLINE {
      return Reported(Result(Skipped, None, false, false)), sent;
    }
    if budget < 0.0 || interval <= 0.0 {
      return Raised, sent;
    }
    ghost var at := wire.now;
    var answer := wire.Send(FirstPost(key));
    sent := [Exchange(FirstPost(key), at, answer, wire.now)];
    var replayed := false;
    if answer.Lost? {
      replayed := true;
      at := wire.now;
      answer := wire.Send(Replay(key));
      sent := sent + [Exchange(Replay(key), at, answer, wire.now)];
      if answer.Lost? {
        return Reported(Result(Unreachable, None, true, true)), sent;
      }
    }
    var result;
    ghost var posted, polls := sent, [];
    result, polls := HandlePostResponse(wire, answer, replayed, budget, interval);
    sent := posted + polls;
    assert sent[|posted|..] == polls && sent[..|posted|] == posted;
    outcome := Reported(result);
  }

  // ---------------------------------------------------------------- what the protocol amounts to

  ghost function Posts(sent: seq<Exchange>): nat {
    if sent == [] then 0 else (if sent[0].request.Post? then 1 else 0) + Posts(sent[1..])
  }

  /** Some POSTs and then none. */
  lemma {:induction false} PostsComeFirst(sent: seq<Exchange>, posts: nat)
    requires posts <= |sent| && forall i | 0 <= i < |sent| :: sent[i].request.Post? <==> i < posts
    ensures Posts(sent) == posts
  {
    if sent != [] { PostsComeFirst(sent[1..], if posts > 0 then posts - 1 else 0); }
  }

  lemma PollsAreGets(world: World, a: Answer, replayed: bool, budget: real, interval: real, started: real,
                     polls: seq<Exchange>, ended: real, result: Result)
    requires a.Answered? && Handled(world, a, replayed, budget, interval, started, polls, ended, result)
    ensures (forall e | e in polls :: e.request.Get?) && WithinBudget(|polls|, budget, interval)
    ensures polls != [] ==> IsPollable(a)
  {
  }

  /** How many POSTs a run that sends anything makes. */
  ghost function PostsMade(sent: seq<Exchange>): nat { if sent == [] then 0 else if sent[0].answer.Lost? then 2 else 1 }

  lemma PollsFollowPosts(
    world: World, instant: real, budget: real, interval: real, sent: seq<Exchange>, ended: real, outcome: Outcome)
    requires Protocol(world, instant, budget, interval, sent, ended, outcome)
    ensures PostsMade(sent) <= |sent| && WithinBudget(|sent| - PostsMade(sent), budget, interval)
    ensures forall e | e in sent[PostsMade(sent)..] :: e.request.Get?
  {
    var posts := PostsMade(sent);
    if sent != [] && sent[posts - 1].answer.Answered? {
      PollsAreGets(world, sent[posts - 1].answer, posts == 2, budget, interval, sent[posts - 1].back, sent[posts..],
          ended, outcome.result);
    }
  }

  lemma PostsAreKeyed(
    world: World, instant: real, budget: real, interval: real, sent: seq<Exchange>, ended: real, outcome: Outcome)
    requires Protocol(world, instant, budget, interval, sent, ended, outcome)
    ensures PostsMade(sent) <= |sent|
    ensures forall i | 0 <= i < PostsMade(sent) ::
      sent[i].request.Post? && sent[i].request.key == ScheduleSlotKey(instant)
  {
  }

  /** Some POSTs with one key, and then GETs only. */
  ghost predicate PostsThenGets(sent: seq<Exchange>, posts: nat, key: Key) {
    && posts <= |sent|
    && (forall i | 0 <= i < posts :: sent[i].request.Post? && sent[i].request.key == key)
    && (forall e | e in sent[posts..] :: e.request.Get?)
  }

  lemma RunsPostThenGet(
    world: World, instant: real, budget: real, interval: real, sent: seq<Exchange>, ended: real, outcome: Outcome)
    requires Protocol(world, instant, budget, interval, sent, ended, outcome)
    ensures PostsThenGets(sent, PostsMade(sent), ScheduleSlotKey(instant))
    ensures WithinBudget(|sent| - PostsMade(sent), budget, interval)
  {
    PollsFollowPosts(world, instant, budget, interval, sent, ended, outcome);
    PostsAreKeyed(world, instant, budget, interval, sent, ended, outcome);
  }

  /** At most two POSTs, both with the key of the Shanghai date; the second exactly when the first was lost in
      transport; the rest are GETs, no more than intervals begin within the budget. */
  lemma PostsAreBounded(
    world: World, instant: real, budget: real, interval: real, sent: seq<Exchange>, ended: real, outcome: Outcome)
    requires Protocol(world, instant, budget, interval, sent, ended, outcome)
    ensures Posts(sent) <= 2 && (Posts(sent) == 2 <==> sent != [] && sent[0].answer.Lost?)
    ensures forall e | e in sent && e.request.Post? :: e.request.key == ScheduleSlotKey(instant)
    ensures WithinBudget(|sent| - Posts(sent), budget, interval)
  {
    RunsPostThenGet(world, instant, budget, interval, sent, ended, outcome);
    KeyedPostsThenGets(sent, PostsMade(sent), ScheduleSlotKey(instant));
  }

  lemma KeyedPostsThenGets(sent: seq<Exchange>, posts: nat, key: Key)
    requires PostsThenGets(sent, posts, key)
    ensures Posts(sent) == posts && forall e | e in sent && e.request.Post? :: e.request.key == key
  {
    forall i | 0 <= i < |sent| ensures sent[i].request.Post? <==> i < posts {
      if i >= posts { assert sent[i] == sent[posts..][i - posts]; }
    }
    PostsComeFirst(sent, posts);
  }

  /** A run after the catch-up deadline sends nothing, and a result says whether the POST was replayed. */
  lemma ReplaysAreTold(
    world: World, instant: real, budget: real, interval: real, sent: seq<Exchange>, ended: real, outcome: Outcome)
    requires Protocol(world, instant, budget, interval, sent, ended, outcome)
    ensures ShanghaiTime(instant) > CATCH_UP_DEADLINE ==> sent == []
    ensures outcome.Reported? ==> (outcome.result.replayed <==> PostsMade(sent) == 2)
  {
  }

  ghost predicate TellsOfRun(e: Exchange) {
    IsGood(e.answer)
      && if e.request.Post? then !IsSkipped(e.answer.payload.value) else IsTerminal(e.answer.payload.value)
  }

  /** A run is reported exactly when the backend answered 200 with a run: to the POST, not skipped, or as the
      last poll, ended. */
  lemma ReportedRunsAreReal(
    world: World, instant: real, budget: real, interval: real, sent: seq<Exchange>, ended: real, outcome: Outcome)
    requires Protocol(world, instant, budget, interval, sent, ended, outcome) && outcome.Reported?
    ensures outcome.result.kind == Ran <==> sent != [] && TellsOfRun(sent[|sent| - 1])
    ensures outcome.result.kind == Ran ==> outcome.result.payload == sent[|sent| - 1].answer.payload
  {
    if sent != [] {
      var posts := if sent[0].answer.Lost? then 2 else 1;
      var polls := sent[posts..];
      if polls != [] { assert polls[|polls| - 1] == sent[|sent| - 1]; }
    }
  }

  /** With exact sleeps and timeouts kept, polling ends by the deadline and one GET's timeout. */
  lemma PollingEndsInTime(
    world: World, instant: real, budget: real, interval: real, sent: seq<Exchange>, ended: real, outcome: Outcome)
    requires Protocol(world, instant, budget, interval, sent, ended, outcome) && world.Prompt()
    requires sent != [] && sent[|sent| - 1].request.Get?
    ensures var posts := PostsMade(sent);
      1 <= posts <= |sent| && ended <= sent[posts - 1].back + budget + POLL_TIMEOUT
  {
    PostsAreKeyed(world, instant, budget, interval, sent, ended, outcome);
  }

  /** And each poll is sent an interval after the answer before it came back, the last one at the deadline if
      that is sooner. */
  lemma PollsAreSpaced(
    world: World, instant: real, budget: real, interval: real, sent: seq<Exchange>, ended: real, outcome: Outcome)
    requires Protocol(world, instant, budget, interval, sent, ended, outcome) && world.Prompt() && sent != []
    ensures
      var n := PostsMade(sent);
      && 1 <= n <= |sent|
      && forall i | n <= i < |sent| ::
           var due, deadline := sent[i - 1].back + interval, sent[n - 1].back + budget;
           sent[i].at == if due < deadline then due else deadline
  {
    var n := PostsMade(sent);
    PostsAreKeyed(world, instant, budget, interval, sent, ended, outcome);
    var polls := sent[n..];
    forall i | n <= i < |sent|
      ensures
        var due, deadline := sent[i - 1].back + interval, sent[n - 1].back + budget;
        sent[i].at == if due < deadline then due else deadline
    {
      assert polls[i - n] == sent[i];
      assert WaitsFrom(polls, sent[n - 1].back, i - n) == sent[i - 1].back;
    }
  }

  /** The instant lies this many seconds into this Shanghai day, counted from the first of January 1970. */
  ghost predicate FallsOn(instant: real, day: int, seconds: real) {
    instant == day as real * 86400.0 - 28800.0 + seconds && 0.0 <= seconds < 86400.0
  }

  /** By four in the afternoon a run with a sound budget starts with the POST of its Shanghai day; later it sends
      nothing and says it was skipped. */
  lemma RunsUntilFour(world: World, instant: real, budget: real, interval: real, sent: seq<Exchange>, ended: real,
                      outcome: Outcome, day: int, seconds: real)
    requires Protocol(world, instant, budget, interval, sent, ended, outcome) && FallsOn(instant, day, seconds)
    ensures sent != [] <==> seconds <= 16.0 * 3600.0 && budget >= 0.0 && interval > 0.0
    ensures sent != [] ==> sent[0].request == Post(900, Key(day), 930.0)
    ensures seconds > 16.0 * 3600.0 ==> outcome == Reported(Result(Skipped, None, false, false))
  {
    DateOfInstant(instant, day, seconds);
  }

  lemma DateOfInstant(instant: real, day: int, seconds: real)
    requires FallsOn(instant, day, seconds)
    ensures ShanghaiDate(instant) == day && ShanghaiTime(instant) == seconds
  {
    var q := (instant + SHANGHAI_OFFSET) / DAY_SECONDS;
    assert q * DAY_SECONDS == day as real * DAY_SECONDS + seconds;
    assert day as real <= q < day as real + 1.0;
  }

  /** The answer is a mapping that says the run was skipped. */
  ghost predicate SaysSkipped(a: Answer) {
    && a.Answered? && a.status in {200, 202} && a.payload.Some?
    && (a.payload.value.outcome == Some("skipped") || a.payload.value.status == Some("skipped"))
  }

  /** The answer is a run that the backend has accepted and not finished. */
  ghost predicate SaysAccepted(a: Answer) { a.Answered? && a.status == 202 && a.payload.Some? && !SaysSkipped(a) }

  /** Where an accepted run can be asked for: at the address in its payload, else in its header, if that is the
      backend's own. */
  ghost function AddressOf(world: World, a: Answer): Option<string>
    requires SaysAccepted(a)
  {
    var own := a.payload.value.statusUrl;
    if own.Some? then world.trusted(own.value)
    else if a.location.Some? then world.trusted(a.location.value)
    else None
  }

  /** What a run that sends anything reports, from the answer to its last POST and that to its last poll. */
  ghost predicate ReportFollows(world: World, a: Answer, polls: seq<Exchange>, r: Result) {
    && (r.kind == Unreachable <==> a.Lost?)
    && (r.kind == Skipped <==> SaysSkipped(a))
    && (r.kind == Rejected <==> a.Answered? && a.status in {400, 403, 409, 422})
    && (r.kind == StillRunning <==>
          SaysAccepted(a) && AddressOf(world, a).Some? && (polls == [] || StillGoing(polls[|polls| - 1].answer)))
    && (r.kind == Ran <==> r.kind !in {Unreachable, Skipped, Rejected, StillRunning, EndpointError})
    && (r.kind == EndpointError <==>
          if SaysAccepted(a) && AddressOf(world, a).Some? then polls != [] && Fails(polls[|polls| - 1].answer)
          else
            a.Answered? && !SaysSkipped(a) && a.status !in {400, 403, 409, 422}
            && !(a.status == 200 && a.payload.Some?))
    && (polls != [] ==> SaysAccepted(a) && AddressOf(world, a).Some?)
    && (r.retryable <==>
          || a.Lost?
          || (polls != [] && Fails(polls[|polls| - 1].answer))
          || (polls == [] && a.Answered? && (a.status == 429 || a.status >= 500)))
  }

  /** A poll answered with a run that has not ended; and one not answered with a run. */
  ghost predicate StillGoing(a: Answer) {
    a.Answered? && a.status == 200 && a.payload.Some?
    && a.payload.value.status !in {Some("success"), Some("partial"), Some("failed")}
  }

  ghost predicate Fails(a: Answer) { !(a.Answered? && a.status == 200 && a.payload.Some?) }

  /** The last poll that was answered with a run, if any was. */
  ghost predicate IsNewest(polls: seq<Exchange>, k: nat) {
    k < |polls| && !Fails(polls[k].answer) && forall j | k < j < |polls| :: Fails(polls[j].answer)
  }

  lemma {:induction false} LatestIsNewest(initial: Payload, polls: seq<Exchange>)
    ensures forall k: nat | IsNewest(polls, k) :: Latest(initial, polls) == polls[k].answer.payload.value
    ensures (forall k | 0 <= k < |polls| :: Fails(polls[k].answer)) ==> Latest(initial, polls) == initial
  {
    if polls != [] {
      var n := |polls| - 1;
      LatestIsNewest(initial, polls[..n]);
      forall k: nat | IsNewest(polls, k) ensures Latest(initial, polls) == polls[k].answer.payload.value {
        if k < n {
          assert Fails(polls[n].answer);
          assert IsNewest(polls[..n], k);
        }
      }
    }
  }

  /** The report carries the newest run that was answered. */
  lemma ReportsCarryNewest(
    world: World, instant: real, budget: real, interval: real, sent: seq<Exchange>, ended: real, outcome: Outcome)
    requires Protocol(world, instant, budget, interval, sent, ended, outcome) && sent != []
    ensures
      var n := PostsMade(sent);
      && outcome.Reported? && 1 <= n <= |sent|
      && (forall k: nat | IsNewest(sent[n..], k) :: outcome.result.payload == sent[n..][k].answer.payload)
      && ((forall k | n <= k < |sent| :: Fails(sent[k].answer)) ==>
            outcome.result.payload == if sent[n - 1].answer.Lost? then None else sent[n - 1].answer.payload)
  {
    var n := PostsMade(sent);
    var polls := sent[n..];
    forall i | n <= i < |sent| ensures sent[i] == polls[i - n] {}
    if polls != [] { LatestIsNewest(sent[n - 1].answer.payload.value, polls); }
  }

  /** Every report follows from the answers, and every poll goes to the run's own address. */
  lemma ReportsFollowAnswers(
    world: World, instant: real, budget: real, interval: real, sent: seq<Exchange>, ended: real, outcome: Outcome)
    requires Protocol(world, instant, budget, interval, sent, ended, outcome) && sent != []
    ensures
      var n := PostsMade(sent);
      && outcome.Reported? && 1 <= n <= |sent|
      && ReportFollows(world, sent[n - 1].answer, sent[n..], outcome.result)
      && forall i | n <= i < |sent| ::
           && SaysAccepted(sent[n - 1].answer)
           && AddressOf(world, sent[n - 1].answer) == Some(sent[i].request.url) && sent[i].request.Get?
  {
    var n := PostsMade(sent);
    var polls := sent[n..];
    forall i | n <= i < |sent| ensures sent[i] == polls[i - n] {}
  }
}
