/**
 * How one attempt's reply is judged, and what the retry policy makes of it. These decisions look at
 * the reply and the policy alone; the state they lead to is in TransportHost.
 */
module TransportReplies {
  import opened Common
  import opened TransportHost

  datatype Category =
    | Network | Timeout | RateLimit | Permission | Challenge | HttpStatus | Contract | InvalidResponse
    | ResponseTooLarge | Configuration | EngineUnavailable | Internal | RetryAfterExceeded
    | BudgetExhausted | CircuitOpen | Interruption | Unclassified

  /** What the challenge detector says about a response, or that it raised. */
  datatype Screening = Clean | Challenged | DetectorFailed

  datatype Response = Response(status: int, screening: Screening, body: nat)

  /** An engine's answer to one send. `retryAfter` is the parsed header, in seconds. */
  datatype Reply =
    | Answered(response: Response, retryAfter: Option<real>)
    | Failed(category: Category, retryable: bool, status: Option<int>)
    | Broken(category: Category)
    | Interrupted

  /** What identifies a request: the digest of its normalized fields, taken to be injective. */
  type Identity = nat

  /** What a request ends with: a response, or a classified failure. */
  datatype Outcome = Returned(response: Response) | Raised(category: Category)

  datatype CacheEntry = CacheEntry(expires: real, response: Response)

  datatype Failure = Failure(category: Category, retryable: bool)

  function ResponseFailure(r: Response): Option<Failure> {
    if r.status == 401 || r.status == 403 then Some(Failure(Permission, false))
    else if r.screening == DetectorFailed then Some(Failure(Contract, false))
    else if r.screening == Challenged then Some(Failure(Challenge, false))
    else if r.status == 429 then Some(Failure(RateLimit, true))
    else if r.status == 408 then Some(Failure(Timeout, true))
    else if r.status >= 500 then Some(Failure(HttpStatus, true))
    else if r.status >= 400 then Some(Failure(HttpStatus, false))
    else None
  }

  /** An engine may claim a failure can be retried; the gateway believes it for four categories only. */
  function GovernEngineFailure(category: Category, retryable: bool, status: Option<int>): Failure {
    Failure(
      category,
      && retryable
      && (category == Network || category == Timeout || category == RateLimit || category == HttpStatus)
      && status != Some(401) && status != Some(403))
  }

  /** Status below 400 and not an access-control challenge. */
  predicate Usable(r: Response) { r.status < 400 && r.screening == Clean }

  datatype Decision =
    | Succeed(response: Response)
    | GiveUp(category: Category, countsAsFailure: bool)
    | Retry(wait: real)
    | Abandon

  /** Doubling with each attempt. */
  function Backoff(p: HostPolicy, attempt: nat): (r: real)
    ensures r >= 0.0
  {
    Max(0.0, p.retryBackoff) * Pow2(attempt) as real
  }

  function Retrying(p: HostPolicy, attempt: nat, f: Failure, retryAfter: Option<real>, draw: real): Decision {
    if f.retryable && attempt < p.maxRetries then
      if retryAfter.Some? then
        if Max(0.0, retryAfter.value) > p.maxRetryAfter then GiveUp(RetryAfterExceeded, true)
        else Retry(Max(0.0, retryAfter.value))
      else Retry(Backoff(p, attempt) + draw)
    else GiveUp(f.category, f.retryable)
  }

  function Decide(p: HostPolicy, attempt: nat, reply: Reply, accepted: bool, draw: real): Decision {
    match reply
    case Answered(r, retryAfter) =>
      (match ResponseFailure(r)
       case Some(f) => Retrying(p, attempt, f, retryAfter, draw)
       case None => if accepted then Succeed(r) else GiveUp(Contract, false))
    case Failed(category, retryable, status) =>
      Retrying(p, attempt, GovernEngineFailure(category, retryable, status), None, draw)
    case Broken(category) => GiveUp(category, false)
    case Interrupted => Abandon
  }

  /** A response survives the screening exactly when it is usable. */
  lemma NoFailureIffUsable(r: Response)
    ensures ResponseFailure(r).None? <==> Usable(r)
  {
  }

  /** A retry is decided only while retries are left. */
  lemma RetryIsInTime(p: HostPolicy, attempt: nat, reply: Reply, accepted: bool, draw: real)
    ensures Decide(p, attempt, reply, accepted, draw).Retry? ==> attempt < p.maxRetries
  {
  }

  /** A retry waits no longer than the largest Retry-After honoured, or than its backoff and draw. */
  lemma RetryWaitIsShort(p: HostPolicy, attempt: nat, reply: Reply, accepted: bool, draw: real)
    requires draw >= 0.0
    ensures
      var d := Decide(p, attempt, reply, accepted, draw);
      d.Retry? ==> 0.0 <= d.wait <= Max(0.0, p.maxRetryAfter) + Backoff(p, attempt) + draw
  {
  }

  /** A success is a usable answer that the caller's validator accepts. */
  lemma SuccessIsEarned(p: HostPolicy, attempt: nat, reply: Reply, accepted: bool, draw: real)
    ensures
      var d := Decide(p, attempt, reply, accepted, draw);
      d.Succeed? ==> reply.Answered? && reply.response == d.response && accepted && Usable(d.response)
  {
  }

  /** A failure worth another attempt: a screened answer that is a timeout, a rate limit or a server error,
      or an engine's claim in one of four categories that no refused permission contradicts. */
  ghost predicate IsTransient(reply: Reply) {
    match reply
    case Answered(r, _) => r.screening == Clean && (r.status == 408 || r.status == 429 || r.status >= 500)
    case Failed(category, claimed, status) =>
      claimed && category in {Network, Timeout, RateLimit, HttpStatus} && status !in {Some(401), Some(403)}
    case _ => false
  }

  /** A longer Retry-After than the policy honours. */
  ghost predicate AsksTooLong(p: HostPolicy, reply: Reply) {
    reply.Answered? && reply.retryAfter.Some? && Max(0.0, reply.retryAfter.value) > p.maxRetryAfter
  }

  /** A reply is retried exactly when it is transient, retries are left and it does not ask for too long;
      a failed request counts against the breaker exactly when its failure was transient. */
  lemma TransientFailuresAreRetried(p: HostPolicy, attempt: nat, reply: Reply, accepted: bool, draw: real)
    ensures
      var d := Decide(p, attempt, reply, accepted, draw);
      && (d.Retry? <==> IsTransient(reply) && attempt < p.maxRetries && !AsksTooLong(p, reply))
      && (d.GiveUp? ==> (d.countsAsFailure <==> IsTransient(reply)))
      && (d.Abandon? <==> reply.Interrupted?)
      && (d.Retry? ==> d.wait == (if reply.Answered? && reply.retryAfter.Some? then Max(0.0, reply.retryAfter.value)
                                  else Max(0.0, p.retryBackoff) * Pow2(attempt) as real + draw))
  {
  }

  /** What a reply means, from its own fields: the category of its failure, or none when it is usable. A refused
      permission comes before the screening, and the screening before every other status. */
  ghost predicate FailsAs(reply: Reply, category: Category) {
    match reply
    case Answered(Response(status, screening, _), _) =>
      (match category
       case Permission => status in {401, 403}
       case Contract => status !in {401, 403} && screening == DetectorFailed
       case Challenge => status !in {401, 403} && screening == Challenged
       case RateLimit => status == 429 && screening == Clean
       case Timeout => status == 408 && screening == Clean
       case HttpStatus => status >= 400 && status !in {401, 403, 408, 429} && screening == Clean
       case _ => false)
    case Failed(claimed, _, _) => category == claimed
    case Broken(raised) => category == raised
    case Interrupted => category == Interruption
  }

  /** Every reply that is not retried ends the request: a usable answer with itself or, when the caller's
      validator rejects it, as a broken contract; any other as what it failed for, unless it asked for a longer
      wait than is honoured while retries were left. */
  lemma RepliesEndAsTheyFail(p: HostPolicy, attempt: nat, reply: Reply, accepted: bool, draw: real)
    ensures
      var d := Decide(p, attempt, reply, accepted, draw);
      var usable := reply.Answered? && reply.response.status < 400 && reply.response.screening == Clean;
      && (usable && accepted ==> d == Succeed(reply.response))
      && (usable && !accepted ==> d == GiveUp(Contract, false))
      && (d.GiveUp? && !usable ==>
            if IsTransient(reply) && attempt < p.maxRetries then d.category == RetryAfterExceeded
            else FailsAs(reply, d.category))
  {
  }
}
