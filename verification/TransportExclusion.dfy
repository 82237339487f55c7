/**
 * From which states a half-open host lets in one request at most, whatever happens next up to that request's
 * outcome; and what a stranded flag does to a host from then on.
 */
module TransportExclusion {
  import opened Common
  import opened TransportHost
  import opened TransportReplies
  import opened TransportRuns
  import opened TransportProbe

  /** No call that is inside leaves. */
  ghost predicate KeepsInsiders(s: System, t: System) {
    forall c | c in s.calls && Inside(s.calls[c]) :: c in t.calls && Inside(t.calls[c])
  }

  /** A stretch in which nobody resets the host or rejects a response for it, and no insider has its outcome. */
  ghost predicate IsStretch(p: HostPolicy, trace: seq<System>, events: seq<Event>) {
    && IsRun(p, trace, events)
    && forall i | 0 <= i < |events| ::
         LeavesBreakerAlone(p, trace[i], events[i]) && KeepsInsiders(trace[i], trace[i + 1])
  }

  /** A stretch leads from one state to the other. */
  ghost predicate Leads(p: HostPolicy, s: System, t: System) {
    exists trace: seq<System>, events: seq<Event> ::
      IsStretch(p, trace, events) && trace[0] == s && trace[|events|] == t
  }

  /** Whatever the stretch, it ends with at most one request inside. */
  ghost predicate AdmitsOneAtMost(p: HostPolicy, s: System) {
    forall t | Leads(p, s, t) :: AtMostOneInside(t)
  }

  // ---------------------------------------------------------------- enough

  ghost predicate NoCleanUpPends(s: System) { forall c | c in s.calls :: !CleanUpPends(s.calls[c]) }

  /** A pending clean-up begins with an insider that leaves. */
  lemma CleanUpComesFromInside(p: HostPolicy, s: System, e: Event)
    requires Enabled(s, e) && IsCallStep(e) && Placed(s.calls[e.id], |s.retired|) && !CleanUpPends(s.calls[e.id])
    requires s.host.openUntil != 0.0 && CleanUpPends(EffectOf(p, s, e).call)
    ensures Inside(s.calls[e.id]) && !Inside(EffectOf(p, s, e).call)
  {
  }

  lemma StretchStep(p: HostPolicy, s: System, e: Event)
    requires Exclusive(s) && NoCleanUpPends(s) && Enabled(s, e)
    requires LeavesBreakerAlone(p, s, e) && KeepsInsiders(s, After(p, s, e))
    ensures Exclusive(After(p, s, e)) && NoCleanUpPends(After(p, s, e))
  {
    var t := After(p, s, e);
    if IsCallStep(e) {
      assert Placed(s.calls[e.id], |s.retired|);
      InsiderStep(p, s, e);
      assert t.calls[e.id] == EffectOf(p, s, e).call;
      if CleanUpPends(t.calls[e.id]) { CleanUpComesFromInside(p, s, e); }
    }
    ExclusiveKept(p, s, e);
  }

  lemma {:induction false} StretchKeeps(p: HostPolicy, trace: seq<System>, events: seq<Event>, n: nat)
    requires IsStretch(p, trace, events) && n <= |events| && Exclusive(trace[0]) && NoCleanUpPends(trace[0])
    ensures Exclusive(trace[n]) && NoCleanUpPends(trace[n])
  {
    if n > 0 {
      StretchKeeps(p, trace, events, n - 1);
      var i := n - 1;
      assert Enabled(trace[i], events[i]) && trace[i + 1] == After(p, trace[i], events[i]);
      assert LeavesBreakerAlone(p, trace[i], events[i]) && KeepsInsiders(trace[i], trace[i + 1]);
      StretchStep(p, trace[i], events[i]);
    }
  }

  // ---------------------------------------------------------------- necessary

  lemma LeadsToItself(p: HostPolicy, s: System)
    ensures Leads(p, s, s)
  {
    var trace: seq<System>, events: seq<Event> := [s], [];
    assert IsStretch(p, trace, events) && trace[0] == s && trace[|events|] == s;
  }

  lemma LeadsOn(p: HostPolicy, s: System, t: System, e: Event)
    requires Leads(p, s, t) && Enabled(t, e) && LeavesBreakerAlone(p, t, e) && KeepsInsiders(t, After(p, t, e))
    ensures Leads(p, s, After(p, t, e))
  {
    var trace: seq<System>, events: seq<Event> :| IsStretch(p, trace, events) && trace[0] == s && trace[|events|] == t;
    var longer, more := trace + [After(p, t, e)], events + [e];
    forall i | 0 <= i < |more|
      ensures Enabled(longer[i], more[i]) && longer[i + 1] == After(p, longer[i], more[i])
      ensures LeavesBreakerAlone(p, longer[i], more[i]) && KeepsInsiders(longer[i], longer[i + 1])
    {
      if i < |events| { assert longer[i] == trace[i] && longer[i + 1] == trace[i + 1] && more[i] == events[i]; }
    }
    assert IsStretch(p, longer, more) && longer[0] == s && longer[|more|] == After(p, t, e);
  }

  lemma FreshId(ids: set<nat>) returns (id: nat)
    ensures id !in ids
  {
    id := 0;
    var below: set<nat> := {};
    while id in ids
      invariant below <= ids && forall n: nat :: n in below <==> n < id
      decreases ids - below
    {
      below := below + {id};
      id := id + 1;
    }
  }

  function Waiting(identity: Identity, pc: Pc): Call { Call(identity, false, 0.0, 0, pc) }

  /** A new request for something nobody is fetching enters and waits for its slot. */
  lemma Arrives(p: HostPolicy, s: System, t: System) returns (id: CallId, u: System)
    requires Leads(p, s, t)
    ensures Leads(p, s, u) && id !in t.calls && u.host == t.host && u.clock == t.clock && u.retired == t.retired
    ensures exists identity :: u.calls == t.calls[id := Waiting(identity, WantSlot(0, false))]
  {
    id := FreshId(t.calls.Keys);
    var identity := FreshId(t.inflight.Keys);
    var begun := After(p, t, Begin(id, identity, false, 0.0));
    LeadsOn(p, s, t, Begin(id, identity, false, 0.0));
    u := After(p, begun, Enter(id, true));
    assert u.calls == t.calls[id := Waiting(identity, WantSlot(0, false))];
    LeadsOn(p, s, begun, Enter(id, true));
  }

  /** Time passes until the breaker's cooldown is over. */
  lemma CoolsDown(p: HostPolicy, s: System, t: System) returns (u: System)
    requires Leads(p, s, t)
    ensures Leads(p, s, u) && u.clock >= u.host.openUntil && u == t.(clock := u.clock)
  {
    var e := Tick(Max(0.0, t.host.openUntil - t.clock));
    u := After(p, t, e);
    LeadsOn(p, s, t, e);
  }

  lemma ReadsClock(p: HostPolicy, s: System, t: System, id: CallId) returns (u: System)
    requires Leads(p, s, t) && id in t.calls && t.calls[id].pc == WantSlot(0, false)
    ensures Leads(p, s, u) && u == t.(calls := t.calls[id := t.calls[id].(pc := ClockRead(0, false, t.clock))])
  {
    u := After(p, t, ReadClock(id));
    assert u.calls == t.calls[id := t.calls[id].(pc := ClockRead(0, false, t.clock))];
    LeadsOn(p, s, t, ReadClock(id));
  }

  /** With the flag down, a request whose clock reading is late enough is let in. */
  lemma ComesIn(p: HostPolicy, s: System, t: System, id: CallId) returns (u: System)
    requires Leads(p, s, t) && id in t.calls && t.calls[id].pc.ClockRead? && t.calls[id].pc.attempt == 0
    requires !t.calls[id].pc.probe
    requires !t.host.probeInFlight && t.calls[id].pc.now >= t.host.openUntil
    ensures Leads(p, s, u) && u.host.openUntil == t.host.openUntil
    ensures u.calls == t.calls[id := t.calls[id].(pc := Sleeping(0, false, |t.retired|))]
  {
    u := After(p, t, Reserve(id, 0.0));
    assert u.calls == t.calls[id := t.calls[id].(pc := Sleeping(0, false, |t.retired|))];
    LeadsOn(p, s, t, Reserve(id, 0.0));
  }

  /** A pending clean-up runs. */
  lemma CleansUp(p: HostPolicy, s: System, t: System, id: CallId) returns (u: System)
    requires Leads(p, s, t) && id in t.calls && CleanUpPends(t.calls[id])
    ensures Leads(p, s, u) && !u.host.probeInFlight && u.host.openUntil == t.host.openUntil && u.retired == t.retired
    ensures exists outcome :: u.calls == t.calls[id := t.calls[id].(pc := Publishing(outcome, false))]
  {
    u := After(p, t, Finally(id));
    assert u.calls == t.calls[id := t.calls[id].(pc := Publishing(t.calls[id].pc.outcome, false))];
    LeadsOn(p, s, t, Finally(id));
  }

  /** Beside an older request inside, another is let in. */
  lemma AnotherComesIn(p: HostPolicy, s: System, older: CallId) returns (t: System)
    requires !s.host.probeInFlight && older in s.calls && Inside(s.calls[older])
    ensures Leads(p, s, t) && !AtMostOneInside(t)
  {
    LeadsToItself(p, s);
    var a := CoolsDown(p, s, s);
    var id, b := Arrives(p, s, a);
    var c := ReadsClock(p, s, b, id);
    t := ComesIn(p, s, c, id);
    assert t.calls[older] == s.calls[older] && Inside(t.calls[id]) && id != older;
  }

  /** A pending clean-up lets in two: the second after it has lowered the first one's flag. */
  lemma TwoComeIn(p: HostPolicy, s: System, ended: CallId) returns (t: System)
    requires !s.host.probeInFlight && ended in s.calls && CleanUpPends(s.calls[ended])
    ensures Leads(p, s, t) && !AtMostOneInside(t)
  {
    LeadsToItself(p, s);
    var a := CoolsDown(p, s, s);
    var first, b := Arrives(p, s, a);
    var c := ReadsClock(p, s, b, first);
    var second, d := Arrives(p, s, c);
    var e := ReadsClock(p, s, d, second);
    var f := ComesIn(p, s, e, first);
    var g := CleansUp(p, s, f, ended);
    t := ComesIn(p, s, g, second);
    assert Inside(t.calls[first]) && Inside(t.calls[second]) && first != second;
  }

  /** From an open breaker with its flag down, at most one request is let in up to its outcome, whatever
      else happens, exactly when no older request is inside and no clean-up is pending. */
  lemma ExclusionIsExact(p: HostPolicy, s: System)
    requires s.host.openUntil != 0.0 && !s.host.probeInFlight && AllOrderly(s)
    ensures AdmitsOneAtMost(p, s) <==> NobodyInside(s) && NoCleanUpPends(s)
  {
    if NobodyInside(s) && NoCleanUpPends(s) {
      assert Exclusive(s);
      forall t | Leads(p, s, t) ensures AtMostOneInside(t) {
        var trace: seq<System>, events: seq<Event> :| IsStretch(p, trace, events) && trace[0] == s
          && trace[|events|] == t;
        StretchKeeps(p, trace, events, |events|);
      }
    } else if !NobodyInside(s) {
      var older :| older in s.calls && Inside(s.calls[older]);
      var t := AnotherComesIn(p, s, older);
      assert Leads(p, s, t) && !AtMostOneInside(t);
    } else {
      var ended :| ended in s.calls && CleanUpPends(s.calls[ended]);
      var t := TwoComeIn(p, s, ended);
      assert Leads(p, s, t) && !AtMostOneInside(t);
    }
  }

  /** So after a late clean-up, while the breaker is open, a second request can be let in beside the one inside. */
  lemma LateCleanUpAdmitsAnother(p: HostPolicy, s: System, e: Event)
    requires Enabled(s, e) && LateCleanUp(s, e) && s.host.openUntil != 0.0
    ensures !AdmitsOneAtMost(p, After(p, s, e))
  {
    var t := After(p, s, e);
    var older :| older in s.calls && Inside(s.calls[older]);
    assert t.calls[older] == s.calls[older];
    var u := AnotherComesIn(p, t, older);
    assert Leads(p, t, u) && !AtMostOneInside(u);
  }

  // ---------------------------------------------------------------- a stranded flag

  /** The breaker is open, the flag is up, nobody is inside and no clean-up is pending. */
  ghost predicate Shut(s: System) {
    s.host.openUntil != 0.0 && s.host.probeInFlight && AllOrderly(s) && NobodyInside(s) && NoCleanUpPends(s)
  }

  lemma ShutStep(p: HostPolicy, s: System, e: Event)
    requires Enabled(s, e) && IsCallStep(e) && LeavesBreakerAlone(p, s, e)
    requires s.host.openUntil != 0.0 && s.host.probeInFlight
    requires Orderly(s.calls[e.id]) && !Inside(s.calls[e.id]) && !CleanUpPends(s.calls[e.id])
    ensures
      var f := EffectOf(p, s, e);
      f.host == s.host && Orderly(f.call) && !Inside(f.call) && !CleanUpPends(f.call)
  {
  }

  lemma ShutKept(p: HostPolicy, s: System, e: Event)
    requires Shut(s) && Enabled(s, e) && LeavesBreakerAlone(p, s, e)
    ensures Shut(After(p, s, e))
  {
    if IsCallStep(e) { ShutStep(p, s, e); }
  }

  /** A host whose flag is up with nobody to lower it lets nobody in, however long and whoever comes, unless
      it is reset or a cached or shared response is rejected for it. */
  lemma {:induction false} ShutHostAdmitsNobody(p: HostPolicy, trace: seq<System>, events: seq<Event>, n: nat)
    requires IsRun(p, trace, events) && n < |trace| && Shut(trace[0])
    requires forall i | 0 <= i < n :: LeavesBreakerAlone(p, trace[i], events[i])
    ensures Shut(trace[n])
  {
    if n > 0 {
      ShutHostAdmitsNobody(p, trace, events, n - 1);
      ShutKept(p, trace[n - 1], events[n - 1]);
    }
  }
}
