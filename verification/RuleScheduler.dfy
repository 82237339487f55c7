/**
 * The rule-set worklist: rounds over the pending rules, evaluating each whose members all have traces,
 * until nothing is pending or a round makes no progress. Rule ids stand for strings by their
 * position in the sorting order; evaluators are any function that reads only its members' traces.
 */
module RuleScheduler {
  import opened Common

  datatype RuleId = RuleId(position: int)

  datatype Rule = Rule(id: RuleId, members: seq<RuleId>, body: nat)

  type Trace = int

  type Traces = map<RuleId, Trace>

  type Evaluator = (Rule, Traces) -> Trace

  /** The rules by id; a repeated id keeps the last rule that has it. */
  function ById(rules: seq<Rule>): map<RuleId, Rule> {
    if rules == [] then map[] else ById(rules[..|rules| - 1])[rules[|rules| - 1].id := rules[|rules| - 1]]
  }

  function Restrict(traces: Traces, members: seq<RuleId>): Traces {
    map m | m in members && m in traces :: traces[m]
  }

  /** The evaluator's result depends on the rule and on its members' traces alone. */
  ghost predicate ReadsOnlyMembers(f: Evaluator) {
    forall r: Rule, t: Traces, u: Traces :: Restrict(t, r.members) == Restrict(u, r.members) ==> f(r, t) == f(r, u)
  }

  // ---------------------------------------------------------------- recursive evaluation

  /** A rank that every member relation decreases: it exists exactly when evaluation can recurse. */
  ghost predicate Ranked(rules: map<RuleId, Rule>, rank: map<RuleId, nat>) {
    && rank.Keys == rules.Keys
    && forall i | i in rules :: forall m | m in rules[i].members :: m in rules && rank[m] < rank[i]
  }

  /** A rule's trace by recursion over its members. */
  ghost function Recursive(rules: map<RuleId, Rule>, f: Evaluator, rank: map<RuleId, nat>, id: RuleId): Trace
    requires Ranked(rules, rank) && id in rules
    decreases rank[id]
  {
    f(rules[id], map m | m in rules[id].members :: Recursive(rules, f, rank, m))
  }

  // ---------------------------------------------------------------- cycles

  /** A non-empty chain of rules, each a member of the one before it. */
  ghost predicate IsChain(rules: map<RuleId, Rule>, chain: seq<RuleId>) {
    && (forall i | 0 <= i < |chain| :: chain[i] in rules)
    && (forall i | 0 <= i < |chain| - 1 :: chain[i + 1] in rules[chain[i]].members)
  }

  ghost predicate HasCycle(rules: map<RuleId, Rule>) {
    exists chain: seq<RuleId> :: |chain| >= 2 && IsChain(rules, chain) && chain[0] == chain[|chain| - 1]
  }

  ghost predicate HasMissingMember(rules: map<RuleId, Rule>) {
    exists i, m :: i in rules && m in rules[i].members && m !in rules
  }

  lemma {:induction false} ChainsDescend(rules: map<RuleId, Rule>, rank: map<RuleId, nat>, chain: seq<RuleId>, n: nat)
    requires Ranked(rules, rank) && IsChain(rules, chain) && 0 < n < |chain|
    ensures rank[chain[n]] < rank[chain[0]]
  {
    var m := n - 1;
    assert chain[m] in rules && chain[m + 1] in rules[chain[m]].members;
    if n > 1 { ChainsDescend(rules, rank, chain, n - 1); }
  }

  lemma RankedHasNoCycle(rules: map<RuleId, Rule>, rank: map<RuleId, nat>)
    requires Ranked(rules, rank)
    ensures !HasCycle(rules) && !HasMissingMember(rules)
  {
    if HasCycle(rules) {
      var chain: seq<RuleId> :| |chain| >= 2 && IsChain(rules, chain) && chain[0] == chain[|chain| - 1];
      ChainsDescend(rules, rank, chain, |chain| - 1);
      assert false;
    }
  }

  /** A set of rules each of which has a member in the set: what a round without progress leaves, when
      no member is missing. */
  ghost predicate Stuck(rules: map<RuleId, Rule>, s: set<RuleId>) {
    s != {} && s <= rules.Keys
      && forall i {:trigger rules[i].members} | i in s :: exists m :: m in rules[i].members && m in s
  }

  lemma {:induction false} StuckChain(rules: map<RuleId, Rule>, s: set<RuleId>, n: nat) returns (chain: seq<RuleId>)
    requires Stuck(rules, s)
    ensures |chain| == n + 1 && IsChain(rules, chain) && forall i | 0 <= i <= n :: chain[i] in s
  {
    if n == 0 {
      var i :| i in s;
      chain := [i];
    } else {
      var shorter := StuckChain(rules, s, n - 1);
      var last := shorter[n - 1];
      assert last in s;
      var m :| m in rules[last].members && m in s;
      chain := shorter + [m];
      ChainGrows(rules, shorter, m);
    }
  }

  lemma ChainGrows(rules: map<RuleId, Rule>, chain: seq<RuleId>, m: RuleId)
    requires chain != [] && IsChain(rules, chain) && m in rules && m in rules[chain[|chain| - 1]].members
    ensures IsChain(rules, chain + [m])
  {
    var longer := chain + [m];
    forall i | 0 <= i < |longer| - 1 ensures longer[i + 1] in rules[longer[i]].members {
      if i < |chain| - 1 { assert chain[i + 1] in rules[chain[i]].members; }
    }
  }

  lemma ChainSlice(rules: map<RuleId, Rule>, chain: seq<RuleId>, from: nat, to: nat)
    requires IsChain(rules, chain) && from <= to <= |chain|
    ensures IsChain(rules, chain[from..to])
  {
    var part := chain[from..to];
    forall i | 0 <= i < |part| - 1 ensures part[i + 1] in rules[part[i]].members {
      assert chain[(from + i) + 1] in rules[chain[from + i]].members;
    }
  }

  lemma {:induction false} ElementsFit(chain: seq<RuleId>, s: set<RuleId>)
    requires forall i | 0 <= i < |chain| :: chain[i] in s
    requires forall i, j | 0 <= i < j < |chain| :: chain[i] != chain[j]
    ensures |chain| <= |s|
  {
    if chain != [] {
      var k := |chain| - 1;
      ElementsFit(chain[..k], s - {chain[k]});
    }
  }

  lemma StuckHasCycle(rules: map<RuleId, Rule>, s: set<RuleId>)
    requires Stuck(rules, s)
    ensures HasCycle(rules)
  {
    var chain := StuckChain(rules, s, |s|);
    var i, j := Repetition(chain, s);
    var loop := chain[i..j + 1];
    ChainSlice(rules, chain, i, j + 1);
    assert |loop| >= 2 && loop[0] == loop[|loop| - 1];
  }

  /** A chain longer than the set it stays in comes back to where it was. */
  lemma Repetition(chain: seq<RuleId>, s: set<RuleId>) returns (i: nat, j: nat)
    requires |chain| > |s| && forall k | 0 <= k < |chain| :: chain[k] in s
    ensures i < j < |chain| && chain[i] == chain[j]
  {
    if forall i, j | 0 <= i < j < |chain| :: chain[i] != chain[j] {
      ElementsFit(chain, s);
      assert false;
    }
    i, j :| 0 <= i < j < |chain| && chain[i] == chain[j];
  }

  // ---------------------------------------------------------------- the worklist

  /** Each trace is what its rule gives on the traces themselves. */
  ghost predicate Consistent(rules: map<RuleId, Rule>, f: Evaluator, traces: Traces) {
    forall i | i in traces :: i in rules && traces[i] == f(rules[i], traces)
  }

  /** The order of evaluation, as a rank: members were there before. */
  ghost predicate EvaluatedInOrder(rules: map<RuleId, Rule>, traces: Traces, rank: map<RuleId, nat>, next: nat) {
    && rank.Keys == traces.Keys && traces.Keys <= rules.Keys
    && (forall i | i in traces :: rank[i] < next)
    && (forall i | i in traces :: forall m | m in rules[i].members :: m in traces && rank[m] < rank[i])
  }

  predicate Ready(r: Rule, traces: Traces) { forall m | m in r.members :: m in traces }

  /** Adding one ready rule's trace keeps the traces consistent and in order. */
  lemma TraceAdded(
    rules: map<RuleId, Rule>, f: Evaluator, traces: Traces, rank: map<RuleId, nat>, next: nat, id: RuleId)
    requires ReadsOnlyMembers(f) && Consistent(rules, f, traces) && EvaluatedInOrder(rules, traces, rank, next)
    requires id in rules && id !in traces && Ready(rules[id], traces)
    ensures
      var t := traces[id := f(rules[id], traces)];
      Consistent(rules, f, t) && EvaluatedInOrder(rules, t, rank[id := next], next + 1)
  {
    var t := traces[id := f(rules[id], traces)];
    forall i | i in t ensures t[i] == f(rules[i], t) {
      assert i != id ==> Ready(rules[i], traces);
      assert id !in rules[i].members;
      assert Restrict(t, rules[i].members) == Restrict(traces, rules[i].members);
    }
  }

  /** Consistent traces over all rules are the recursive evaluation, under any rank. */
  lemma {:induction false} ConsistentIsRecursive(
    rules: map<RuleId, Rule>, f: Evaluator, traces: Traces, rank: map<RuleId, nat>, id: RuleId)
    requires ReadsOnlyMembers(f) && Consistent(rules, f, traces) && traces.Keys == rules.Keys
    requires Ranked(rules, rank) && id in rules
    ensures traces[id] == Recursive(rules, f, rank, id)
    decreases rank[id]
  {
    var members := rules[id].members;
    forall m | m in members ensures traces[m] == Recursive(rules, f, rank, m) {
      ConsistentIsRecursive(rules, f, traces, rank, m);
    }
    var below := map m | m in members :: Recursive(rules, f, rank, m);
    assert Restrict(traces, members) == Restrict(below, members);
  }

  /** The smallest of a non-empty set. */
  method Smallest(ids: set<RuleId>) returns (least: RuleId)
    requires ids != {}
    ensures least in ids && forall i | i in ids :: least.position <= i.position
  {
    least :| least in ids;
    var rest := ids - {least};
    while rest != {}
      invariant rest <= ids && least in ids
      invariant forall i | i in ids :: i in rest || least.position <= i.position
      decreases rest
    {
      var i :| i in rest;
      if i.position < least.position {
        least := i;
      }
      rest := rest - {i};
    }
  }

  /** The rules are those left and those done. */
  ghost predicate Splits(rules: map<RuleId, Rule>, left: set<RuleId>, done: set<RuleId>) {
    left !! done && left + done == rules.Keys
  }

  lemma RuleMoves(rules: map<RuleId, Rule>, left: set<RuleId>, done: set<RuleId>, id: RuleId)
    requires Splits(rules, left, done) && id in left
    ensures Splits(rules, left - {id}, done + {id})
  {
  }

  /** One round: the ids pending at its start, in sorted order, each evaluated as soon as it is ready. */
  method Round(
    rules: map<RuleId, Rule>, f: Evaluator, pending: set<RuleId>, traces: Traces, ghost rank: map<RuleId, nat>,
    ghost next: nat)
    returns (left: set<RuleId>, grown: Traces, progressed: bool, ghost order: map<RuleId, nat>, ghost after: nat)
    requires ReadsOnlyMembers(f) && Splits(rules, pending, traces.Keys)
    requires Consistent(rules, f, traces) && EvaluatedInOrder(rules, traces, rank, next)
    ensures left <= pending && Splits(rules, left, grown.Keys)
    ensures Consistent(rules, f, grown) && EvaluatedInOrder(rules, grown, order, after)
    ensures progressed <==> left < pending
    ensures !progressed ==> grown == traces && forall i | i in pending :: !Ready(rules[i], traces)
  {
    left, grown, progressed, order, after := pending, traces, false, rank, next;
    var todo := pending;
    while todo != {}
      invariant todo <= left <= pending && Splits(rules, left, grown.Keys)
      invariant Consistent(rules, f, grown) && EvaluatedInOrder(rules, grown, order, after)
      invariant progressed <==> left < pending
      invariant !progressed ==> grown == traces && forall i | i in pending :: i in todo || !Ready(rules[i], traces)
      decreases todo
    {
      var id := Smallest(todo);
      if forall m | m in rules[id].members :: m in grown {
        TraceAdded(rules, f, grown, order, after, id);
        RuleMoves(rules, left, grown.Keys, id);
        grown := grown[id := f(rules[id], grown)];
        order, after := order[id := after], after + 1;
        left := left - {id};
        progressed := true;
      }
      todo := todo - {id};
    }
  }

  /** The whole evaluation: the traces of every rule, or none when rules are unresolved or cyclic. It
      succeeds exactly when no member is missing and no member relation is cyclic, and then every
      trace is the recursive evaluation, whatever order the rules were listed in. */
  method EvaluateRuleSet(listed: seq<Rule>, f: Evaluator) returns (result: Option<Traces>)
    requires ReadsOnlyMembers(f)
    ensures result.Some? <==> !HasCycle(ById(listed)) && !HasMissingMember(ById(listed))
    ensures result.Some? ==> result.value.Keys == ById(listed).Keys && exists rank :: Ranked(ById(listed), rank)
    ensures result.Some? ==> forall rank, id | Ranked(ById(listed), rank) && id in ById(listed) ::
      result.value[id] == Recursive(ById(listed), f, rank, id)
  {
    var rules := ById(listed);
    var pending, traces := rules.Keys, map[];
    ghost var rank: map<RuleId, nat>, next := map[], 0;
    while pending != {}
      invariant Splits(rules, pending, traces.Keys)
      invariant Consistent(rules, f, traces) && EvaluatedInOrder(rules, traces, rank, next)
      decreases pending
    {
      var progressed;
      ghost var before := traces;
      ghost var waiting := pending;
      pending, traces, progressed, rank, next := Round(rules, f, pending, traces, rank, next);
      if !progressed {
        NoProgressMeansUnresolvable(rules, waiting, before);
        return None;
      }
    }
    assert Ranked(rules, rank);
    RankedHasNoCycle(rules, rank);
    forall k, id | Ranked(rules, k) && id in rules ensures traces[id] == Recursive(rules, f, k, id) {
      ConsistentIsRecursive(rules, f, traces, k, id);
    }
    result := Some(traces);
  }

  lemma NoProgressMeansUnresolvable(rules: map<RuleId, Rule>, pending: set<RuleId>, traces: Traces)
    requires pending != {} && pending + traces.Keys == rules.Keys
    requires forall i | i in pending :: !Ready(rules[i], traces)
    ensures HasCycle(rules) || HasMissingMember(rules)
  {
    if !HasMissingMember(rules) {
      forall i | i in pending ensures exists m :: m in rules[i].members && m in pending {
        var m :| m in rules[i].members && m !in traces;
        assert m in rules;
      }
      StuckHasCycle(rules, pending);
    }
  }

  ghost predicate DistinctIds(rules: seq<Rule>) {
    forall i, j | 0 <= i < j < |rules| :: rules[i].id != rules[j].id
  }

  lemma {:induction false} ByIdHolds(rules: seq<Rule>)
    requires DistinctIds(rules)
    ensures forall i | 0 <= i < |rules| :: rules[i].id in ById(rules) && ById(rules)[rules[i].id] == rules[i]
    ensures forall k | k in ById(rules) :: ById(rules)[k].id == k && ById(rules)[k] in rules
  {
    if rules != [] {
      var earlier := rules[..|rules| - 1];
      ByIdHolds(earlier);
      assert rules == earlier + [rules[|rules| - 1]];
    }
  }

  /** With distinct ids the listing order is irrelevant: the same rules give the same index, and so the
      same success and the same traces. */
  lemma ListingOrderIsIrrelevant(a: seq<Rule>, b: seq<Rule>)
    requires DistinctIds(a) && DistinctIds(b)
    requires forall r :: r in a <==> r in b
    ensures ById(a) == ById(b)
  {
    ByIdHolds(a);
    ByIdHolds(b);
    forall k | k in ById(a) ensures k in ById(b) && ById(b)[k] == ById(a)[k] {
      assert ById(a)[k] in b;
    }
    forall k | k in ById(b) ensures k in ById(a) {
      assert ById(b)[k] in a;
    }
  }
}
