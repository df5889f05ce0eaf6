/** Which declaration decides a target when several are equally strong: the one stored last.
    `max_by_key` keeps the last of equal maxima, the sort before it is stable, and the
    registry moves a declaration to the end of its list whenever it is stored. */
module PolicyWinner {
  import opened Prelude
  import opened PolicyIR
  import opened PolicyRegistry
  import opened PolicyAdmin

  // ---- When a declaration was last stored ----

  /** The operation is accepted and stores the declaration of that name. */
  predicate Stores(active: Active, op: Op, name: string) {
    RefusalIn(active, op).None? && !op.Delete? && op.decl.name == name
  }

  /** The position of the last operation that stored `name`, or -1. */
  function LastStore(ops: seq<Op>, name: string): int {
    if ops == [] then -1 else
    var front, last := ops[..|ops| - 1], ops[|ops| - 1];
    if Stores(EnactedAll(map[], front), last, name) then |ops| - 1 else LastStore(front, name)
  }

  lemma {:induction false} LastStoreBounds(ops: seq<Op>, name: string)
    ensures -1 <= LastStore(ops, name) < |ops|
    decreases |ops|
  {
    if ops != [] {
      LastStoreBounds(ops[..|ops| - 1], name);
    }
  }

  lemma {:induction false} PerformedSnoc(s: State, ops: seq<Op>, op: Op)
    ensures PerformedAll(s, ops + [op]) == Performed(PerformedAll(s, ops), op)
    decreases |ops|
  {
    if ops == [] {
      assert ops + [op] == [op] && [op][1..] == [];
      assert PerformedAll(s, [op]) == PerformedAll(Performed(s, op), []);
    } else {
      assert (ops + [op])[1..] == ops[1..] + [op];
      PerformedSnoc(Performed(s, ops[0]), ops[1..], op);
    }
  }

  // ---- The list is in the order of storing ----

  ghost predicate ByStoring(ops: seq<Op>, policies: seq<Stored>) {
    forall i, j :: 0 <= i < j < |policies| ==> LastStore(ops, policies[i].id) < LastStore(ops, policies[j].id)
  }

  lemma {:induction false} WithoutByStoring(ops: seq<Op>, policies: seq<Stored>, id: string)
    requires ByStoring(ops, policies)
    ensures ByStoring(ops, Without(policies, id))
    decreases |policies|
  {
    if policies != [] {
      var front, last := policies[..|policies| - 1], policies[|policies| - 1];
      WithoutByStoring(ops, front, id);
      WithoutSpec(front, id);
      var kept := Without(front, id);
      forall i | 0 <= i < |kept|
        ensures LastStore(ops, kept[i].id) < LastStore(ops, last.id)
      {
        assert kept[i] in front;
        var k :| 0 <= k < |front| && front[k] == kept[i];
        assert policies[k] == front[k];
      }
    }
  }

  /** Nothing in `policies` was stored by the last operation. */
  lemma SameRanks(ops: seq<Op>, policies: seq<Stored>)
    requires ops != [] && ByStoring(ops[..|ops| - 1], policies)
    requires forall p :: p in policies ==> !Stores(EnactedAll(map[], ops[..|ops| - 1]), ops[|ops| - 1], p.id)
    ensures ByStoring(ops, policies)
  {
    forall i | 0 <= i < |policies|
      ensures LastStore(ops, policies[i].id) == LastStore(ops[..|ops| - 1], policies[i].id)
    {
      assert policies[i] in policies;
    }
  }

  lemma StoredLast(ops: seq<Op>, policies: seq<Stored>, added: Stored)
    requires ops != [] && ByStoring(ops[..|ops| - 1], policies)
    requires Stores(EnactedAll(map[], ops[..|ops| - 1]), ops[|ops| - 1], added.id)
    requires forall p :: p in policies ==> p.id != added.id
    ensures ByStoring(ops, policies + [added])
  {
    SameRanks(ops, policies);
    forall i | 0 <= i < |policies|
      ensures LastStore(ops, policies[i].id) < LastStore(ops, added.id)
    {
      assert policies[i] in policies;
      LastStoreBounds(ops[..|ops| - 1], policies[i].id);
    }
  }

  lemma {:induction false} StoredInOrder(now: nat, ops: seq<Op>)
    ensures ByStoring(ops, PerformedAll(Initial(now), ops).policies)
    decreases |ops|
  {
    if ops != [] {
      var front, op := ops[..|ops| - 1], ops[|ops| - 1];
      assert ops == front + [op];
      var before, active := PerformedAll(Initial(now), front).policies, EnactedAll(map[], front);
      StoredInOrder(now, front);
      PerformedSnoc(Initial(now), front, op);
      RegistryRefinesMap(Initial(now), map[], front);
      RepresentsStep(PerformedAll(Initial(now), front), active, op);
      if RefusalIn(active, op).Some? {
        SameRanks(ops, before);
      } else {
        var id := MutationOf(op).id;
        WithoutByStoring(front, before, id);
        WithoutSpec(before, id);
        if op.Delete? {
          SameRanks(ops, Without(before, id));
        } else {
          StoredLast(ops, Without(before, id), Stored(id, id, Encoded(op.decl)));
        }
      }
    }
  }

  // ---- The winner ----

  lemma {:induction false} RuleAt(policies: seq<Stored>, active: Active, i: nat)
    requires forall p :: p in policies ==> p.id in active && RulesIn(p) == [ActiveRule(active[p.id])]
    requires i < |policies|
    ensures |FlatMap(RulesIn, policies)| == |policies|
    ensures policies[i].id in active && FlatMap(RulesIn, policies)[i] == ActiveRule(active[policies[i].id])
    decreases |policies|
  {
    assert policies[0] in policies;
    if |policies| > 1 {
      RuleAt(policies[1..], active, if i > 0 then i - 1 else 0);
    }
  }

  /** `n` loses to `w`: it is weaker, or as strong and stored before. */
  predicate LosesTo(ops: seq<Op>, active: Active, n: string, w: string)
    requires n in active && w in active
  {
    || Stronger(ActiveRule(active[w]), ActiveRule(active[n]))
    || (!Stronger(ActiveRule(active[n]), ActiveRule(active[w])) && LastStore(ops, n) < LastStore(ops, w))
  }

  lemma WinnerInList(policies: seq<Stored>, active: Active, target: string) returns (k: nat)
    requires Represents(policies, active) && Compile(policies).Ok? && Decision(policies, target).Some?
    ensures k < |policies| && policies[k].id in active
    ensures Decision(policies, target).value == ActiveRule(active[policies[k].id])
    ensures forall j :: k < j < |policies| ==>
              policies[j].id in active &&
              (Covers(active[policies[j].id].matchTarget, target) ==>
                 Stronger(ActiveRule(active[policies[k].id]), ActiveRule(active[policies[j].id])))
  {
    var rules := FlatMap(RulesIn, policies);
    SortingKeepsWinner(rules, target);
    forall p | p in policies
      ensures p.id in active && RulesIn(p) == [ActiveRule(active[p.id])]
    {
      ActiveParses(policies, active, p);
    }
    k := LastOfEqualsWins(rules, target);
    if policies == [] {
      assert false;
    }
    RuleAt(policies, active, 0);
    RuleAt(policies, active, k);
    forall j | k < j < |policies|
      ensures policies[j].id in active &&
              (Covers(active[policies[j].id].matchTarget, target) ==>
                 Stronger(ActiveRule(active[policies[k].id]), ActiveRule(active[policies[j].id])))
    {
      RuleAt(policies, active, j);
    }
  }

  /** After every run, the declaration that decides a target beats every other active one
      that covers it, or is as strong and was stored after it. */
  lemma LatestOfStrongestWins(now: nat, ops: seq<Op>, target: string, n: string)
    requires var active := EnactedAll(map[], ops); n in active && Covers(active[n].matchTarget, target)
    ensures var policies, active := PerformedAll(Initial(now), ops).policies, EnactedAll(map[], ops);
            var winner := Decision(policies, target);
            && winner.Some? && winner.value.ruleId in active
            && winner.value == ActiveRule(active[winner.value.ruleId])
            && (n != winner.value.ruleId ==> LosesTo(ops, active, n, winner.value.ruleId))
  {
    var policies, active := PerformedAll(Initial(now), ops).policies, EnactedAll(map[], ops);
    DecisionAfterRun(now, ops, target);
    RegistryRefinesMap(Initial(now), map[], ops);
    StoredInOrder(now, ops);
    var k := WinnerInList(policies, active, target);
    var p := Stored(n, n, Encoded(active[n]));
    var i :| 0 <= i < |policies| && policies[i] == p;
    assert policies[k] in policies && active[policies[k].id].name == policies[k].id;
  }

  /** `w` covers the target and every other active declaration that does loses to it. */
  ghost predicate Prevails(ops: seq<Op>, target: string, w: string) {
    var active := EnactedAll(map[], ops);
    && w in active && Covers(active[w].matchTarget, target)
    && forall n :: n in active && n != w && Covers(active[n].matchTarget, target) ==> LosesTo(ops, active, n, w)
  }

  /** The decision is a function of the run alone: it is the declaration that prevails. */
  lemma PrevailingDecides(now: nat, ops: seq<Op>, target: string, w: string)
    ensures Prevails(ops, target, w) <==>
            var decision := Decision(PerformedAll(Initial(now), ops).policies, target);
            decision.Some? && decision.value.ruleId == w
  {
    var active := EnactedAll(map[], ops);
    var decision := Decision(PerformedAll(Initial(now), ops).policies, target);
    if Prevails(ops, target, w) {
      LatestOfStrongestWins(now, ops, target, w);
      DecisionAfterRun(now, ops, target);
      var v := decision.value.ruleId;
      assert active[v].matchTarget == decision.value.targetPattern;
    }
    if decision.Some? && decision.value.ruleId == w {
      DecisionAfterRun(now, ops, target);
      assert active[w].matchTarget == decision.value.targetPattern;
      forall n | n in active && n != w && Covers(active[n].matchTarget, target)
        ensures LosesTo(ops, active, n, w)
      {
        LatestOfStrongestWins(now, ops, target, n);
      }
    }
  }

  // ---- The decision, in the declarations' own words ----

  ghost predicate Declared(active: Active, target: string, effect: string, n: string) {
    n in active && (active[n].matchTarget == target || active[n].matchTarget == "*") && active[n].effect == effect
  }

  ghost predicate SomeDeclares(active: Active, target: string, effect: string) {
    exists n :: Declared(active, target, effect, n)
  }

  function Word(effect: Effect): string {
    match effect
    case Deny => "deny"
    case Approval => "approval"
    case Allow => "allow"
  }

  lemma ActiveWord(policies: seq<Stored>, active: Active, n: string)
    requires Represents(policies, active) && n in active
    ensures active[n].effect == Word(ActiveRule(active[n]).effect)
    ensures ActiveRule(active[n]).priority == active[n].priority
    ensures ActiveRule(active[n]).targetPattern == active[n].matchTarget
    ensures ActiveRule(active[n]).conditions == active[n].conditions
  {
    assert ValidateDeclaration(active[n]).None?;
    assert active[n].effect in ["deny", "approval", "allow"];
  }

  /** After every run a target is denied exactly when an active declaration that covers it
      says "deny"; it needs approval exactly when none does and one says "approval"; it is
      allowed exactly when all that cover it, and there is one, say "allow". The priority is
      the greatest among the declarations that say so, and the rest of the winning rule is
      the winning declaration's. */
  lemma DecisionAsDeclared(now: nat, ops: seq<Op>, target: string)
    ensures var active := EnactedAll(map[], ops);
            var decision := Decision(PerformedAll(Initial(now), ops).policies, target);
            var deny, approval := SomeDeclares(active, target, "deny"), SomeDeclares(active, target, "approval");
            && (decision.Some? && decision.value.effect == Deny <==> deny)
            && (decision.Some? && decision.value.effect == Approval <==> !deny && approval)
            && (decision.Some? && decision.value.effect == Allow <==>
                !deny && !approval && SomeDeclares(active, target, "allow"))
            && (decision.Some? ==>
                  var w := decision.value;
                  && Declared(active, target, Word(w.effect), w.ruleId)
                  && w.priority == active[w.ruleId].priority && w.conditions == active[w.ruleId].conditions
                  && w.targetPattern == active[w.ruleId].matchTarget
                  && forall n :: Declared(active, target, Word(w.effect), n) ==> active[n].priority <= w.priority)
  {
    var policies, active := PerformedAll(Initial(now), ops).policies, EnactedAll(map[], ops);
    RegistryRefinesMap(Initial(now), map[], ops);
    DecisionAfterRun(now, ops, target);
    var decision := Decision(policies, target);
    forall n | n in active
      ensures active[n].effect == Word(ActiveRule(active[n]).effect)
      ensures ActiveRule(active[n]).priority == active[n].priority
    {
      ActiveWord(policies, active, n);
    }
    if decision.Some? {
      var w := decision.value;
      ActiveWord(policies, active, w.ruleId);
      assert Declared(active, target, Word(w.effect), w.ruleId);
    }
  }
}
