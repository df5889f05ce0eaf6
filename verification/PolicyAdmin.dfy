/** The administrative facade of src/operations/policy_admin.rs, and the decision that any
    run of creates, updates and deletes leads to. The audit log is outside the model. */
module PolicyAdmin {
  import opened Prelude
  import opened Text
  import opened PolicyIR
  import opened PolicyRegistry

  datatype Error =
    | EmptyName
    | EmptyTarget
    | UnknownEffect(effect: string)
    | Exists(name: string)
    | NotFound(name: string)
    | Renamed

  function ValidateDeclaration(decl: Declaration): Option<Error> {
    if Blank(decl.name) then Some(EmptyName)
    else if Blank(decl.matchTarget) then Some(EmptyTarget)
    else if decl.effect !in ["deny", "approval", "allow"] then Some(UnknownEffect(decl.effect))
    else None
  }

  datatype Op =
    | Create(decl: Declaration, at: nat)
    | Update(name: string, decl: Declaration, at: nat)
    | Delete(name: string, at: nat)

  /** Why an operation is refused, if it is. */
  function Refusal(policies: seq<Stored>, op: Op): Option<Error> {
    match op
    case Create(decl, _) =>
      var invalid := ValidateDeclaration(decl);
      if invalid.Some? then invalid
      else if HasId(policies, decl.name) then Some(Exists(decl.name))
      else None
    case Update(name, decl, _) =>
      var invalid := ValidateDeclaration(decl);
      if invalid.Some? then invalid
      else if !HasId(policies, name) then Some(NotFound(name))
      else if decl.name != name then Some(Renamed)
      else None
    case Delete(name, _) =>
      if !HasId(policies, name) then Some(NotFound(name)) else None
  }

  function MutationOf(op: Op): Mutation {
    match op
    case Create(decl, at) => Upsert(decl.name, decl.name, Encoded(decl), at)
    case Update(_, decl, at) => Upsert(decl.name, decl.name, Encoded(decl), at)
    case Delete(name, at) => Remove(name, at)
  }

  function Performed(s: State, op: Op): State {
    if Refusal(s.policies, op).Some? then s else Recorded(s, MutationOf(op))
  }

  class Admin {
    const registry: Registry

    constructor (registry: Registry)
      ensures this.registry == registry
    {
      this.registry := registry;
    }

    method CreatePolicy(decl: Declaration, now: nat) returns (refusal: Option<Error>)
      modifies registry
      ensures refusal == Refusal(old(registry.policies), Create(decl, now))
      ensures registry.View() == Performed(old(registry.View()), Create(decl, now))
    {
      refusal := ValidateDeclaration(decl);
      if refusal.Some? {
        return;
      }
      var taken := registry.HasPolicy(decl.name);
      if taken {
        return Some(Exists(decl.name));
      }
      var _ := registry.ApplyPolicy(decl.name, decl.name, Encoded(decl), now);
      refusal := None;
    }

    method UpdatePolicy(name: string, decl: Declaration, now: nat) returns (refusal: Option<Error>)
      modifies registry
      ensures refusal == Refusal(old(registry.policies), Update(name, decl, now))
      ensures registry.View() == Performed(old(registry.View()), Update(name, decl, now))
    {
      refusal := ValidateDeclaration(decl);
      if refusal.Some? {
        return;
      }
      var found := registry.HasPolicy(name);
      if !found {
        return Some(NotFound(name));
      }
      if decl.name != name {
        return Some(Renamed);
      }
      var _ := registry.ApplyPolicy(decl.name, decl.name, Encoded(decl), now);
      refusal := None;
    }

    method DeletePolicy(name: string, now: nat) returns (refusal: Option<Error>)
      modifies registry
      ensures refusal == Refusal(old(registry.policies), Delete(name, now))
      ensures registry.View() == Performed(old(registry.View()), Delete(name, now))
    {
      var found := registry.HasPolicy(name);
      if !found {
        return Some(NotFound(name));
      }
      var _ := registry.RemovePolicy(name, now);
      refusal := None;
    }

    /** Every stored rule decoded, or the first that is corrupt. */
    method ListPolicies() returns (listed: Result<seq<Declaration>, Problem>)
      ensures listed == Listing(registry.policies)
    {
      var stored := registry.policies;
      var decls := [];
      for i := 0 to |stored|
        invariant Listing(stored[..i]) == Ok(decls)
      {
        assert stored[..i + 1][..i] == stored[..i];
        match stored[i].rule
        case Garbage(_) =>
          CorruptListing(stored, i);
          return Err(Corrupt(stored[i].name, stored[i].id));
        case Encoded(decl) =>
          decls := decls + [decl];
      }
      assert stored[..|stored|] == stored;
      listed := Ok(decls);
    }
  }

  function Listing(policies: seq<Stored>): Result<seq<Declaration>, Problem> {
    if policies == [] then Ok([]) else
    match Listing(policies[..|policies| - 1])
    case Err(p) => Err(p)
    case Ok(decls) =>
      var last := policies[|policies| - 1];
      match last.rule
      case Garbage(_) => Err(Corrupt(last.name, last.id))
      case Encoded(decl) => Ok(decls + [decl])
  }

  lemma {:induction false} CorruptListing(policies: seq<Stored>, i: nat)
    requires i < |policies| && Listing(policies[..i]).Ok? && policies[i].rule.Garbage?
    ensures Listing(policies) == Err(Corrupt(policies[i].name, policies[i].id))
    decreases |policies|
  {
    var front := policies[..|policies| - 1];
    if i < |front| {
      assert front[..i] == policies[..i];
      CorruptListing(front, i);
    }
  }

  // ---- The reference: a map from names to declarations ----

  type Active = map<string, Declaration>

  function RefusalIn(active: Active, op: Op): Option<Error> {
    match op
    case Create(decl, _) =>
      var invalid := ValidateDeclaration(decl);
      if invalid.Some? then invalid else if decl.name in active then Some(Exists(decl.name)) else None
    case Update(name, decl, _) =>
      var invalid := ValidateDeclaration(decl);
      if invalid.Some? then invalid
      else if name !in active then Some(NotFound(name))
      else if decl.name != name then Some(Renamed)
      else None
    case Delete(name, _) =>
      if name !in active then Some(NotFound(name)) else None
  }

  function Enacted(active: Active, op: Op): Active {
    if RefusalIn(active, op).Some? then active else
    match op
    case Create(decl, _) => active[decl.name := decl]
    case Update(name, decl, _) => active[name := decl]
    case Delete(name, _) => active - {name}
  }

  /** The stored list holds each active declaration once, under its name. */
  ghost predicate Represents(policies: seq<Stored>, active: Active) {
    && UniqueIds(policies)
    && (forall p :: p in policies ==> p.id in active && p == Stored(p.id, p.id, Encoded(active[p.id])))
    && (forall n :: n in active ==> Stored(n, n, Encoded(active[n])) in policies)
    && (forall n :: n in active ==> active[n].name == n && ValidateDeclaration(active[n]).None?)
  }

  lemma RepresentsIds(policies: seq<Stored>, active: Active, id: string)
    requires Represents(policies, active)
    ensures HasId(policies, id) <==> id in active
  {
    if id in active {
      var p := Stored(id, id, Encoded(active[id]));
      assert p in policies;
      var i :| 0 <= i < |policies| && policies[i] == p;
    }
    if HasId(policies, id) {
      var i :| 0 <= i < |policies| && policies[i].id == id;
      assert policies[i] in policies;
    }
  }

  lemma RepresentsUpsert(policies: seq<Stored>, active: Active, decl: Declaration, at: nat)
    requires Represents(policies, active) && ValidateDeclaration(decl).None?
    ensures Represents(Mutated(policies, Upsert(decl.name, decl.name, Encoded(decl), at)), active[decl.name := decl])
  {
    var m := Upsert(decl.name, decl.name, Encoded(decl), at);
    WithoutSpec(policies, decl.name);
    MutatedUnique(policies, m);
    var kept, added := Without(policies, decl.name), Stored(decl.name, decl.name, Encoded(decl));
    var policies', active' := kept + [added], active[decl.name := decl];
    forall p | p in policies'
      ensures p.id in active' && p == Stored(p.id, p.id, Encoded(active'[p.id]))
    {
      assert p in kept || p == added;
    }
    forall n | n in active'
      ensures Stored(n, n, Encoded(active'[n])) in policies'
    {
      assert n == decl.name || Stored(n, n, Encoded(active[n])) in kept;
    }
  }

  lemma RepresentsRemove(policies: seq<Stored>, active: Active, name: string, at: nat)
    requires Represents(policies, active)
    ensures Represents(Mutated(policies, Remove(name, at)), active - {name})
  {
    WithoutSpec(policies, name);
    MutatedUnique(policies, Remove(name, at));
  }

  lemma RepresentsStep(s: State, active: Active, op: Op)
    requires Represents(s.policies, active)
    ensures Refusal(s.policies, op) == RefusalIn(active, op)
    ensures Represents(Performed(s, op).policies, Enacted(active, op))
  {
    match op
    case Create(decl, at) =>
      RepresentsIds(s.policies, active, decl.name);
      if RefusalIn(active, op).None? {
        RepresentsUpsert(s.policies, active, decl, at);
      }
    case Update(name, decl, at) =>
      RepresentsIds(s.policies, active, name);
      if RefusalIn(active, op).None? {
        RepresentsUpsert(s.policies, active, decl, at);
      }
    case Delete(name, at) =>
      RepresentsIds(s.policies, active, name);
      if RefusalIn(active, op).None? {
        RepresentsRemove(s.policies, active, name, at);
      }
  }

  /** An accepted operation adds one snapshot, of the new list and taken at its time; a
      refused one changes nothing. */
  lemma AcceptedIsRecorded(s: State, op: Op)
    ensures var s' := Performed(s, op);
            if Refusal(s.policies, op).None? then
              && s'.version == s.version + 1
              && s'.history == s.history + [Snapshot(s'.version, s'.policies, op.at)]
            else
              s' == s
  {
  }

  function PerformedAll(s: State, ops: seq<Op>): State
    decreases |ops|
  {
    if ops == [] then s else PerformedAll(Performed(s, ops[0]), ops[1..])
  }

  function EnactedAll(active: Active, ops: seq<Op>): Active
    decreases |ops|
  {
    if ops == [] then active else EnactedAll(Enacted(active, ops[0]), ops[1..])
  }

  function Refusals(s: State, ops: seq<Op>): seq<Option<Error>>
    decreases |ops|
  {
    if ops == [] then [] else [Refusal(s.policies, ops[0])] + Refusals(Performed(s, ops[0]), ops[1..])
  }

  function RefusalsIn(active: Active, ops: seq<Op>): seq<Option<Error>>
    decreases |ops|
  {
    if ops == [] then [] else [RefusalIn(active, ops[0])] + RefusalsIn(Enacted(active, ops[0]), ops[1..])
  }

  /** The facade over the versioned registry behaves, answer for answer, as a plain map
      from names to valid declarations. */
  lemma {:induction false} RegistryRefinesMap(s: State, active: Active, ops: seq<Op>)
    requires Represents(s.policies, active)
    ensures Refusals(s, ops) == RefusalsIn(active, ops)
    ensures Represents(PerformedAll(s, ops).policies, EnactedAll(active, ops))
    decreases |ops|
  {
    if ops != [] {
      RepresentsStep(s, active, ops[0]);
      RegistryRefinesMap(Performed(s, ops[0]), Enacted(active, ops[0]), ops[1..]);
    }
  }

  /** After any run: a name that could be created is then taken, can be updated under its own
      name only, and a delete undoes the create; a name that is absent cannot be updated or
      deleted. */
  lemma CreateThenDelete(active: Active, decl: Declaration, other: Declaration, at: nat)
    requires ValidateDeclaration(decl).None? && ValidateDeclaration(other).None? && decl.name !in active
    ensures var created := Enacted(active, Create(decl, at));
            && RefusalIn(active, Create(decl, at)).None? && created == active[decl.name := decl]
            && RefusalIn(created, Create(decl, at)) == Some(Exists(decl.name))
            && RefusalIn(created, Update(decl.name, other, at))
               == (if other.name == decl.name then None else Some(Renamed))
            && RefusalIn(created, Delete(decl.name, at)).None? && Enacted(created, Delete(decl.name, at)) == active
    ensures RefusalIn(active, Delete(decl.name, at)) == Some(NotFound(decl.name))
    ensures RefusalIn(active, Update(decl.name, decl, at)) == Some(NotFound(decl.name))
  {
    assert active[decl.name := decl] - {decl.name} == active;
  }

  // ---- The decision ----

  lemma {:induction false} NoProblems(policies: seq<Stored>)
    requires forall p :: p in policies ==> p.rule.Encoded? && ParseEffect(p.rule.decl.effect).Some?
    ensures FlatMap(ProblemsIn, policies) == []
    decreases |policies|
  {
    if policies != [] {
      assert policies[0] in policies;
      NoProblems(policies[1..]);
    }
  }

  lemma {:induction false} RulesMember(policies: seq<Stored>, r: Rule)
    ensures r in FlatMap(RulesIn, policies) <==> exists i :: 0 <= i < |policies| && r in RulesIn(policies[i])
    decreases |policies|
  {
    if policies != [] {
      RulesMember(policies[1..], r);
      if r in FlatMap(RulesIn, policies[1..]) {
        var i :| 0 <= i < |policies[1..]| && r in RulesIn(policies[1..][i]);
        assert r in RulesIn(policies[i + 1]);
      }
      if exists i :: 0 <= i < |policies| && r in RulesIn(policies[i]) {
        var i :| 0 <= i < |policies| && r in RulesIn(policies[i]);
        if i > 0 {
          assert r in RulesIn(policies[1..][i - 1]);
        }
      }
    }
  }

  function ActiveRule(decl: Declaration): Rule {
    RuleOf(decl, if ParseEffect(decl.effect).Some? then ParseEffect(decl.effect).value else Deny)
  }

  lemma ActiveParses(policies: seq<Stored>, active: Active, p: Stored)
    requires Represents(policies, active) && p in policies
    ensures p.id in active && p.rule.Encoded? && p.rule.decl == active[p.id]
    ensures ParseEffect(p.rule.decl.effect).Some?
    ensures RulesIn(p) == [ActiveRule(active[p.id])]
  {
    var decl := active[p.id];
    assert ValidateDeclaration(decl).None?;
    assert decl.effect in ["deny", "approval", "allow"];
  }

  lemma RuleOfActive(policies: seq<Stored>, active: Active, r: Rule)
    requires Represents(policies, active)
    ensures r in FlatMap(RulesIn, policies) <==> exists n :: n in active && ActiveRule(active[n]) == r
  {
    RulesMember(policies, r);
    if r in FlatMap(RulesIn, policies) {
      var i :| 0 <= i < |policies| && r in RulesIn(policies[i]);
      ActiveParses(policies, active, policies[i]);
    }
    if exists n :: n in active && ActiveRule(active[n]) == r {
      var n :| n in active && ActiveRule(active[n]) == r;
      var p := Stored(n, n, Encoded(active[n]));
      ActiveParses(policies, active, p);
      var i :| 0 <= i < |policies| && policies[i] == p;
      assert r in RulesIn(policies[i]);
    }
  }

  /** An active policy set always compiles, to exactly the rules of the active declarations. */
  lemma ActiveCompiles(policies: seq<Stored>, active: Active)
    requires Represents(policies, active)
    ensures Compile(policies).Ok?
    ensures forall r :: r in Compile(policies).value <==> exists n :: n in active && ActiveRule(active[n]) == r
  {
    forall p | p in policies
      ensures p.rule.Encoded? && ParseEffect(p.rule.decl.effect).Some?
    {
      ActiveParses(policies, active, p);
    }
    NoProblems(policies);
    CompiledRules(policies);
    var rules := Compile(policies).value;
    forall r
      ensures r in rules <==> exists n :: n in active && ActiveRule(active[n]) == r
    {
      assert r in rules <==> r in multiset(rules);
      assert r in FlatMap(RulesIn, policies) <==> r in multiset(FlatMap(RulesIn, policies));
      RuleOfActive(policies, active, r);
    }
  }

  /** What the registry's rules decide for a target; `None` when nothing applies. */
  function Decision(policies: seq<Stored>, target: string): Option<Rule> {
    match Compile(policies)
    case Ok(rules) => Evaluate(rules, target)
    case Err(_) => None
  }

  /** The winner is the rule of an active declaration that covers the target, and no active
      declaration that covers it is stronger. */
  ghost predicate Decides(active: Active, target: string, winner: Option<Rule>) {
    && (winner.Some? ==>
          && winner.value.ruleId in active
          && winner.value == ActiveRule(active[winner.value.ruleId])
          && Covers(winner.value.targetPattern, target))
    && (forall n :: n in active && Covers(active[n].matchTarget, target) ==>
          winner.Some? && !Stronger(ActiveRule(active[n]), winner.value))
  }

  lemma RulesDecide(rules: seq<Rule>, active: Active, target: string)
    requires forall n :: n in active ==> active[n].name == n
    requires forall r :: r in rules <==> exists n :: n in active && ActiveRule(active[n]) == r
    ensures Decides(active, target, Evaluate(rules, target))
  {
    WinnerIsStrongest(rules, target);
    forall n | n in active && Covers(active[n].matchTarget, target)
      ensures Evaluate(rules, target).Some? && !Stronger(ActiveRule(active[n]), Evaluate(rules, target).value)
    {
      assert ActiveRule(active[n]) in rules;
    }
    if Evaluate(rules, target).Some? {
      var n :| n in active && ActiveRule(active[n]) == Evaluate(rules, target).value;
    }
  }

  /** After every run of the facade the rules compile, and a target is decided exactly when
      some active declaration covers it, by a declaration no active one beats. */
  lemma DecisionAfterRun(now: nat, ops: seq<Op>, target: string)
    ensures var policies, active := PerformedAll(Initial(now), ops).policies, EnactedAll(map[], ops);
            && Compile(policies).Ok?
            && Decides(active, target, Decision(policies, target))
            && (Decision(policies, target).Some? <==> exists n :: n in active && Covers(active[n].matchTarget, target))
  {
    var policies, active := PerformedAll(Initial(now), ops).policies, EnactedAll(map[], ops);
    RegistryRefinesMap(Initial(now), map[], ops);
    ActiveCompiles(policies, active);
    RulesDecide(Compile(policies).value, active, target);
    var winner := Decision(policies, target);
    if winner.Some? {
      assert Covers(active[winner.value.ruleId].matchTarget, target);
    }
  }

  /** Two histories that leave the same declarations active decide every target alike. */
  lemma DecisionIgnoresHistory(now: nat, ops: seq<Op>, now': nat, ops': seq<Op>, target: string)
    requires EnactedAll(map[], ops) == EnactedAll(map[], ops')
    ensures SameDecision(Decision(PerformedAll(Initial(now), ops).policies, target),
                         Decision(PerformedAll(Initial(now'), ops').policies, target))
  {
    RegistryRefinesMap(Initial(now), map[], ops);
    RegistryRefinesMap(Initial(now'), map[], ops');
    var a, b := PerformedAll(Initial(now), ops).policies, PerformedAll(Initial(now'), ops').policies;
    ActiveCompiles(a, EnactedAll(map[], ops));
    ActiveCompiles(b, EnactedAll(map[], ops));
    DecisionIgnoresOrder(Compile(a).value, Compile(b).value, target);
  }

  lemma {:induction false} ListingMembers(policies: seq<Stored>, active: Active)
    requires forall p :: p in policies ==> p.id in active && p == Stored(p.id, p.id, Encoded(active[p.id]))
    ensures Listing(policies).Ok? && |Listing(policies).value| == |policies|
    ensures forall i :: 0 <= i < |policies| ==> Listing(policies).value[i] == active[policies[i].id]
    decreases |policies|
  {
    if policies != [] {
      var front, last := policies[..|policies| - 1], policies[|policies| - 1];
      ListingMembers(front, active);
      assert last in policies && last.rule == Encoded(active[last.id]);
      assert Listing(policies) == Ok(Listing(front).value + [active[last.id]]);
    }
  }

  predicate HasSubstance(s: string) {
    exists i :: 0 <= i < |s| && !IsWhitespace(s[i])
  }

  /** A declaration is valid exactly when its name and target are not all whitespace and its
      effect is one of three words; the first of these that fails is the one reported. */
  lemma ValidIff(decl: Declaration)
    ensures ValidateDeclaration(decl).None? <==>
            && HasSubstance(decl.name) && HasSubstance(decl.matchTarget)
            && (decl.effect == "deny" || decl.effect == "approval" || decl.effect == "allow")
    ensures ValidateDeclaration(decl) == Some(EmptyName) <==> !HasSubstance(decl.name)
    ensures ValidateDeclaration(decl) == Some(EmptyTarget) <==>
            HasSubstance(decl.name) && !HasSubstance(decl.matchTarget)
    ensures ValidateDeclaration(decl).Some? && HasSubstance(decl.name) && HasSubstance(decl.matchTarget) ==>
              ValidateDeclaration(decl) == Some(UnknownEffect(decl.effect))
  {
    BlankIff(decl.name);
    BlankIff(decl.matchTarget);
    assert decl.effect in ["deny", "approval", "allow"] <==>
           decl.effect == "deny" || decl.effect == "approval" || decl.effect == "allow";
  }

  /** What is listed after any run is exactly what was last created or updated. */
  lemma ListedAsCreated(now: nat, ops: seq<Op>, d: Declaration)
    ensures var policies, active := PerformedAll(Initial(now), ops).policies, EnactedAll(map[], ops);
            && Listing(policies).Ok?
            && (d in Listing(policies).value <==> d.name in active && active[d.name] == d)
  {
    var policies, active := PerformedAll(Initial(now), ops).policies, EnactedAll(map[], ops);
    RegistryRefinesMap(Initial(now), map[], ops);
    ListingMembers(policies, active);
    var listed := Listing(policies).value;
    if d in listed {
      var i :| 0 <= i < |listed| && listed[i] == d;
      assert policies[i] in policies;
    }
    if d.name in active && active[d.name] == d {
      var p := Stored(d.name, d.name, Encoded(d));
      assert p in policies;
      var i :| 0 <= i < |policies| && policies[i] == p;
      assert listed[i] == d;
    }
  }
}
