/** Policy declarations compiled to sorted rules (src/policy/ir.rs) and the choice of the
    winning rule (src/policy/precedence.rs).

    JSON is modelled by what it decodes to: a stored rule is either the encoding of a
    declaration or text that does not parse. */
module PolicyIR {
  import opened Prelude
  import opened StableSort

  datatype Effect = Deny | Approval | Allow {
    /** The derived order: `Deny` first. */
    function Rank(): nat {
      match this
      case Deny => 0
      case Approval => 1
      case Allow => 2
    }
  }

  datatype Declaration = Declaration(
    name: string,
    priority: nat,
    matchTarget: string,
    effect: string,
    conditions: map<string, string>,
    annotations: map<string, string>)

  datatype StoredRule = Encoded(decl: Declaration) | Garbage(text: string)

  datatype Stored = Stored(id: string, name: string, rule: StoredRule)

  datatype Rule = Rule(
    ruleId: string,
    targetPattern: string,
    priority: nat,
    effect: Effect,
    conditions: map<string, string>)

  datatype Problem = Corrupt(name: string, id: string) | InvalidEffect(name: string, effect: string)

  function ParseEffect(effect: string): Option<Effect> {
    if effect == "deny" then Some(Deny)
    else if effect == "approval" then Some(Approval)
    else if effect == "allow" then Some(Allow)
    else None
  }

  function RuleOf(decl: Declaration, effect: Effect): Rule {
    Rule(decl.name, decl.matchTarget, decl.priority, effect, decl.conditions)
  }

  /** Effect precedence first, then the higher priority. */
  predicate Before(a: Rule, b: Rule) {
    a.effect.Rank() < b.effect.Rank() || (a.effect == b.effect && a.priority >= b.priority)
  }

  lemma BeforeIsPreorder()
    ensures TotalPreorder(Before)
  {
  }

  // ---- Compilation ----

  function RulesIn(stored: Stored): seq<Rule> {
    match stored.rule
    case Garbage(_) => []
    case Encoded(decl) =>
      match ParseEffect(decl.effect)
      case Some(effect) => [RuleOf(decl, effect)]
      case None => []
  }

  function ProblemsIn(stored: Stored): seq<Problem> {
    match stored.rule
    case Garbage(_) => [Corrupt(stored.name, stored.id)]
    case Encoded(decl) => if ParseEffect(decl.effect).None? then [InvalidEffect(decl.name, decl.effect)] else []
  }

  /** Fail-closed: any entry that does not compile fails the whole snapshot. */
  function Compile(policies: seq<Stored>): Result<seq<Rule>, seq<Problem>> {
    var problems := FlatMap(ProblemsIn, policies);
    if problems != [] then Err(problems) else Ok(Sort(Before, FlatMap(RulesIn, policies)))
  }

  method FromPolicySnapshot(policies: seq<Stored>) returns (result: Result<seq<Rule>, seq<Problem>>)
    ensures result == Compile(policies)
  {
    if policies == [] {
      return Ok([]);
    }
    var rules, errors := [], [];
    for i := 0 to |policies|
      invariant rules == FlatMap(RulesIn, policies[..i])
      invariant errors == FlatMap(ProblemsIn, policies[..i])
    {
      var stored := policies[i];
      assert policies[..i + 1] == policies[..i] + [stored];
      FlatMapAppend(RulesIn, policies[..i], [stored]);
      FlatMapAppend(ProblemsIn, policies[..i], [stored]);
      FlatMapOne(RulesIn, stored);
      FlatMapOne(ProblemsIn, stored);
      match stored.rule
      case Garbage(_) =>
        errors := errors + [Corrupt(stored.name, stored.id)];
      case Encoded(decl) =>
        var effect := ParseEffect(decl.effect);
        if effect.None? {
          errors := errors + [InvalidEffect(decl.name, decl.effect)];
        } else {
          rules := rules + [RuleOf(decl, effect.value)];
        }
    }
    assert policies[..|policies|] == policies;
    if errors != [] {
      return Err(errors);
    }
    return Ok(Sort(Before, rules));
  }

  function EncodedAll(decls: seq<Declaration>): seq<Stored> {
    seq(|decls|, i requires 0 <= i < |decls| => Stored(decls[i].name, decls[i].name, Encoded(decls[i])))
  }

  /** The other way in: a parsed document, rejected at its first unknown effect. It
      compiles to what the same declarations compile to from the registry. */
  method FromAst(decls: seq<Declaration>) returns (result: Result<seq<Rule>, Problem>)
    ensures result.Ok? <==> Compile(EncodedAll(decls)).Ok?
    ensures result.Ok? ==> result.value == Compile(EncodedAll(decls)).value
    ensures result.Err? ==> Compile(EncodedAll(decls)).error[0] == result.error
  {
    var rules := [];
    ghost var stored := EncodedAll(decls);
    for i := 0 to |decls|
      invariant rules == FlatMap(RulesIn, stored[..i])
      invariant FlatMap(ProblemsIn, stored[..i]) == []
    {
      assert stored[..i + 1] == stored[..i] + [stored[i]];
      FlatMapAppend(RulesIn, stored[..i], [stored[i]]);
      FlatMapAppend(ProblemsIn, stored[..i], [stored[i]]);
      FlatMapOne(RulesIn, stored[i]);
      FlatMapOne(ProblemsIn, stored[i]);
      var effect := ParseEffect(decls[i].effect);
      if effect.None? {
        assert stored == stored[..i + 1] + stored[i + 1..];
        FlatMapAppend(ProblemsIn, stored[..i + 1], stored[i + 1..]);
        return Err(InvalidEffect(decls[i].name, decls[i].effect));
      }
      rules := rules + [RuleOf(decls[i], effect.value)];
    }
    assert stored[..|decls|] == stored;
    return Ok(Sort(Before, rules));
  }

  // ---- Evaluation ----

  const WILDCARD: string := "*"

  predicate Covers(pattern: string, target: string) {
    pattern == target || pattern == WILDCARD
  }

  /** The key of `a` is greater: a stronger effect, or the same one at a higher priority. */
  predicate Stronger(a: Rule, b: Rule) {
    a.effect.Rank() < b.effect.Rank() || (a.effect == b.effect && a.priority > b.priority)
  }

  /** `filter … max_by_key`, which takes the last of equal maxima. */
  function Evaluate(rules: seq<Rule>, target: string): Option<Rule> {
    if rules == [] then None else
    var best, rule := Evaluate(rules[..|rules| - 1], target), rules[|rules| - 1];
    if !Covers(rule.targetPattern, target) then best
    else if best.Some? && Stronger(best.value, rule) then best
    else Some(rule)
  }

  /** The winner matches and nothing that matches is stronger; there is no winner only when
      nothing matches. */
  lemma {:induction false} WinnerIsStrongest(rules: seq<Rule>, target: string)
    ensures var winner := Evaluate(rules, target);
            && (winner.Some? ==> winner.value in rules && Covers(winner.value.targetPattern, target))
            && (forall r :: r in rules && Covers(r.targetPattern, target) ==>
                  winner.Some? && !Stronger(r, winner.value))
    decreases |rules|
  {
    if rules != [] {
      var front, last := rules[..|rules| - 1], rules[|rules| - 1];
      WinnerIsStrongest(front, target);
      assert rules == front + [last];
    }
  }

  /** Among equally strong matches the one placed last wins. */
  lemma {:induction false} LastOfEqualsWins(rules: seq<Rule>, target: string) returns (k: nat)
    requires Evaluate(rules, target).Some?
    ensures k < |rules| && rules[k] == Evaluate(rules, target).value
    ensures forall j :: k < j < |rules| && Covers(rules[j].targetPattern, target) ==> Stronger(rules[k], rules[j])
    decreases |rules|
  {
    var front, last := rules[..|rules| - 1], rules[|rules| - 1];
    var before := Evaluate(front, target);
    if Evaluate(rules, target) == before && (before != Some(last) || !Covers(last.targetPattern, target)) {
      k := LastOfEqualsWins(front, target);
    } else {
      k := |rules| - 1;
    }
  }

  ghost predicate SameDecision(a: Option<Rule>, b: Option<Rule>) {
    match (a, b)
    case (None, None) => true
    case (Some(r), Some(q)) => r.effect == q.effect && r.priority == q.priority
    case _ => false
  }

  /** The decision depends on which rules there are, not on their order or repetition. */
  lemma DecisionIgnoresOrder(a: seq<Rule>, b: seq<Rule>, target: string)
    requires forall r :: r in a <==> r in b
    ensures SameDecision(Evaluate(a, target), Evaluate(b, target))
  {
    WinnerIsStrongest(a, target);
    WinnerIsStrongest(b, target);
  }

  /** On compiled rules the first that matches carries the decision. */
  lemma FirstMatchDecides(policies: seq<Stored>, target: string, i: nat)
    requires Compile(policies).Ok? && i < |Compile(policies).value|
    requires var rules := Compile(policies).value;
             && Covers(rules[i].targetPattern, target)
             && forall k :: 0 <= k < i ==> !Covers(rules[k].targetPattern, target)
    ensures SameDecision(Evaluate(Compile(policies).value, target), Some(Compile(policies).value[i]))
  {
    var rules := Compile(policies).value;
    BeforeIsPreorder();
    SortSorted(Before, FlatMap(RulesIn, policies));
    WinnerIsStrongest(rules, target);
    assert rules[i] in rules;
    var j :| 0 <= j < |rules| && rules[j] == Evaluate(rules, target).value;
    assert i == j || Before(rules[i], rules[j]);
  }

  /** Compiling drops and invents nothing. */
  lemma CompiledRules(policies: seq<Stored>)
    requires Compile(policies).Ok?
    ensures multiset(Compile(policies).value) == multiset(FlatMap(RulesIn, policies))
  {
    SortKeepsElements(Before, FlatMap(RulesIn, policies));
  }

  // ---- What is compiled, in the declarations' own words ----

  /** The rule says what the declaration says. */
  predicate Says(r: Rule, decl: Declaration) {
    && r.ruleId == decl.name && r.targetPattern == decl.matchTarget
    && r.priority == decl.priority && r.conditions == decl.conditions
    && (|| (decl.effect == "deny" && r.effect == Deny)
        || (decl.effect == "approval" && r.effect == Approval)
        || (decl.effect == "allow" && r.effect == Allow))
  }

  predicate Compilable(stored: Stored) {
    stored.rule.Encoded? && stored.rule.decl.effect in ["deny", "approval", "allow"]
  }

  predicate Complains(p: Problem, stored: Stored) {
    match stored.rule
    case Garbage(_) => p == Corrupt(stored.name, stored.id)
    case Encoded(decl) => !Compilable(stored) && p == InvalidEffect(decl.name, decl.effect)
  }

  lemma OneCompiled(stored: Stored, r: Rule, p: Problem)
    ensures r in RulesIn(stored) <==> stored.rule.Encoded? && Says(r, stored.rule.decl)
    ensures p in ProblemsIn(stored) <==> Complains(p, stored)
    ensures ProblemsIn(stored) == [] <==> Compilable(stored)
  {
    if stored.rule.Encoded? {
      var decl := stored.rule.decl;
      assert decl.effect in ["deny", "approval", "allow"] <==>
             decl.effect == "deny" || decl.effect == "approval" || decl.effect == "allow";
    }
  }

  lemma {:induction false} FlatMember<B>(f: Stored -> seq<B>, policies: seq<Stored>, y: B)
    ensures y in FlatMap(f, policies) <==> exists i :: 0 <= i < |policies| && y in f(policies[i])
    decreases |policies|
  {
    if policies != [] {
      FlatMember(f, policies[1..], y);
      if y in FlatMap(f, policies[1..]) {
        var i :| 0 <= i < |policies[1..]| && y in f(policies[1..][i]);
        assert y in f(policies[i + 1]);
      }
      if exists i :: 0 <= i < |policies| && y in f(policies[i]) {
        var i :| 0 <= i < |policies| && y in f(policies[i]);
        if i > 0 {
          assert y in f(policies[1..][i - 1]);
        }
      }
    }
  }

  /** A snapshot compiles exactly when every entry decodes and has one of the three effects;
      the rules then say what the declarations say, and otherwise every complaint, and
      nothing else, is returned. */
  lemma CompiledAsWritten(policies: seq<Stored>, r: Rule, p: Problem)
    ensures Compile(policies).Ok? <==> forall i :: 0 <= i < |policies| ==> Compilable(policies[i])
    ensures Compile(policies).Ok? ==>
              (r in Compile(policies).value <==>
                 exists i :: 0 <= i < |policies| && policies[i].rule.Encoded? && Says(r, policies[i].rule.decl))
    ensures Compile(policies).Err? ==>
              (p in Compile(policies).error <==> exists i :: 0 <= i < |policies| && Complains(p, policies[i]))
  {
    var rules, problems := FlatMap(RulesIn, policies), FlatMap(ProblemsIn, policies);
    FlatMember(RulesIn, policies, r);
    FlatMember(ProblemsIn, policies, p);
    forall i | 0 <= i < |policies|
      ensures ProblemsIn(policies[i]) == [] <==> Compilable(policies[i])
      ensures r in RulesIn(policies[i]) <==> policies[i].rule.Encoded? && Says(r, policies[i].rule.decl)
      ensures p in ProblemsIn(policies[i]) <==> Complains(p, policies[i])
    {
      OneCompiled(policies[i], r, p);
    }
    if problems != [] {
      FlatMember(ProblemsIn, policies, problems[0]);
    } else {
      forall i | 0 <= i < |policies|
        ensures Compilable(policies[i])
      {
        if ProblemsIn(policies[i]) != [] {
          FlatMember(ProblemsIn, policies, ProblemsIn(policies[i])[0]);
        }
      }
      SortKeepsElements(Before, rules);
      assert r in Sort(Before, rules) <==> r in multiset(Sort(Before, rules));
      assert r in rules <==> r in multiset(rules);
    }
  }

  // ---- Ties ----

  function LastCovering(rules: seq<Rule>, target: string): Option<Rule> {
    if rules == [] then None
    else if Covers(rules[|rules| - 1].targetPattern, target) then Some(rules[|rules| - 1])
    else LastCovering(rules[..|rules| - 1], target)
  }

  /** The winner is the last match among its equals. */
  lemma {:induction false} WinnerAmongEquals(rules: seq<Rule>, target: string, a: Rule)
    requires Evaluate(rules, target).Some? && Equivalent(Before, a, Evaluate(rules, target).value)
    ensures LastCovering(Class(Before, a, rules), target) == Evaluate(rules, target)
    decreases |rules|
  {
    var front, last := rules[..|rules| - 1], rules[|rules| - 1];
    assert rules == front + [last];
    ClassSnoc(Before, a, front, last);
    var equals := Class(Before, a, front);
    assert (equals + [last])[..|equals|] == equals && equals + [] == equals;
    if Evaluate(rules, target) == Evaluate(front, target) {
      if Evaluate(front, target).Some? {
        WinnerAmongEquals(front, target, a);
      }
    }
  }

  /** Sorting the rules does not change which of them wins. */
  lemma SortingKeepsWinner(rules: seq<Rule>, target: string)
    ensures Evaluate(Sort(Before, rules), target) == Evaluate(rules, target)
  {
    var sorted := Sort(Before, rules);
    BeforeIsPreorder();
    SortKeepsElements(Before, rules);
    forall r
      ensures r in rules <==> r in sorted
    {
      assert r in rules <==> r in multiset(rules);
      assert r in sorted <==> r in multiset(sorted);
    }
    DecisionIgnoresOrder(sorted, rules, target);
    if Evaluate(rules, target).Some? {
      var a := Evaluate(rules, target).value;
      WinnerAmongEquals(rules, target, a);
      WinnerAmongEquals(sorted, target, a);
      SortStable(Before, rules, a);
    }
  }
}
