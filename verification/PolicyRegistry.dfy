/** The versioned policy registry of src/policy/policy_registry.rs, with its append-only
    history. Wall-clock readings are parameters. */
module PolicyRegistry {
  import opened Prelude
  import opened PolicyIR

  datatype Snapshot = Snapshot(version: nat, policies: seq<Stored>, createdAt: nat)

  datatype State = State(version: nat, policies: seq<Stored>, history: seq<Snapshot>)

  function Initial(now: nat): State {
    State(1, [], [Snapshot(1, [], now)])
  }

  /** `retain(|p| p.id != id)`. */
  function Without(policies: seq<Stored>, id: string): seq<Stored> {
    if policies == [] then [] else
    var front, last := policies[..|policies| - 1], policies[|policies| - 1];
    Without(front, id) + (if last.id != id then [last] else [])
  }

  predicate HasId(policies: seq<Stored>, id: string) {
    exists i :: 0 <= i < |policies| && policies[i].id == id
  }

  datatype Mutation =
    | Upsert(id: string, name: string, rule: StoredRule, at: nat)
    | Remove(id: string, at: nat)

  /** What one mutation does to the list of active policies. */
  function Mutated(policies: seq<Stored>, m: Mutation): seq<Stored> {
    match m
    case Upsert(id, name, rule, _) => Without(policies, id) + [Stored(id, name, rule)]
    case Remove(id, _) => Without(policies, id)
  }

  /** The registry after it: the next version, and its snapshot appended. */
  function Recorded(s: State, m: Mutation): State {
    var policies, version := Mutated(s.policies, m), s.version + 1;
    State(version, policies, s.history + [Snapshot(version, policies, m.at)])
  }

  method RetainOthers(policies: seq<Stored>, id: string) returns (kept: seq<Stored>)
    ensures kept == Without(policies, id)
  {
    kept := [];
    for i := 0 to |policies|
      invariant kept == Without(policies[..i], id)
    {
      assert policies[..i + 1][..i] == policies[..i];
      if policies[i].id != id {
        kept := kept + [policies[i]];
      }
    }
    assert policies[..|policies|] == policies;
  }

  class Registry {
    var version: nat
    var policies: seq<Stored>
    var history: seq<Snapshot>

    ghost function View(): State
      reads this
    {
      State(version, policies, history)
    }

    constructor (now: nat)
      ensures View() == Initial(now)
    {
      version, policies, history := 1, [], [Snapshot(1, [], now)];
    }

    method ApplyPolicy(id: string, name: string, rule: StoredRule, now: nat) returns (snapshot: Snapshot)
      modifies this
      ensures View() == Recorded(old(View()), Upsert(id, name, rule, now))
      ensures snapshot == history[|history| - 1]
    {
      policies := RetainOthers(policies, id);
      policies := policies + [Stored(id, name, rule)];
      version := version + 1;
      snapshot := Snapshot(version, policies, now);
      history := history + [snapshot];
    }

    method RemovePolicy(id: string, now: nat) returns (snapshot: Snapshot)
      modifies this
      ensures View() == Recorded(old(View()), Remove(id, now))
      ensures snapshot == history[|history| - 1]
    {
      policies := RetainOthers(policies, id);
      version := version + 1;
      snapshot := Snapshot(version, policies, now);
      history := history + [snapshot];
    }

    method CurrentSnapshot(now: nat) returns (snapshot: Snapshot)
      ensures snapshot == Snapshot(version, policies, now)
    {
      snapshot := Snapshot(version, policies, now);
    }

    /** The first snapshot in the history with that version. */
    method SnapshotAt(version: nat) returns (found: Option<Snapshot>)
      ensures found.None? ==> forall i :: 0 <= i < |history| ==> history[i].version != version
      ensures found.Some? ==>
                exists i :: 0 <= i < |history| && history[i] == found.value && history[i].version == version
                            && forall k :: 0 <= k < i ==> history[k].version != version
    {
      for i := 0 to |history|
        invariant forall k :: 0 <= k < i ==> history[k].version != version
      {
        if history[i].version == version {
          return Some(history[i]);
        }
      }
      found := None;
    }

    method HasPolicy(id: string) returns (has: bool)
      ensures has <==> HasId(policies, id)
    {
      for i := 0 to |policies|
        invariant forall k :: 0 <= k < i ==> policies[k].id != id
      {
        if policies[i].id == id {
          return true;
        }
      }
      has := false;
    }

    /** The rules handed to the compiler: none without policies, an error when any stored
        rule does not compile. */
    method PolicyIr(now: nat) returns (ir: Result<Option<seq<Rule>>, seq<Problem>>)
      ensures policies == [] ==> ir == Ok(None)
      ensures policies != [] ==>
                match Compile(policies)
                case Ok(rules) => ir == Ok(Some(rules))
                case Err(problems) => ir == Err(problems)
    {
      var snap := CurrentSnapshot(now);
      if snap.policies == [] {
        return Ok(None);
      }
      var compiled := FromPolicySnapshot(snap.policies);
      match compiled
      case Ok(rules) => ir := Ok(Some(rules));
      case Err(problems) => ir := Err(problems);
    }
  }

  // ---- History ----

  function RecordedAll(s: State, ms: seq<Mutation>): State {
    if ms == [] then s else Recorded(RecordedAll(s, ms[..|ms| - 1]), ms[|ms| - 1])
  }

  /** The active policies, as the mutations alone determine them. */
  function Folded(ms: seq<Mutation>): seq<Stored> {
    if ms == [] then [] else Mutated(Folded(ms[..|ms| - 1]), ms[|ms| - 1])
  }

  ghost predicate UniqueIds(policies: seq<Stored>) {
    forall i, j :: 0 <= i < j < |policies| ==> policies[i].id != policies[j].id
  }

  lemma {:induction false} WithoutSpec(policies: seq<Stored>, id: string)
    ensures forall p :: p in Without(policies, id) <==> p in policies && p.id != id
    ensures UniqueIds(policies) ==> UniqueIds(Without(policies, id))
    decreases |policies|
  {
    if policies != [] {
      var front, last := policies[..|policies| - 1], policies[|policies| - 1];
      WithoutSpec(front, id);
      assert policies == front + [last];
      if UniqueIds(policies) {
        assert UniqueIds(front);
        forall i | 0 <= i < |Without(front, id)|
          ensures Without(front, id)[i].id != last.id
        {
          assert Without(front, id)[i] in front;
        }
      }
    }
  }

  lemma MutatedUnique(policies: seq<Stored>, m: Mutation)
    requires UniqueIds(policies)
    ensures UniqueIds(Mutated(policies, m))
  {
    WithoutSpec(policies, m.id);
    var kept := Without(policies, m.id);
    assert forall i :: 0 <= i < |kept| ==> kept[i] in kept;
  }

  /** The k-th mutation stored the policy, and none since has touched its id. */
  ghost predicate StoredBy(ms: seq<Mutation>, p: Stored, k: nat) {
    && k < |ms| && ms[k].Upsert? && p == Stored(ms[k].id, ms[k].name, ms[k].rule)
    && forall j :: k < j < |ms| ==> ms[j].id != p.id
  }

  ghost predicate IsStored(ms: seq<Mutation>, p: Stored) {
    exists k: nat :: StoredBy(ms, p, k)
  }

  lemma StoredSnoc(ms: seq<Mutation>, last: Mutation, p: Stored)
    ensures IsStored(ms + [last], p) <==>
            if p.id != last.id then IsStored(ms, p)
            else last.Upsert? && p == Stored(last.id, last.name, last.rule)
  {
    var all := ms + [last];
    if p.id != last.id {
      if IsStored(ms, p) {
        var k: nat :| StoredBy(ms, p, k);
        assert StoredBy(all, p, k);
      }
      if IsStored(all, p) {
        var k: nat :| StoredBy(all, p, k);
        assert all[k] == ms[k] && forall j :: k < j < |ms| ==> all[j] == ms[j];
        assert StoredBy(ms, p, k);
      }
    } else {
      if IsStored(all, p) {
        var k: nat :| StoredBy(all, p, k);
        assert k == |ms| by { assert all[|ms|] == last; }
      }
      if last.Upsert? && p == Stored(last.id, last.name, last.rule) {
        assert StoredBy(all, p, |ms|);
      }
    }
  }

  /** A policy is active exactly when the last mutation of its id stored it as it is. */
  lemma {:induction false} ActiveIff(ms: seq<Mutation>, p: Stored)
    ensures p in Folded(ms) <==> IsStored(ms, p)
    decreases |ms|
  {
    if ms != [] {
      var front, last := ms[..|ms| - 1], ms[|ms| - 1];
      ActiveIff(front, p);
      WithoutSpec(Folded(front), last.id);
      assert ms == front + [last];
      StoredSnoc(front, last, p);
    }
  }

  /** In every run, entry v-1 of the history has version v and is the fold of the first v-1
      mutations, taken when the last of them was made, whatever came later; ids are unique;
      and the current version and rules are the last entry's. */
  lemma {:induction false} HistoryReplays(now: nat, ms: seq<Mutation>, v: nat)
    requires 1 <= v <= |ms| + 1
    ensures var s := RecordedAll(Initial(now), ms);
            && |s.history| == |ms| + 1 == s.version
            && s.history[v - 1].version == v
            && s.history[v - 1].policies == Folded(ms[..v - 1])
            && s.history[v - 1].createdAt == (if v == 1 then now else ms[v - 2].at)
            && s.policies == Folded(ms) == s.history[|ms|].policies
            && UniqueIds(s.policies)
    decreases |ms|
  {
    if ms == [] {
      assert ms[..0] == [];
    } else {
      var front := ms[..|ms| - 1];
      HistoryReplays(now, front, if v <= |ms| then v else 1);
      MutatedUnique(Folded(front), ms[|ms| - 1]);
      if v <= |ms| {
        assert front[..v - 1] == ms[..v - 1];
      } else {
        assert ms[..v - 1] == ms;
      }
    }
  }

  /** In every run the current version and rules are those of the last history entry, which is
      the only entry of that version: looking the current version up finds the current rules. */
  lemma CurrentIsRecorded(now: nat, ms: seq<Mutation>, i: nat)
    requires i < |RecordedAll(Initial(now), ms).history|
    ensures var s := RecordedAll(Initial(now), ms);
            && (s.history[i].version == s.version <==> i == |s.history| - 1)
            && (s.history[i].version == s.version ==> s.history[i].policies == s.policies)
  {
    HistoryReplays(now, ms, 1);
    HistoryReplays(now, ms, i + 1);
  }

  /** No later mutation rewrites an earlier snapshot. */
  lemma {:induction false} HistoryOnlyGrows(s: State, ms: seq<Mutation>)
    ensures s.history <= RecordedAll(s, ms).history
    decreases |ms|
  {
    if ms != [] {
      HistoryOnlyGrows(s, ms[..|ms| - 1]);
    }
  }

  /** Versions name history entries one to one, so a lookup finds entry v-1 or nothing. */
  lemma LookupIsPositional(now: nat, ms: seq<Mutation>, i: nat, v: nat)
    requires i < |RecordedAll(Initial(now), ms).history|
    requires RecordedAll(Initial(now), ms).history[i].version == v
    ensures i == v - 1 && 1 <= v <= |ms| + 1
  {
    HistoryReplays(now, ms, 1);
    HistoryReplays(now, ms, i + 1);
  }
}
