/** When a reload succeeds. Over every interleaving, a generation fails exactly when some
    subscriber registered at the time does not accept its configuration. */
module ReloadVerdicts {
  import opened Prelude
  import opened Subscribers
  import opened ConfigReload
  import opened ReloadSafety

  ghost predicate Rejected(members: seq<Subscriber>, order: seq<nat>, config: AppConfig) {
    exists j :: 0 <= j < |order| && order[j] < |members| && !Accepts(members[order[j]], config)
  }

  ghost predicate AcceptedBy(members: seq<Subscriber>, order: seq<nat>, config: AppConfig, n: nat) {
    forall j :: 0 <= j < n && j < |order| && order[j] < |members| ==> Accepts(members[order[j]], config)
  }

  /** The subscribers called are those registered when the reload was arranged. */
  predicate OrderOf(members: seq<Subscriber>, order: seq<nat>) {
    |order| <= |members| && order == Order(members[..|order|])
  }

  predicate Underway(s: State, e: Event)
    requires e.Arranged?
  {
    (s.phase.Preparing? || s.phase.Committing?) && e.gen == s.phase.next.generation
  }

  /** A reload under way has been accepted by all it has asked; a finished one failed exactly
      when it was rejected, and was published otherwise. */
  ghost predicate Judged(s: State, e: Event)
    requires e.Arranged?
  {
    && e.gen <= s.counter && (s.phase.Allocated? ==> e.gen < s.counter)
    && OrderOf(s.members, e.order)
    && if Underway(s, e) then
         && e.config == s.phase.next.config && e.order == s.phase.order
         && AcceptedBy(s.members, e.order, e.config, if s.phase.Preparing? then s.phase.done else |e.order|)
       else
         && (Tally(s.log, e.gen).failed != [] <==> Rejected(s.members, e.order, e.config))
         && (Tally(s.log, e.gen).failed == [] ==> Published(e.gen, e.config, e.order) in s.log)
  }

  ghost predicate AllJudged(s: State) {
    forall k :: 0 <= k < |s.log| && s.log[k].Arranged? ==> Judged(s, s.log[k])
  }

  ghost predicate IsArranged(log: seq<Event>, g: nat) {
    exists k :: 0 <= k < |log| && log[k].Arranged? && log[k].gen == g
  }

  ghost predicate EachArranged(s: State) {
    forall g :: 2 <= g <= s.counter && !(s.phase.Allocated? && g == s.counter) ==> IsArranged(s.log, g)
  }

  // ---- Every step keeps it ----

  lemma KindsStay(members: seq<Subscriber>, members': seq<Subscriber>, order: seq<nat>, config: AppConfig, n: nat)
    requires SamePriorities(members, members') && OrderOf(members, order)
    ensures OrderOf(members', order)
    ensures Rejected(members', order, config) <==> Rejected(members, order, config)
    ensures AcceptedBy(members', order, config, n) <==> AcceptedBy(members, order, config, n)
  {
    OrderByPriority(members[..|order|], members'[..|order|]);
    OrderPermutes(members[..|order|]);
    forall j | 0 <= j < |order|
      ensures order[j] < |members| && (Accepts(members[order[j]], config) <==> Accepts(members'[order[j]], config))
    {
      SameKind(members[order[j]], members'[order[j]], config);
    }
  }

  /** An event about another generation, or about none, leaves a finished reload judged. */
  lemma FinishedStays(s: State, s': State, e: Event)
    requires e.Arranged? && Judged(s, e) && !Underway(s, e) && !Underway(s', e)
    requires SamePriorities(s.members, s'.members) && s.log <= s'.log
    requires Tally(s'.log, e.gen).failed == Tally(s.log, e.gen).failed
    requires s.counter <= s'.counter && (s'.phase.Allocated? ==> e.gen < s'.counter)
    ensures Judged(s', e)
  {
    KindsStay(s.members, s'.members, e.order, e.config, 0);
  }

  lemma TallyOf(log: seq<Event>, e: Event, g: nat)
    ensures Tally(log + [e], g) == Add(Tally(log, g), e, g)
  {
    LogSnoc(log, e);
  }

  lemma NewGeneration(s: State, config: AppConfig, e: Event)
    requires Enabled(s, Begin(config)) && e.Arranged? && Judged(s, e)
    ensures Judged(Next(s, Begin(config)), e)
  {
    FinishedStays(s, Next(s, Begin(config)), e);
  }

  lemma ArrangedOld(s: State, e: Event)
    requires Enabled(s, Arrange) && LogInv(s) && e.Arranged? && Judged(s, e)
    ensures Judged(Next(s, Arrange), e)
  {
    TallyOf(s.log, Next(s, Arrange).log[|s.log|], e.gen);
    FinishedStays(s, Next(s, Arrange), e);
  }

  lemma ArrangedNew(s: State)
    requires Enabled(s, Arrange) && LogInv(s)
    ensures Judged(Next(s, Arrange), Next(s, Arrange).log[|s.log|])
  {
    OrderPermutes(s.members);
    assert s.members[..|s.members|] == s.members;
  }

  lemma PreparedOther(s: State, listing: seq<string>, e: Event)
    requires Enabled(s, PrepareNext(listing)) && LogInv(s) && e.Arranged? && Judged(s, e) && !Underway(s, e)
    ensures Judged(Next(s, PrepareNext(listing)), e)
  {
    var s' := Next(s, PrepareNext(listing));
    StepPriorities(s, PrepareNext(listing));
    TallyOf(s.log, s'.log[|s.log|], e.gen);
    FinishedStays(s, s', e);
  }

  lemma PreparedThis(s: State, listing: seq<string>, e: Event)
    requires Enabled(s, PrepareNext(listing)) && LogInv(s) && e.Arranged? && Judged(s, e) && Underway(s, e)
    ensures Judged(Next(s, PrepareNext(listing)), e)
  {
    var s', m := Next(s, PrepareNext(listing)), s.phase.order[s.phase.done];
    StepPriorities(s, PrepareNext(listing));
    TallyOf(s.log, s'.log[|s.log|], e.gen);
    PreparesIff(s.members[m], s.phase.next.config, listing);
    KindsStay(s.members, s'.members, e.order, e.config, s.phase.done + 1);
    OneMoreAnswer(s.members, e.order, e.config, s.phase.done);
  }

  lemma OneMoreAnswer(members: seq<Subscriber>, order: seq<nat>, config: AppConfig, done: nat)
    requires done < |order| && order[done] < |members| && AcceptedBy(members, order, config, done)
    ensures if Accepts(members[order[done]], config) then AcceptedBy(members, order, config, done + 1)
            else Rejected(members, order, config)
  {
  }

  lemma CommittedAny(s: State, listing: seq<string>, e: Event)
    requires Enabled(s, CommitNext(listing)) && LogInv(s) && e.Arranged? && Judged(s, e)
    ensures Judged(Next(s, CommitNext(listing)), e)
  {
    var s' := Next(s, CommitNext(listing));
    StepPriorities(s, CommitNext(listing));
    TallyOf(s.log, s'.log[|s.log|], e.gen);
    if Underway(s, e) {
      KindsStay(s.members, s'.members, e.order, e.config, |e.order|);
    } else {
      FinishedStays(s, s', e);
    }
  }

  lemma PublishedAny(s: State, e: Event)
    requires Enabled(s, Publish) && LogInv(s) && e.Arranged? && Judged(s, e)
    ensures Judged(Next(s, Publish), e)
  {
    var s' := Next(s, Publish);
    TallyOf(s.log, s'.log[|s.log|], e.gen);
    if Underway(s, e) {
      assert s'.log[|s.log|] == Published(e.gen, e.config, e.order);
      OrderPermutes(s.members);
    } else {
      FinishedStays(s, s', e);
    }
  }

  lemma OtherStep(s: State, l: Label, e: Event)
    requires Enabled(s, l) && LogInv(s) && e.Arranged? && Judged(s, e)
    requires l.StartCommit? || l.Finish? || l.Observe? || l.Register?
    ensures Judged(Next(s, l), e)
  {
    var s' := Next(s, l);
    StepPriorities(s, l);
    if l.Observe? {
      TallyOf(s.log, s'.log[|s.log|], e.gen);
    }
    if Underway(s, e) {
      OrderPermutes(s.members);
    } else {
      FinishedStays(s, s', e);
    }
  }

  lemma JudgedStep(s: State, l: Label, e: Event)
    requires Enabled(s, l) && LogInv(s) && e.Arranged? && Judged(s, e)
    ensures Judged(Next(s, l), e)
  {
    match l
    case Begin(config) => NewGeneration(s, config, e);
    case Arrange => ArrangedOld(s, e);
    case PrepareNext(listing) =>
      if Underway(s, e) {
        PreparedThis(s, listing, e);
      } else {
        PreparedOther(s, listing, e);
      }
    case CommitNext(listing) => CommittedAny(s, listing, e);
    case Publish => PublishedAny(s, e);
    case _ => OtherStep(s, l, e);
  }

  lemma VerdictStep(s: State, l: Label)
    requires Enabled(s, l) && LogInv(s) && AllJudged(s)
    ensures AllJudged(Next(s, l))
  {
    var s' := Next(s, l);
    forall k | 0 <= k < |s'.log| && s'.log[k].Arranged?
      ensures Judged(s', s'.log[k])
    {
      if k < |s.log| {
        assert s'.log[k] == s.log[k];
        JudgedStep(s, l, s.log[k]);
      } else {
        ArrangedNew(s);
      }
    }
  }

  lemma ArrangedStep(s: State, l: Label)
    requires Enabled(s, l) && LogInv(s) && EachArranged(s)
    ensures EachArranged(Next(s, l))
  {
    var s' := Next(s, l);
    forall g | 2 <= g <= s'.counter && !(s'.phase.Allocated? && g == s'.counter)
      ensures IsArranged(s'.log, g)
    {
      if l.Arrange? && g == s.counter {
        assert s'.log[|s.log|].Arranged?;
      } else {
        assert IsArranged(s.log, g);
        var k :| 0 <= k < |s.log| && s.log[k].Arranged? && s.log[k].gen == g;
        assert s'.log[k] == s.log[k];
      }
    }
  }

  lemma {:induction false} VerdictsHold(config: AppConfig, run: seq<Label>)
    requires Valid(Init(config), run)
    ensures AllJudged(Final(Init(config), run)) && EachArranged(Final(Init(config), run))
    decreases |run|
  {
    if run != [] {
      var front, last := run[..|run| - 1], run[|run| - 1];
      VerdictsHold(config, front);
      Reachable(config, front);
      VerdictStep(Final(Init(config), front), last);
      ArrangedStep(Final(Init(config), front), last);
    }
  }

  // ---- The verdict ----

  ghost predicate SomeRejects(members: seq<Subscriber>, n: nat, config: AppConfig) {
    exists i :: 0 <= i < n && i < |members| && !Accepts(members[i], config)
  }

  lemma RejectedBySome(members: seq<Subscriber>, order: seq<nat>, config: AppConfig)
    requires OrderOf(members, order)
    ensures Rejected(members, order, config) <==> SomeRejects(members, |order|, config)
  {
    var first := members[..|order|];
    OrderPermutes(first);
    if Rejected(members, order, config) {
      var j :| 0 <= j < |order| && order[j] < |members| && !Accepts(members[order[j]], config);
      assert order[j] < |order|;
    }
    if SomeRejects(members, |order|, config) {
      var i :| 0 <= i < |order| && i < |members| && !Accepts(members[i], config);
      OrderCovers(first, i);
      var j :| 0 <= j < |order| && order[j] == i;
    }
  }

  /** Over every interleaving, once no reload is under way: each generation was arranged with
      one configuration, for the subscribers registered by then; it failed exactly when one
      of those does not accept that configuration, and published it otherwise. */
  lemma ReloadFailsIff(config: AppConfig, run: seq<Label>, g: nat) returns (c: AppConfig, n: nat)
    requires Valid(Init(config), run) && Final(Init(config), run).phase.Idle?
    requires 2 <= g <= Final(Init(config), run).counter
    ensures var s := Final(Init(config), run);
            && n <= |s.members| && Arranged(g, c, Order(s.members[..n])) in s.log
            && (Tally(s.log, g).failed != [] <==> SomeRejects(s.members, n, c))
            && (Tally(s.log, g).failed == [] ==> Published(g, c, Order(s.members[..n])) in s.log)
  {
    var s := Final(Init(config), run);
    VerdictsHold(config, run);
    assert IsArranged(s.log, g);
    var k :| 0 <= k < |s.log| && s.log[k].Arranged? && s.log[k].gen == g;
    var e := s.log[k];
    assert Judged(s, e);
    c, n := e.config, |e.order|;
    RejectedBySome(s.members, e.order, e.config);
  }
}
