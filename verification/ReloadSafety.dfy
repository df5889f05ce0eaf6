/** Safety of the reload protocol over every interleaving of reloads, readers and
    registrations. */
module ReloadSafety {
  import opened Prelude
  import opened StableSort
  import Auth
  import FeatureGate
  import opened ProviderRegistry
  import opened Subscribers
  import opened ConfigReload

  // ---- Reading the log ----

  /** What the log records about one generation. */
  datatype Account = Account(prepared: seq<nat>, failed: seq<nat>, committed: seq<nat>, published: seq<seq<nat>>)

  const NOTHING: Account := Account([], [], [], [])

  function Add(a: Account, e: Event, g: nat): Account {
    match e
    case Prepared(m, gen, ok) =>
      if gen != g then a else if ok then a.(prepared := a.prepared + [m]) else a.(failed := a.failed + [m])
    case Committed(m, gen) => if gen != g then a else a.(committed := a.committed + [m])
    case Published(gen, _, order) => if gen != g then a else a.(published := a.published + [order])
    case Observed(_) => a
    case Arranged(_, _, _) => a
  }

  function Tally(log: seq<Event>, g: nat): Account {
    if log == [] then NOTHING else Add(Tally(log[..|log| - 1], g), log[|log| - 1], g)
  }

  /** The configurations published with member `i` among the subscribers. */
  function ConfigsFor(log: seq<Event>, i: nat): seq<AppConfig> {
    if log == [] then [] else
    var last := log[|log| - 1];
    ConfigsFor(log[..|log| - 1], i) + (if last.Published? && i < |last.order| then [last.config] else [])
  }

  function LastPublished(log: seq<Event>): Option<Event> {
    if log == [] then None
    else if log[|log| - 1].Published? then Some(log[|log| - 1])
    else LastPublished(log[..|log| - 1])
  }

  lemma LogSnoc(log: seq<Event>, e: Event)
    ensures (log + [e])[..|log + [e]| - 1] == log
    ensures forall g :: Tally(log + [e], g) == Add(Tally(log, g), e, g)
    ensures forall i: nat ::
              ConfigsFor(log + [e], i)
              == ConfigsFor(log, i) + (if e.Published? && i < |e.order| then [e.config] else [])
    ensures LastPublished(log + [e]) == if e.Published? then Some(e) else LastPublished(log)
  {
    assert (log + [e])[..|log + [e]| - 1] == log;
  }

  // ---- Every finished reload is all or nothing ----

  /** Either some prepare failed and nobody committed, or everybody prepared, then everybody
      committed in the same stable priority order, and the snapshot was published once. */
  predicate Settled(a: Account, members: seq<Subscriber>) {
    || (a.failed != [] && a.committed == [] && a.published == [])
    || (&& a.failed == [] && |a.published| == 1
        && a.prepared == a.committed == a.published[0]
        && |a.published[0]| <= |members|
        && a.published[0] == Order(members[..|a.published[0]|]))
  }

  predicate InProgress(p: Phase) {
    p.Allocated? || p.Preparing? || p.Committing?
  }

  ghost predicate LogInv(s: State) {
    && s.counter >= 1
    && (forall g :: g > s.counter ==> Tally(s.log, g) == NOTHING)
    && (forall g :: 2 <= g <= s.counter && !(InProgress(s.phase) && g == s.counter) ==>
          Settled(Tally(s.log, g), s.members))
    && match s.phase
       case Idle => true
       case Allocated(next) => next.generation == s.counter && s.counter >= 2 && Tally(s.log, s.counter) == NOTHING
       case Preparing(next, order, done) =>
         && next.generation == s.counter && s.counter >= 2 && done <= |order| && order == Order(s.members)
         && Tally(s.log, s.counter) == Account(order[..done], [], [], [])
       case Committing(next, order, done) =>
         && next.generation == s.counter && s.counter >= 2 && done <= |order| && order == Order(s.members)
         && Tally(s.log, s.counter) == Account(order, [], order[..done], [])
       case Stored(next) => next.generation == s.counter
  }

  ghost predicate SamePriorities(a: seq<Subscriber>, b: seq<Subscriber>) {
    |a| <= |b| && forall i :: 0 <= i < |a| ==> Priority(a[i]) == Priority(b[i])
  }

  /** Every kind of subscriber has its own priority. */
  lemma SameKind(a: Subscriber, b: Subscriber, config: AppConfig)
    requires Priority(a) == Priority(b)
    ensures Accepts(a, config) <==> Accepts(b, config)
  {
  }

  lemma OrderByPriority(a: seq<Subscriber>, b: seq<Subscriber>)
    requires SamePriorities(a, b) && |a| == |b|
    ensures Order(a) == Order(b)
  {
    assert Slots(a) == Slots(b);
  }

  lemma SettledStays(a: Account, members: seq<Subscriber>, members': seq<Subscriber>)
    requires Settled(a, members) && SamePriorities(members, members')
    ensures Settled(a, members')
  {
    if a.failed == [] {
      var n := |a.published[0]|;
      OrderByPriority(members[..n], members'[..n]);
    }
  }

  lemma StepPriorities(s: State, l: Label)
    requires Enabled(s, l)
    ensures SamePriorities(s.members, Next(s, l).members)
  {
  }

  lemma OthersSettled(s: State, members: seq<Subscriber>)
    requires LogInv(s) && SamePriorities(s.members, members)
    ensures forall g :: 2 <= g <= s.counter && !(InProgress(s.phase) && g == s.counter) ==>
              Settled(Tally(s.log, g), members)
  {
    forall g | 2 <= g <= s.counter && !(InProgress(s.phase) && g == s.counter)
      ensures Settled(Tally(s.log, g), members)
    {
      SettledStays(Tally(s.log, g), s.members, members);
    }
  }

  lemma LogStepQuiet(s: State, l: Label)
    requires Enabled(s, l) && LogInv(s)
    requires l.Begin? || l.Arrange? || l.StartCommit? || l.Finish? || l.Observe? || l.Register?
    ensures LogInv(Next(s, l))
  {
    StepPriorities(s, l);
    OthersSettled(s, Next(s, l).members);
    match l
    case Observe => LogSnoc(s.log, Observed(s.published.generation));
    case Arrange => LogSnoc(s.log, Next(s, l).log[|s.log|]);
    case StartCommit => assert s.phase.order[..s.phase.done] == s.phase.order;
    case _ =>
  }

  /** One prepare has been answered, and the members kept their priorities. */
  lemma LogPrepared(s: State, s': State, ok: bool)
    requires LogInv(s) && s.phase.Preparing? && s.phase.done < |s.phase.order|
    requires s'.counter == s.counter && SamePriorities(s.members, s'.members) && |s'.members| == |s.members|
    requires s'.log == s.log + [Prepared(s.phase.order[s.phase.done], s.phase.next.generation, ok)]
    requires s'.phase == if ok then Preparing(s.phase.next, s.phase.order, s.phase.done + 1) else Idle
    ensures LogInv(s')
  {
    var order, done := s.phase.order, s.phase.done;
    LogSnoc(s.log, s'.log[|s.log|]);
    OthersSettled(s, s'.members);
    OrderByPriority(s.members, s'.members);
    assert order[..done + 1] == order[..done] + [order[done]];
  }

  lemma LogStepPrepare(s: State, listing: seq<string>)
    requires Enabled(s, PrepareNext(listing)) && LogInv(s)
    ensures LogInv(Next(s, PrepareNext(listing)))
  {
    var m := s.phase.order[s.phase.done];
    StepPriorities(s, PrepareNext(listing));
    LogPrepared(s, Next(s, PrepareNext(listing)), Prepare(s.members[m], s.phase.next.config, listing).Some?);
  }

  lemma LogCommitted(s: State, s': State)
    requires LogInv(s) && s.phase.Committing? && s.phase.done < |s.phase.order|
    requires s'.counter == s.counter && SamePriorities(s.members, s'.members) && |s'.members| == |s.members|
    requires s'.log == s.log + [Committed(s.phase.order[s.phase.done], s.phase.next.generation)]
    requires s'.phase == Committing(s.phase.next, s.phase.order, s.phase.done + 1)
    ensures LogInv(s')
  {
    var order, done := s.phase.order, s.phase.done;
    LogSnoc(s.log, s'.log[|s.log|]);
    OthersSettled(s, s'.members);
    OrderByPriority(s.members, s'.members);
    assert order[..done + 1] == order[..done] + [order[done]];
  }

  lemma LogStepCommit(s: State, listing: seq<string>)
    requires Enabled(s, CommitNext(listing)) && LogInv(s)
    ensures LogInv(Next(s, CommitNext(listing)))
  {
    StepPriorities(s, CommitNext(listing));
    LogCommitted(s, Next(s, CommitNext(listing)));
  }

  lemma LogStepPublish(s: State)
    requires Enabled(s, Publish) && LogInv(s)
    ensures LogInv(Next(s, Publish))
  {
    var order := s.phase.order;
    LogSnoc(s.log, Published(s.phase.next.generation, s.phase.next.config, order));
    OthersSettled(s, s.members);
    OrderPermutes(s.members);
    assert order[..s.phase.done] == order && s.members[..|order|] == s.members;
  }

  lemma LogStep(s: State, l: Label)
    requires Enabled(s, l) && LogInv(s)
    ensures LogInv(Next(s, l))
  {
    match l
    case PrepareNext(listing) => LogStepPrepare(s, listing);
    case CommitNext(listing) => LogStepCommit(s, listing);
    case Publish => LogStepPublish(s);
    case _ => LogStepQuiet(s, l);
  }

  // ---- Members adopt what is published, and nothing staged by a failed reload ----

  /** The configurations member `i` has committed so far. */
  function AppliedTo(log: seq<Event>, phase: Phase, i: nat): seq<AppConfig> {
    ConfigsFor(log, i) + Underway(phase, i)
  }

  /** The one it has committed of a reload not yet published. */
  function Underway(phase: Phase, i: nat): seq<AppConfig> {
    if phase.Committing? && phase.done <= |phase.order| && i in phase.order[..phase.done] then
          [phase.next.config] else []
  }

  ghost predicate Adopting(starts: seq<Subscriber>, members: seq<Subscriber>, log: seq<Event>, phase: Phase) {
    && |starts| == |members|
    && forall i :: 0 <= i < |members| ==> Adopted(starts[i], members[i], AppliedTo(log, phase, i))
  }

  ghost predicate AllSane(subscribers: seq<Subscriber>) {
    forall i :: 0 <= i < |subscribers| ==> Sane(subscribers[i])
  }

  ghost predicate OrdersBounded(log: seq<Event>, n: nat) {
    forall k :: 0 <= k < |log| && log[k].Published? ==> |log[k].order| <= n
  }

  ghost predicate StagedAt(members: seq<Subscriber>, m: nat, config: AppConfig) {
    m < |members| && StagedFor(members[m], config)
  }

  /** Who has staged this reload's configuration: all prepared so far, all yet to commit. */
  ghost predicate Staging(members: seq<Subscriber>, phase: Phase) {
    && (phase.Preparing? || phase.Committing? ==> phase.order == Order(members) && phase.done <= |phase.order|)
    && (phase.Preparing? ==> forall k :: 0 <= k < phase.done ==> StagedAt(members, phase.order[k], phase.next.config))
    && (phase.Committing? ==> forall k :: phase.done <= k < |phase.order| ==>
          StagedAt(members, phase.order[k], phase.next.config))
  }

  ghost predicate StateInv(s: State) {
    && AllSane(s.members) && AllSane(s.starts)
    && OrdersBounded(s.log, |s.members|)
    && Adopting(s.starts, s.members, s.log, s.phase)
    && Staging(s.members, s.phase)
  }

  lemma {:induction false} NoConfigsYet(log: seq<Event>, n: nat, i: nat)
    requires n <= i && OrdersBounded(log, n)
    ensures ConfigsFor(log, i) == []
    decreases |log|
  {
    if log != [] {
      NoConfigsYet(log[..|log| - 1], n, i);
    }
  }

  lemma OrderCovers(members: seq<Subscriber>, i: nat)
    requires i < |members|
    ensures i in Order(members)
  {
    var slots := Slots(members);
    var sorted := Sort(SlotLeq, slots);
    SortKeepsElements(SlotLeq, slots);
    assert slots[i] in multiset(slots) && slots[i] in multiset(sorted);
    var k :| 0 <= k < |sorted| && sorted[k] == slots[i];
    assert Order(members)[k] == i;
  }

  lemma ReplacedOrder(members: seq<Subscriber>, m: nat, sub: Subscriber)
    requires m < |members| && Priority(sub) == Priority(members[m])
    ensures Order(members[m := sub]) == Order(members)
  {
    OrderByPriority(members, members[m := sub]);
  }

  lemma PrepareStaging(members: seq<Subscriber>, phase: Phase, sub: Subscriber)
    requires phase.Preparing? && Staging(members, phase)
    requires phase.done < |phase.order| && phase.order[phase.done] < |members|
    requires StagedFor(sub, phase.next.config)
    requires Priority(sub) == Priority(members[phase.order[phase.done]])
    ensures Staging(members[phase.order[phase.done] := sub], Preparing(phase.next, phase.order, phase.done + 1))
  {
    var m, members' := phase.order[phase.done], members[phase.order[phase.done] := sub];
    ReplacedOrder(members, m, sub);
    forall k | 0 <= k < phase.done + 1
      ensures StagedAt(members', phase.order[k], phase.next.config)
    {
      assert k < phase.done ==> StagedAt(members, phase.order[k], phase.next.config);
    }
  }

  lemma CommitStaging(members: seq<Subscriber>, phase: Phase, sub: Subscriber)
    requires phase.Committing? && Staging(members, phase)
    requires phase.done < |phase.order| && phase.order[phase.done] < |members|
    requires Priority(sub) == Priority(members[phase.order[phase.done]])
    ensures Staging(members[phase.order[phase.done] := sub], Committing(phase.next, phase.order, phase.done + 1))
  {
    var m, members' := phase.order[phase.done], members[phase.order[phase.done] := sub];
    ReplacedOrder(members, m, sub);
    OrderPermutes(members);
    forall k | phase.done + 1 <= k < |phase.order|
      ensures StagedAt(members', phase.order[k], phase.next.config)
    {
      assert StagedAt(members, phase.order[k], phase.next.config);
    }
  }

  /** Replacing one member by one that has adopted what the new log and phase say it has. */
  lemma AdoptingReplaced(starts: seq<Subscriber>, members: seq<Subscriber>, log: seq<Event>, phase: Phase,
                         m: nat, sub: Subscriber, log': seq<Event>, phase': Phase)
    requires Adopting(starts, members, log, phase) && m < |members|
    requires Adopted(starts[m], sub, AppliedTo(log', phase', m))
    requires forall i :: 0 <= i < |members| && i != m ==> AppliedTo(log', phase', i) == AppliedTo(log, phase, i)
    ensures Adopting(starts, members[m := sub], log', phase')
  {
  }

  lemma QuietApplied(log: seq<Event>, phase: Phase, e: Event, phase': Phase, i: nat)
    requires !e.Published? && Underway(phase', i) == Underway(phase, i)
    ensures AppliedTo(log + [e], phase', i) == AppliedTo(log, phase, i)
  {
    LogSnoc(log, e);
  }

  lemma CommitApplied(log: seq<Event>, phase: Phase, n: nat, i: nat)
    requires phase.Committing? && Permutes(phase.order, n) && phase.done < |phase.order|
    ensures var m, e := phase.order[phase.done], Committed(phase.order[phase.done], phase.next.generation);
            AppliedTo(log + [e], Committing(phase.next, phase.order, phase.done + 1), i)
            == if i == m then AppliedTo(log, phase, i) + [phase.next.config] else AppliedTo(log, phase, i)
  {
    var order, done := phase.order, phase.done;
    LogSnoc(log, Committed(order[done], phase.next.generation));
    assert order[..done + 1] == order[..done] + [order[done]];
    assert forall k :: 0 <= k < done ==> order[..done][k] == order[k];
    assert order[done] !in order[..done];
  }

  lemma AdoptingCommitted(starts: seq<Subscriber>, members: seq<Subscriber>, log: seq<Event>, phase: Phase,
          sub: Subscriber)
    requires Adopting(starts, members, log, phase)
    requires phase.Committing? && phase.order == Order(members)
    requires phase.done < |phase.order| && phase.order[phase.done] < |members|
    requires var m := phase.order[phase.done]; Adopted(starts[m], sub, AppliedTo(log, phase, m) + [phase.next.config])
    ensures var m := phase.order[phase.done];
            var phase' := Committing(phase.next, phase.order, phase.done + 1);
            Adopting(starts, members[m := sub], log + [Committed(m, phase.next.generation)], phase')
  {
    var m := phase.order[phase.done];
    var log' := log + [Committed(m, phase.next.generation)];
    var phase' := Committing(phase.next, phase.order, phase.done + 1);
    OrderPermutes(members);
    CommitApplied(log, phase, |members|, m);
    forall i | 0 <= i < |members| && i != m
      ensures AppliedTo(log', phase', i) == AppliedTo(log, phase, i)
    {
      CommitApplied(log, phase, |members|, i);
    }
    AdoptingReplaced(starts, members, log, phase, m, sub, log', phase');
  }

  lemma AdoptingRegistered(starts: seq<Subscriber>, members: seq<Subscriber>, log: seq<Event>, phase: Phase,
          sub: Subscriber)
    requires Adopting(starts, members, log, phase) && OrdersBounded(log, |members|) && !phase.Committing?
    ensures Adopting(starts + [sub], members + [sub], log, phase)
  {
    var n := |members|;
    NoConfigsYet(log, n, n);
    assert AppliedTo(log, phase, n) == [];
    assert FeatureConfigs([]) == [];
    assert Adopted(sub, sub, []);
  }

  lemma StepRegister(s: State, subscriber: Subscriber)
    requires Enabled(s, Register(subscriber)) && StateInv(s)
    ensures StateInv(Next(s, Register(subscriber)))
  {
    AdoptingRegistered(s.starts, s.members, s.log, s.phase, subscriber);
  }

  lemma StepQuiet(s: State, l: Label)
    requires Enabled(s, l) && StateInv(s)
    requires l.Begin? || l.Arrange? || l.StartCommit? || l.Finish? || l.Observe?
    ensures StateInv(Next(s, l))
  {
    var s' := Next(s, l);
    forall i | 0 <= i < |s.members|
      ensures AppliedTo(s'.log, s'.phase, i) == AppliedTo(s.log, s.phase, i)
    {
      if l.Observe? {
        QuietApplied(s.log, s.phase, Observed(s.published.generation), s.phase, i);
      } else if l.Arrange? {
        QuietApplied(s.log, s.phase, s'.log[|s.log|], s'.phase, i);
      }
    }
  }

  lemma StepPrepare(s: State, listing: seq<string>)
    requires Enabled(s, PrepareNext(listing)) && StateInv(s)
    ensures StateInv(Next(s, PrepareNext(listing)))
  {
    var s', m := Next(s, PrepareNext(listing)), s.phase.order[s.phase.done];
    var prepared := Prepare(s.members[m], s.phase.next.config, listing);
    var e := Prepared(m, s.phase.next.generation, prepared.Some?);
    assert s'.log == s.log + [e];
    forall i | 0 <= i < |s.members|
      ensures AppliedTo(s'.log, s'.phase, i) == AppliedTo(s.log, s.phase, i)
    {
      QuietApplied(s.log, s.phase, e, s'.phase, i);
    }
    if prepared.Some? {
      PrepareStages(s.starts[m], s.members[m], AppliedTo(s.log, s.phase, m), s.phase.next.config, listing);
      PrepareStaging(s.members, s.phase, prepared.value);
      AdoptingReplaced(s.starts, s.members, s.log, s.phase, m, prepared.value, s'.log, s'.phase);
    }
  }

  lemma StepCommit(s: State, listing: seq<string>)
    requires Enabled(s, CommitNext(listing)) && StateInv(s)
    ensures StateInv(Next(s, CommitNext(listing)))
  {
    var s', m := Next(s, CommitNext(listing)), s.phase.order[s.phase.done];
    assert StagedAt(s.members, s.phase.order[s.phase.done], s.phase.next.config);
    CommitAdopts(s.starts[m], s.members[m], AppliedTo(s.log, s.phase, m), s.phase.next.config, listing);
    var committed := Commit(s.members[m], listing);
    CommitStaging(s.members, s.phase, committed);
    AdoptingCommitted(s.starts, s.members, s.log, s.phase, committed);
  }

  lemma PublishApplied(members: seq<Subscriber>, log: seq<Event>, phase: Phase, i: nat)
    requires phase.Committing? && phase.order == Order(members) && phase.done == |phase.order| && i < |members|
    ensures AppliedTo(log + [Published(phase.next.generation, phase.next.config, phase.order)], Stored(phase.next), i)
            == AppliedTo(log, phase, i)
  {
    LogSnoc(log, Published(phase.next.generation, phase.next.config, phase.order));
    OrderPermutes(members);
    OrderCovers(members, i);
    assert phase.order[..phase.done] == phase.order;
  }

  lemma StepPublish(s: State)
    requires Enabled(s, Publish) && StateInv(s)
    ensures StateInv(Next(s, Publish))
  {
    var s' := Next(s, Publish);
    OrderPermutes(s.members);
    forall i | 0 <= i < |s.members|
      ensures Adopted(s'.starts[i], s'.members[i], AppliedTo(s'.log, s'.phase, i))
    {
      PublishApplied(s.members, s.log, s.phase, i);
    }
  }

  lemma StateStep(s: State, l: Label)
    requires Enabled(s, l) && StateInv(s)
    ensures StateInv(Next(s, l))
  {
    match l
    case Register(subscriber) => StepRegister(s, subscriber);
    case PrepareNext(listing) => StepPrepare(s, listing);
    case CommitNext(listing) => StepCommit(s, listing);
    case Publish => StepPublish(s);
    case _ => StepQuiet(s, l);
  }

  // ---- What readers see ----

  predicate Visible(e: Event) {
    e.Published? || e.Observed?
  }

  /** Generations never go back, and each publication is newer than all seen before it. */
  ghost predicate Forward(log: seq<Event>) {
    forall i, j :: 0 <= i < j < |log| && Visible(log[i]) && Visible(log[j]) ==>
      log[i].gen <= log[j].gen && (log[j].Published? ==> log[i].gen < log[j].gen)
  }

  ghost predicate UpTo(log: seq<Event>, bound: nat) {
    forall k :: 0 <= k < |log| && Visible(log[k]) ==> log[k].gen <= bound
  }

  ghost predicate PublishedLast(log: seq<Event>, published: Snapshot) {
    match LastPublished(log)
    case None => true
    case Some(e) => e.Published? && published == Snapshot(e.gen, e.config)
  }

  ghost predicate SeenInv(s: State) {
    && s.published.generation <= s.counter
    && (InProgress(s.phase) ==> s.published.generation < s.phase.next.generation == s.counter)
    && (s.phase.Stored? ==> s.published == s.phase.next && s.phase.next.generation == s.counter)
    && UpTo(s.log, s.published.generation) && Forward(s.log) && PublishedLast(s.log, s.published)
  }

  lemma SeenSnoc(log: seq<Event>, published: Snapshot, e: Event, published': Snapshot)
    requires UpTo(log, published.generation) && Forward(log) && PublishedLast(log, published)
    requires if e.Published? then published' == Snapshot(e.gen, e.config) && published.generation < e.gen
             else published' == published && (e.Observed? ==> e.gen == published.generation)
    ensures UpTo(log + [e], published'.generation) && Forward(log + [e]) && PublishedLast(log + [e], published')
  {
    LogSnoc(log, e);
  }

  lemma SeenStep(s: State, l: Label)
    requires Enabled(s, l) && SeenInv(s)
    ensures SeenInv(Next(s, l))
  {
    match l
    case PrepareNext(listing) =>
      var m := s.phase.order[s.phase.done];
      var ready := Prepare(s.members[m], s.phase.next.config, listing).Some?;
      SeenSnoc(s.log, s.published, Prepared(m, s.phase.next.generation, ready), s.published);
    case CommitNext(_) =>
      SeenSnoc(s.log, s.published, Committed(s.phase.order[s.phase.done], s.phase.next.generation), s.published);
    case Publish =>
      var next := s.phase.next;
      SeenSnoc(s.log, s.published, Published(next.generation, next.config, s.phase.order), next);
    case Observe =>
      SeenSnoc(s.log, s.published, Observed(s.published.generation), s.published);
    case Arrange =>
      SeenSnoc(s.log, s.published, Next(s, l).log[|s.log|], s.published);
    case _ =>
  }

  // ---- Every reachable state ----

  ghost predicate Inv(s: State) {
    LogInv(s) && StateInv(s) && SeenInv(s)
  }

  lemma {:induction false} InvHolds(s: State, run: seq<Label>)
    requires Inv(s) && Valid(s, run)
    ensures Inv(Final(s, run))
    decreases |run|
  {
    if run != [] {
      var front, last := run[..|run| - 1], run[|run| - 1];
      InvHolds(s, front);
      LogStep(Final(s, front), last);
      StateStep(Final(s, front), last);
      SeenStep(Final(s, front), last);
    }
  }

  lemma InitInv(config: AppConfig)
    ensures Inv(Init(config))
  {
  }

  lemma Reachable(config: AppConfig, run: seq<Label>)
    requires Valid(Init(config), run)
    ensures Inv(Final(Init(config), run))
  {
    InitInv(config);
    InvHolds(Init(config), run);
  }

  // ---- The guarantees ----

  /** Over every run, once no reload is under way, each generation handed out so far either
      failed in its prepare phase and was neither committed nor published, or was prepared
      and committed by every subscriber exactly once, in stable priority order, and
      published once. */
  lemma ReloadsAreAllOrNothing(config: AppConfig, run: seq<Label>, g: nat)
    requires Valid(Init(config), run) && Final(Init(config), run).phase.Idle?
    requires 2 <= g <= Final(Init(config), run).counter
    ensures var s := Final(Init(config), run);
            Settled(Tally(s.log, g), s.members)
  {
    Reachable(config, run);
  }

  /** Whenever a commit is about to happen, every subscriber of this reload has prepared,
      none has failed, and what the next one will swap in was staged by this reload. */
  lemma CommitsFollowPrepares(config: AppConfig, run: seq<Label>, listing: seq<string>)
    requires Valid(Init(config), run) && Enabled(Final(Init(config), run), CommitNext(listing))
    ensures var s := Final(Init(config), run);
            var a := Tally(s.log, s.phase.next.generation);
            && s.phase.order == Order(s.members)
            && a.prepared == s.phase.order && a.failed == [] && a.committed == s.phase.order[..s.phase.done]
            && StagedAt(s.members, s.phase.order[s.phase.done], s.phase.next.config)
  {
    Reachable(config, run);
  }

  /** Published and observed generations only move forward. */
  lemma GenerationsMoveForward(config: AppConfig, run: seq<Label>)
    requires Valid(Init(config), run)
    ensures Forward(Final(Init(config), run).log)
  {
    Reachable(config, run);
  }

  lemma {:induction false} LastConfigFor(log: seq<Event>, i: nat)
    requires LastPublished(log).Some?
    ensures LastPublished(log).value.Published?
    ensures i < |LastPublished(log).value.order| ==>
              var configs := ConfigsFor(log, i);
              configs != [] && configs[|configs| - 1] == LastPublished(log).value.config
    decreases |log|
  {
    var front, last := log[..|log| - 1], log[|log| - 1];
    if !last.Published? {
      LastConfigFor(front, i);
      assert ConfigsFor(log, i) == ConfigsFor(front, i) + [];
    }
  }

  /** At rest, every subscriber of the last successful reload serves exactly the published
      configuration: its keys, never an enabled check with no keys; its limits; its
      providers, with the least of them as default. */
  lemma AtRestSubscribersAgree(config: AppConfig, run: seq<Label>, i: nat)
    requires Valid(Init(config), run)
    requires var s := Final(Init(config), run);
             && s.phase.Idle? && i < |s.members|
             && LastPublished(s.log).Some? && LastPublished(s.log).value.Published?
             && i < |LastPublished(s.log).value.order|
    ensures var s := Final(Init(config), run);
            var now := s.published.config;
            match s.members[i]
            case KeysSubscriber(r) => r.live == Auth.SnapshotOf(now.auth) && !Auth.KeylessLock(r.live)
            case LimitsSubscriber(limits, _) => limits == now.limits
            case FeaturesSubscriber(features, _) =>
              && i < |s.starts| && s.starts[i].FeaturesSubscriber?
              && features == FeatureGate.AppliedAll(s.starts[i].features, FeatureConfigs(ConfigsFor(s.log, i)))
            case ProvidersSubscriber(r) =>
              && r.targets == Built(now.providers)
              && (exists order ::
                    Enumerates(order, now.providers.Keys) && r.prefixes == Listed(Built(now.providers), order))
              && (now.providers.Keys != {} ==> r.defaultTarget == LeastTarget(now.providers))
  {
    Reachable(config, run);
    var s := Final(Init(config), run);
    LastConfigFor(s.log, i);
    assert AppliedTo(s.log, s.phase, i) == ConfigsFor(s.log, i);
    assert Adopted(s.starts[i], s.members[i], ConfigsFor(s.log, i));
  }

  /** At rest a flag has the value of the last published configuration that named it,
      else the value it was registered with. */
  lemma FlagsFollowPublished(config: AppConfig, run: seq<Label>, i: nat, flag: FeatureGate.Flag)
    requires Valid(Init(config), run)
    requires var s := Final(Init(config), run);
             && s.phase.Idle? && i < |s.members| && s.members[i].FeaturesSubscriber?
    ensures var s := Final(Init(config), run);
            i < |s.starts| && s.starts[i].FeaturesSubscriber? &&
            var latest := FeatureGate.Latest(s.starts[i].features, FeatureConfigs(ConfigsFor(s.log, i)), flag);
            FeatureGate.IsEnabled(s.members[i].features, flag)
            == if latest.Some? then latest.value else FeatureGate.IsEnabled(s.starts[i].features, flag)
  {
    Reachable(config, run);
    var s := Final(Init(config), run);
    assert AppliedTo(s.log, s.phase, i) == ConfigsFor(s.log, i);
    assert Adopted(s.starts[i], s.members[i], ConfigsFor(s.log, i));
    FeatureGate.LatestWins(s.starts[i].features, FeatureConfigs(ConfigsFor(s.log, i)), flag);
  }

  // ---- A failed reload changes nothing ----

  ghost predicate Quiet(e: Event) {
    !e.Committed? && !e.Published?
  }

  /** A step that neither commits nor publishes leaves everything requests see as it was. */
  lemma QuietStep(s: State, l: Label)
    requires Enabled(s, l) && StateInv(s) && !l.CommitNext? && !l.Publish?
    ensures var s' := Next(s, l);
            && s'.published == s.published
            && |s.members| <= |s'.members|
            && forall i :: 0 <= i < |s.members| ==> Live(s'.members[i]) == Live(s.members[i])
  {
    if l.PrepareNext? {
      var m := s.phase.order[s.phase.done];
      if Prepare(s.members[m], s.phase.next.config, l.listing).Some? {
        PrepareStages(s.starts[m], s.members[m], AppliedTo(s.log, s.phase, m), s.phase.next.config, l.listing);
      }
    }
  }

  ghost predicate Unchanged(s: State, t: State) {
    && t.published == s.published
    && |s.members| <= |t.members|
    && forall i :: 0 <= i < |s.members| ==> Live(t.members[i]) == Live(s.members[i])
  }

  /** Since `s`, the log records that a generation allocated since was committed or published. */
  ghost predicate ChangedSince(s: State, t: State) {
    exists k :: |s.log| <= k < |t.log| && !Quiet(t.log[k]) && s.counter < t.log[k].gen <= t.counter
  }

  ghost predicate Later(s: State, t: State) {
    s.counter <= t.counter && s.log <= t.log && (!t.phase.Idle? ==> s.counter < t.phase.next.generation == t.counter)
  }

  lemma LaterStep(s: State, mid: State, l: Label)
    requires Enabled(mid, l) && SeenInv(mid) && Later(s, mid)
    ensures Later(s, Next(mid, l))
    ensures mid.log <= Next(mid, l).log && mid.counter <= Next(mid, l).counter
  {
  }

  lemma LoudStep(s: State, mid: State, l: Label)
    requires Enabled(mid, l) && SeenInv(mid) && Later(s, mid) && (l.CommitNext? || l.Publish?)
    ensures ChangedSince(s, Next(mid, l))
  {
    var t, k := Next(mid, l), |mid.log|;
    assert !Quiet(t.log[k]) && t.log[k].gen == mid.phase.next.generation;
  }

  lemma ChangeStays(s: State, mid: State, t: State)
    requires ChangedSince(s, mid) && mid.log <= t.log && mid.counter <= t.counter
    ensures ChangedSince(s, t)
  {
    var k :| |s.log| <= k < |mid.log| && !Quiet(mid.log[k]) && s.counter < mid.log[k].gen <= mid.counter;
    assert t.log[k] == mid.log[k];
  }

  /** From a state at rest, a run only adds to the log, works on fresh generations, and
      changes what is served only by committing or publishing one of them. */
  lemma {:induction false} RunFromRest(s: State, run: seq<Label>)
    requires Inv(s) && s.phase.Idle? && Valid(s, run)
    ensures Inv(Final(s, run)) && Later(s, Final(s, run))
    ensures Unchanged(s, Final(s, run)) || ChangedSince(s, Final(s, run))
    decreases |run|
  {
    if run != [] {
      var front, last := run[..|run| - 1], run[|run| - 1];
      RunFromRest(s, front);
      InvHolds(s, run);
      var mid, t := Final(s, front), Final(s, run);
      LaterStep(s, mid, last);
      if last.CommitNext? || last.Publish? {
        LoudStep(s, mid, last);
      } else if ChangedSince(s, mid) {
        ChangeStays(s, mid, t);
      } else {
        QuietStep(mid, last);
      }
    }
  }

  lemma {:induction false} TallyRecords(log: seq<Event>, k: nat)
    requires k < |log| && !Quiet(log[k])
    ensures Tally(log, log[k].gen).committed != [] || Tally(log, log[k].gen).published != []
    decreases |log|
  {
    if k < |log| - 1 {
      TallyRecords(log[..|log| - 1], k);
    }
  }

  /** However many reloads are attempted, with whatever readers and registrations among
      them, if none succeeds then the published snapshot and every live setting are what
      they were. */
  lemma FailedReloadsChangeNothing(config: AppConfig, before: seq<Label>, run: seq<Label>)
    requires Valid(Init(config), before)
    requires var s := Final(Init(config), before);
             && s.phase.Idle? && Valid(s, run) && Final(s, run).phase.Idle?
             && forall g :: s.counter < g <= Final(s, run).counter ==> Tally(Final(s, run).log, g).failed != []
    ensures Unchanged(Final(Init(config), before), Final(Final(Init(config), before), run))
  {
    Reachable(config, before);
    var s := Final(Init(config), before);
    RunFromRest(s, run);
    var t := Final(s, run);
    if ChangedSince(s, t) {
      var k :| |s.log| <= k < |t.log| && !Quiet(t.log[k]) && s.counter < t.log[k].gen <= t.counter;
      TallyRecords(t.log, k);
    }
  }
}
