/** The configuration manager object of src/config/manager.rs. A reload that nothing
    interrupts is one run of the step machine. */
module ConfigManager {
  import opened Prelude
  import opened Subscribers
  import opened ConfigReload
  import opened ReloadSafety

  lemma RunSnoc(s: State, run: seq<Label>, l: Label)
    requires Valid(s, run) && Enabled(Final(s, run), l)
    ensures Valid(s, run + [l]) && Final(s, run + [l]) == Next(Final(s, run), l)
  {
    assert (run + [l])[..|run + [l]| - 1] == run;
  }

  class Manager {
    var published: Snapshot
    var counter: nat
    var members: seq<Subscriber>
    ghost var starts: seq<Subscriber>
    ghost var log: seq<Event>

    /** The machine state between reloads. */
    ghost function View(): State
      reads this
    {
      State(published, counter, starts, members, Idle, log)
    }

    constructor (config: AppConfig)
      ensures View() == Init(config)
    {
      published, counter, members, starts, log := Snapshot(1, config), 1, [], [], [];
    }

    method ReadSnapshot() returns (snapshot: Snapshot)
      modifies `log
      ensures snapshot == published && View() == Next(old(View()), Observe)
    {
      snapshot := published;
      log := log + [Observed(published.generation)];
    }

    method RegisterSubscriber(subscriber: Subscriber)
      requires Sane(subscriber)
      modifies `members, `starts
      ensures View() == Next(old(View()), Register(subscriber))
    {
      members := members + [subscriber];
      starts := starts + [subscriber];
    }

    /** `config` is what the file held, if it could be read, parsed and validated. */
    method Reload(config: Option<AppConfig>) returns (generation: Option<nat>, ghost run: seq<Label>)
      requires Reached(View())
      modifies this
      ensures Valid(old(View()), run) && View() == Final(old(View()), run) && Reached(View())
      ensures counter == old(counter) + (if config.Some? then 1 else 0)
      ensures generation.Some? ==>
                config.Some? && generation.value == counter && published == Snapshot(counter, config.value)
      ensures generation.None? ==> Unchanged(old(View()), View())
      ensures generation.Some? <==> config.Some? && AllAccept(old(members), config.value)
    {
      run := [];
      if config.None? {
        return None, [];
      }
      ghost var start := View();
      counter := counter + 1;
      var next := Snapshot(counter, config.value);
      var order := Order(members);
      ghost var now: State;
      run, now := Began(start, config.value);

      var ok;
      ok, members, run, now := PreparePhase(members, order, next, start, run, now);
      log := now.log;
      if !ok {
        return None, run;
      }
      members, run, now := CommitPhase(members, order, next, start, run, now);

      run, now := Stepped(start, run, now, Publish);
      published := next;
      log := now.log;
      run, now := Stepped(start, run, now, Finish);
      counter := next.generation;
      generation := Some(next.generation);
    }
  }

  ghost predicate AllAccept(members: seq<Subscriber>, config: AppConfig) {
    forall i :: 0 <= i < |members| ==> Accepts(members[i], config)
  }

  lemma OrderKnown(s: State)
    requires Reached(s) && s.phase.Preparing?
    ensures s.phase.order == Order(s.members)
  {
    ReachedInv(s);
  }

  /** The first `k` in order accept, and nobody has changed kind. */
  ghost predicate AcceptedUpTo(members: seq<Subscriber>, now: seq<Subscriber>, order: seq<nat>, config: AppConfig,
          k: nat) {
    && SamePriorities(members, now) && |members| == |now| && k <= |order|
    && forall j :: 0 <= j < k ==> order[j] < |members| && Accepts(members[order[j]], config)
  }

  lemma OneMoreAccepts(members: seq<Subscriber>, now: seq<Subscriber>, order: seq<nat>, config: AppConfig, k: nat,
          listing: seq<string>)
    requires AcceptedUpTo(members, now, order, config, k) && k < |order| && order[k] < |now|
    requires CanPrepare(now[order[k]], config, listing)
    ensures var prepared := Prepare(now[order[k]], config, listing);
            if prepared.Some? then AcceptedUpTo(members, now[order[k] := prepared.value], order, config, k + 1)
            else !AllAccept(members, config)
  {
    PreparesIff(now[order[k]], config, listing);
    SameKind(members[order[k]], now[order[k]], config);
  }

  lemma AllHaveAccepted(members: seq<Subscriber>, now: seq<Subscriber>, order: seq<nat>, config: AppConfig)
    requires order == Order(members) && AcceptedUpTo(members, now, order, config, |order|)
    ensures AllAccept(members, config)
  {
    forall i | 0 <= i < |members|
      ensures Accepts(members[i], config)
    {
      OrderCovers(members, i);
      var j :| 0 <= j < |order| && order[j] == i;
    }
  }

  /** The fields a reload leaves alone until it publishes. */
  ghost predicate SameOutside(a: State, b: State) {
    a.published == b.published && a.counter == b.counter && a.starts == b.starts && |a.members| == |b.members|
  }

  /** The first loop: stop at the first subscriber that cannot prepare. */
  method PreparePhase(members: seq<Subscriber>, order: seq<nat>, next: Snapshot, ghost start: State,
          ghost run: seq<Label>, ghost now: State)
    returns (ok: bool, members': seq<Subscriber>, ghost run': seq<Label>, ghost now': State)
    requires Tracks(start, run, now) && Unchanged(start, now)
    requires now.members == members && now.phase == Preparing(next, order, 0)
    ensures Tracks(start, run', now') && Unchanged(start, now') && SameOutside(now, now') && now'.members == members'
    ensures now'.phase == if ok then Preparing(next, order, |order|) else Idle
    ensures ok <==> AllAccept(members, next.config)
  {
    members', run', now' := members, run, now;
    OrderKnown(now);
    for k := 0 to |order|
      invariant AcceptedUpTo(members, members', order, next.config, k)
      invariant Tracks(start, run', now') && Unchanged(start, now')
      invariant SameOutside(now, now') && now'.members == members'
      invariant now'.phase == Preparing(next, order, k)
    {
      var m := order[k];
      MemberReady(now');
      ghost var listing;
      var prepared;
      prepared, listing := PrepareOne(members'[m], next.config);
      OneMoreAccepts(members, members', order, next.config, k, listing);
      PrepareIsQuiet(start, now', listing);
      run', now' := Stepped(start, run', now', PrepareNext(listing));
      if prepared.None? {
        ok := false;
        return;
      }
      members' := members'[m := prepared.value];
    }
    AllHaveAccepted(members, members', order, next.config);
    ok := true;
  }

  /** The second loop: everybody prepared, so everybody commits. */
  method CommitPhase(members: seq<Subscriber>, order: seq<nat>, next: Snapshot, ghost start: State,
          ghost run: seq<Label>, ghost now: State)
    returns (members': seq<Subscriber>, ghost run': seq<Label>, ghost now': State)
    requires Tracks(start, run, now) && now.members == members && now.phase == Preparing(next, order, |order|)
    ensures Tracks(start, run', now') && SameOutside(now, now') && now'.members == members'
    ensures now'.phase == Committing(next, order, |order|)
  {
    members' := members;
    run', now' := Stepped(start, run, now, StartCommit);
    for k := 0 to |order|
      invariant Tracks(start, run', now') && SameOutside(now, now') && now'.members == members'
      invariant now'.phase == Committing(next, order, k)
    {
      var m := order[k];
      MemberReady(now');
      ghost var listing;
      var committed;
      committed, listing := CommitOne(members'[m]);
      run', now' := Stepped(start, run', now', CommitNext(listing));
      members' := members'[m := committed];
    }
  }

  /** The machine can be in this state. */
  ghost predicate Reached(s: State) {
    exists config, run :: Valid(Init(config), run) && Final(Init(config), run) == s
  }

  lemma ReachedStep(s: State, l: Label)
    requires Reached(s) && Enabled(s, l)
    ensures Reached(Next(s, l))
  {
    var config, run :| Valid(Init(config), run) && Final(Init(config), run) == s;
    RunSnoc(Init(config), run, l);
    assert Final(Init(config), run + [l]) == Next(s, l);
  }

  lemma ReachedInv(s: State)
    requires Reached(s)
    ensures Inv(s)
  {
    var config, run :| Valid(Init(config), run) && Final(Init(config), run) == s;
    Reachable(config, run);
  }

  /** A member whose turn it is can be called: it is in range, and whole. */
  lemma MemberReady(s: State)
    requires Reached(s) && (s.phase.Preparing? || s.phase.Committing?) && s.phase.done < |s.phase.order|
    ensures s.phase.order[s.phase.done] < |s.members| && Sane(s.members[s.phase.order[s.phase.done]])
  {
    ReachedInv(s);
    OrderPermutes(s.members);
  }

  lemma PrepareIsQuiet(start: State, s: State, listing: seq<string>)
    requires Reached(s) && Unchanged(start, s) && Enabled(s, PrepareNext(listing))
    ensures Unchanged(start, Next(s, PrepareNext(listing)))
  {
    ReachedInv(s);
    QuietStep(s, PrepareNext(listing));
  }

  /** The run so far leads from `start` to `now`, a state the machine can be in. */
  ghost predicate Tracks(start: State, run: seq<Label>, now: State) {
    Valid(start, run) && Final(start, run) == now && Reached(now)
  }

  lemma Stepped(start: State, run: seq<Label>, now: State, l: Label) returns (run': seq<Label>, now': State)
    requires Tracks(start, run, now) && Enabled(now, l)
    ensures run' == run + [l] && now' == Next(now, l) && Tracks(start, run', now')
  {
    run', now' := run + [l], Next(now, l);
    RunSnoc(start, run, l);
    ReachedStep(now, l);
  }

  lemma Began(start: State, config: AppConfig) returns (run: seq<Label>, now: State)
    requires Reached(start) && start.phase.Idle?
    ensures Tracks(start, run, now) && Unchanged(start, now)
    ensures now.published == start.published && now.counter == start.counter + 1
    ensures now.starts == start.starts && now.members == start.members
    ensures now.phase == Preparing(Snapshot(start.counter + 1, config), Order(start.members), 0)
  {
    run, now := Stepped(start, [], start, Begin(config));
    run, now := Stepped(start, run, now, Arrange);
  }
}
