/** The two-phase reload of src/config/manager.rs as a step machine.

    One reload runs at a time, behind the reload lock. It allocates a generation, freezes
    and orders the subscribers behind their read lock, prepares each, commits each, stores
    the snapshot and then the counter. Readers may look at any moment; registration needs
    the write lock, so it happens only outside the frozen part. The log and the start
    states are history variables. */
module ConfigReload {
  import opened Prelude
  import opened StableSort
  import opened Subscribers

  datatype Snapshot = Snapshot(generation: nat, config: AppConfig)

  datatype Phase =
    | Idle
    | Allocated(next: Snapshot)
    | Preparing(next: Snapshot, order: seq<nat>, done: nat)
    | Committing(next: Snapshot, order: seq<nat>, done: nat)
    | Stored(next: Snapshot)

  datatype Event =
    | Arranged(gen: nat, config: AppConfig, order: seq<nat>)
    | Prepared(member: nat, gen: nat, ok: bool)
    | Committed(member: nat, gen: nat)
    | Published(gen: nat, config: AppConfig, order: seq<nat>)
    | Observed(gen: nat)

  datatype State = State(
    published: Snapshot,
    counter: nat,
    starts: seq<Subscriber>,
    members: seq<Subscriber>,
    phase: Phase,
    log: seq<Event>)

  datatype Label =
    | Begin(config: AppConfig)
    | Arrange
    | PrepareNext(listing: seq<string>)
    | StartCommit
    | CommitNext(listing: seq<string>)
    | Publish
    | Finish
    | Observe
    | Register(subscriber: Subscriber)

  function Init(config: AppConfig): State {
    State(Snapshot(1, config), 1, [], [], Idle, [])
  }

  // ---- The order subscribers are called in ----

  datatype Slot = Slot(priority: nat, index: nat)

  predicate SlotLeq(a: Slot, b: Slot) {
    a.priority <= b.priority
  }

  function Slots(members: seq<Subscriber>): seq<Slot> {
    seq(|members|, i requires 0 <= i < |members| => Slot(Priority(members[i]), i))
  }

  function Indices(slots: seq<Slot>): seq<nat> {
    seq(|slots|, i requires 0 <= i < |slots| => slots[i].index)
  }

  /** `sort_by_key(priority)`: a stable sort of the registration order. */
  function Order(members: seq<Subscriber>): seq<nat> {
    Indices(Sort(SlotLeq, Slots(members)))
  }

  // ---- Steps ----

  ghost predicate Enabled(s: State, l: Label) {
    match l
    case Begin(_) => s.phase.Idle?
    case Arrange => s.phase.Allocated?
    case PrepareNext(listing) =>
      && s.phase.Preparing? && s.phase.done < |s.phase.order| && s.phase.order[s.phase.done] < |s.members|
      && CanPrepare(s.members[s.phase.order[s.phase.done]], s.phase.next.config, listing)
    case StartCommit => s.phase.Preparing? && s.phase.done == |s.phase.order|
    case CommitNext(listing) =>
      && s.phase.Committing? && s.phase.done < |s.phase.order| && s.phase.order[s.phase.done] < |s.members|
      && CanCommit(s.members[s.phase.order[s.phase.done]], listing)
    case Publish => s.phase.Committing? && s.phase.done == |s.phase.order|
    case Finish => s.phase.Stored?
    case Observe => true
    case Register(subscriber) => (s.phase.Idle? || s.phase.Allocated?) && Sane(subscriber)
  }

  ghost function Next(s: State, l: Label): State
    requires Enabled(s, l)
  {
    match l
    case Begin(config) =>
      s.(counter := s.counter + 1, phase := Allocated(Snapshot(s.counter + 1, config)))
    case Arrange =>
      var next, order := s.phase.next, Order(s.members);
      s.(phase := Preparing(next, order, 0), log := s.log + [Arranged(next.generation, next.config, order)])
    case PrepareNext(listing) =>
      var m, next := s.phase.order[s.phase.done], s.phase.next;
      var prepared := Prepare(s.members[m], next.config, listing);
      if prepared.None? then
        s.(phase := Idle, log := s.log + [Prepared(m, next.generation, false)])
      else
        s.(members := s.members[m := prepared.value],
           phase := Preparing(next, s.phase.order, s.phase.done + 1),
           log := s.log + [Prepared(m, next.generation, true)])
    case StartCommit =>
      s.(phase := Committing(s.phase.next, s.phase.order, 0))
    case CommitNext(listing) =>
      var m, next := s.phase.order[s.phase.done], s.phase.next;
      s.(members := s.members[m := Commit(s.members[m], listing)],
         phase := Committing(next, s.phase.order, s.phase.done + 1),
         log := s.log + [Committed(m, next.generation)])
    case Publish =>
      var next := s.phase.next;
      s.(published := next,
         phase := Stored(next),
         log := s.log + [Published(next.generation, next.config, s.phase.order)])
    case Finish =>
      s.(counter := s.phase.next.generation, phase := Idle)
    case Observe =>
      s.(log := s.log + [Observed(s.published.generation)])
    case Register(subscriber) =>
      s.(starts := s.starts + [subscriber], members := s.members + [subscriber])
  }

  ghost predicate Valid(s: State, run: seq<Label>)
    decreases |run|, 0
  {
    run == [] || (Valid(s, run[..|run| - 1]) && Enabled(Final(s, run[..|run| - 1]), run[|run| - 1]))
  }

  ghost function Final(s: State, run: seq<Label>): State
    requires Valid(s, run)
    decreases |run|, 1
  {
    if run == [] then s else Next(Final(s, run[..|run| - 1]), run[|run| - 1])
  }

  // ---- The order is a stable enumeration of the members ----

  lemma SlotPreorder()
    ensures TotalPreorder(SlotLeq)
  {
  }

  ghost predicate Permutes(order: seq<nat>, n: nat) {
    && |order| == n
    && (forall i :: 0 <= i < |order| ==> order[i] < n)
    && (forall i, j :: 0 <= i < j < |order| ==> order[i] != order[j])
  }

  lemma SortedSlot(members: seq<Subscriber>, i: nat)
    requires i < |Order(members)|
    ensures |Order(members)| == |members| && Order(members)[i] < |members|
    ensures Sort(SlotLeq, Slots(members))[i] == Slot(Priority(members[Order(members)[i]]), Order(members)[i])
  {
    var sorted := Sort(SlotLeq, Slots(members));
    SortKeepsElements(SlotLeq, Slots(members));
    assert sorted[i] in multiset(Slots(members));
  }

  lemma OrderPermutes(members: seq<Subscriber>)
    ensures Permutes(Order(members), |members|)
  {
    var slots := Slots(members);
    var sorted := Sort(SlotLeq, slots);
    SortKeepsElements(SlotLeq, slots);
    DistinctMultiplicity(slots);
    forall i | 0 <= i < |sorted|
      ensures Order(members)[i] < |members|
    {
      SortedSlot(members, i);
    }
    forall i, j | 0 <= i < j < |sorted|
      ensures Order(members)[i] != Order(members)[j]
    {
      SortedSlot(members, i);
      SortedSlot(members, j);
      assert sorted[i] in multiset(slots);
      assert multiset(sorted)[sorted[i]] == 1;
      if sorted[i] == sorted[j] {
        TwiceCounted(sorted, i, j);
      }
    }
  }

  lemma {:induction false} DistinctMultiplicity<T>(xs: seq<T>)
    requires forall i, j :: 0 <= i < j < |xs| ==> xs[i] != xs[j]
    ensures forall x :: x in xs ==> multiset(xs)[x] == 1
    decreases |xs|
  {
    if xs != [] {
      var front, last := xs[..|xs| - 1], xs[|xs| - 1];
      DistinctMultiplicity(front);
      assert xs == front + [last];
      forall x | x in xs
        ensures multiset(xs)[x] == 1
      {
        if x == last { assert last !in front; assert multiset(front)[last] == 0; }
      }
    }
  }

  lemma TwiceCounted<T>(xs: seq<T>, i: nat, j: nat)
    requires i < j < |xs| && xs[i] == xs[j]
    ensures multiset(xs)[xs[i]] >= 2
  {
    assert xs == xs[..j] + xs[j..];
    assert xs[i] in xs[..j] && xs[i] in xs[j..];
  }

  /** Every member comes once, by ascending priority, and equals stay in registration order. */
  lemma OrderIsStable(members: seq<Subscriber>, i: nat, j: nat)
    requires i < j < |Order(members)|
    ensures Permutes(Order(members), |members|)
    ensures var a, b := Order(members)[i], Order(members)[j];
            Priority(members[a]) < Priority(members[b]) || (Priority(members[a]) == Priority(members[b]) && a < b)
  {
    OrderPermutes(members);
    var sorted := Sort(SlotLeq, Slots(members));
    SlotPreorder();
    SortSorted(SlotLeq, Slots(members));
    SortedSlot(members, i);
    SortedSlot(members, j);
    if sorted[i].priority == sorted[j].priority {
      SortStable(SlotLeq, Slots(members), sorted[i]);
      SlotClassAscends(Slots(members), sorted[i]);
      ClassKeepsOrder(sorted, sorted[i], i, j);
    }
  }

  function CallRank(s: Subscriber): nat {
    if s.FeaturesSubscriber? then 0 else if s.KeysSubscriber? then 1 else if s.LimitsSubscriber? then 2 else 3
  }

  /** Flags are called first, then keys, then limits, then providers. */
  lemma CalledByKind(members: seq<Subscriber>, i: nat, j: nat)
    requires i < j < |Order(members)|
    ensures Permutes(Order(members), |members|)
    ensures CallRank(members[Order(members)[i]]) <= CallRank(members[Order(members)[j]])
  {
    OrderIsStable(members, i, j);
  }

  ghost predicate Ascending(slots: seq<Slot>) {
    forall i, j :: 0 <= i < j < |slots| ==> slots[i].index < slots[j].index
  }

  lemma AscendingCons(x: Slot, rest: seq<Slot>)
    requires Ascending(rest) && forall y :: y in rest ==> x.index < y.index
    ensures Ascending([x] + rest)
  {
    forall i | 0 <= i < |rest|
      ensures x.index < rest[i].index
    {
      assert rest[i] in rest;
    }
  }

  lemma {:induction false} SlotClassAscends(slots: seq<Slot>, a: Slot)
    requires Ascending(slots)
    ensures Ascending(Class(SlotLeq, a, slots))
    ensures forall x :: x in Class(SlotLeq, a, slots) ==> x in slots
    decreases |slots|
  {
    if slots != [] {
      var rest := Class(SlotLeq, a, slots[1..]);
      SlotClassAscends(slots[1..], a);
      assert forall x :: x in slots[1..] ==> x in slots && slots[0].index < x.index;
      AscendingCons(slots[0], rest);
    }
  }

  lemma {:induction false} ClassKeepsOrder(slots: seq<Slot>, a: Slot, i: nat, j: nat)
    requires i < j < |slots| && Equivalent(SlotLeq, a, slots[i]) && Equivalent(SlotLeq, a, slots[j])
    requires Ascending(Class(SlotLeq, a, slots))
    ensures slots[i].index < slots[j].index
    decreases |slots|
  {
    var equals, rest := Class(SlotLeq, a, slots), Class(SlotLeq, a, slots[1..]);
    if i > 0 {
      assert rest == equals[|equals| - |rest|..];
      ClassKeepsOrder(slots[1..], a, i - 1, j - 1);
    } else {
      assert slots[1..][j - 1] == slots[j];
      ClassMember(SlotLeq, a, slots[1..], slots[j]);
      var k :| 0 <= k < |rest| && rest[k] == slots[j];
      assert equals == [slots[i]] + rest;
      assert equals[0] == slots[i] && equals[k + 1] == slots[j];
    }
  }
}
