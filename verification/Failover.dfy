/** The failover loop of `ProviderRegistry::chat_completion` (src/providers/registry.rs) over
    the breakers of its targets, and exactly when a breaker is left wedged. Building a
    provider lazily cannot fail (src/providers/router.rs), so the loop has no other way out. */
module Failover {
  import opened Prelude
  import opened CircuitBreaker

  /** What happens at one position of the target list: when the breaker is asked, and, if
      it admits, how the provider fares and when a failure is recorded. */
  datatype Attempt = Attempt(asked: real, answers: bool, failed: real)

  /** One operation on one target's breaker. */
  datatype Entry<K> = Entry(target: K, op: Op)

  datatype Reply<K> =
    | Served(target: K)
    | Exhausted(last: Option<K>)

  datatype Outcome<K> = Outcome(breakers: map<K, Breaker>, reply: Reply<K>)

  function Report(a: Attempt): Op {
    if a.answers then Succeed else Fail(a.failed)
  }

  /** One target's breaker after its turn. */
  function Tried(b: Breaker, a: Attempt): Breaker {
    var asked := Apply(b, Ask(a.asked));
    if Admits(b, a.asked) then Apply(asked, Report(a)) else asked
  }

  /** What is done to the breaker in that turn. */
  function Turn<K>(t: K, b: Breaker, a: Attempt): seq<Entry<K>> {
    [Entry(t, Ask(a.asked))] + (if Admits(b, a.asked) then [Entry(t, Report(a))] else [])
  }

  predicate Known<K(==)>(breakers: map<K, Breaker>, targets: seq<K>, attempts: seq<Attempt>) {
    |targets| == |attempts| && forall i :: 0 <= i < |targets| ==> targets[i] in breakers
  }

  /** The loop from position `i` on, when `last` was the latest target to fail. */
  function Run<K>(breakers: map<K, Breaker>, targets: seq<K>, attempts: seq<Attempt>, i: nat,
          last: Option<K>): Outcome<K>
    requires Known(breakers, targets, attempts) && i <= |targets|
    decreases |targets| - i
  {
    if i == |targets| then Outcome(breakers, Exhausted(last)) else
    var t, a := targets[i], attempts[i];
    var next, admitted := breakers[t := Tried(breakers[t], a)], Admits(breakers[t], a.asked);
    if admitted && a.answers then
      Outcome(next, Served(t))
    else
      Run(next, targets, attempts, i + 1, if admitted then Some(t) else last)
  }

  /** Every operation on a breaker that the loop performs, in order. */
  function Log<K>(breakers: map<K, Breaker>, targets: seq<K>, attempts: seq<Attempt>, i: nat): seq<Entry<K>>
    requires Known(breakers, targets, attempts) && i <= |targets|
    decreases |targets| - i
  {
    if i == |targets| then [] else
    var t, a := targets[i], attempts[i];
    var next, turn := breakers[t := Tried(breakers[t], a)], Turn(t, breakers[t], a);
    if Admits(breakers[t], a.asked) && a.answers then turn else turn + Log(next, targets, attempts, i + 1)
  }

  ghost function Views(targets: set<Circuit>): map<Circuit, Breaker>
    reads targets
  {
    map t | t in targets :: t.View()
  }

  ghost function Members(targets: seq<Circuit>): set<Circuit> {
    set t | t in targets
  }

  /** What was done to one target, as the log tells it. */
  function OpsOn<K(==)>(log: seq<Entry<K>>, t: K): seq<Op> {
    if log == [] then [] else
    var front, last := log[..|log| - 1], log[|log| - 1];
    OpsOn(front, t) + (if last.target == t then [last.op] else [])
  }

  lemma OpsOnTurn<K>(log: seq<Entry<K>>, t: K, b: Breaker, a: Attempt, other: K)
    ensures OpsOn(log + Turn(t, b, a), other)
            == OpsOn(log, other) + (if other == t then OpsIn(b, a) else [])
  {
    var asked, turn := log + [Entry(t, Ask(a.asked))], Turn(t, b, a);
    assert asked[..|log|] == log;
    if Admits(b, a.asked) {
      assert log + turn == asked + [Entry(t, Report(a))];
      assert (log + turn)[..|asked|] == asked;
    } else {
      assert log + turn == asked;
    }
  }

  /** What one turn does to a breaker. */
  function OpsIn(b: Breaker, a: Attempt): seq<Op> {
    [Ask(a.asked)] + (if Admits(b, a.asked) then [Report(a)] else [])
  }

  /** What each breaker object remembers. */
  ghost function Histories(targets: set<Circuit>): map<Circuit, seq<Op>>
    reads targets
  {
    map t | t in targets :: t.history
  }

  /** Those memories once they also hold what the log tells. */
  ghost function Told<K>(histories: map<K, seq<Op>>, log: seq<Entry<K>>): map<K, seq<Op>> {
    map t | t in histories :: histories[t] + OpsOn(log, t)
  }

  lemma ToldNothing<K>(histories: map<K, seq<Op>>)
    ensures Told(histories, []) == histories
  {
    assert forall t :: t in histories ==> histories[t] + [] == histories[t];
  }

  lemma ToldAt<K>(history: seq<Op>, log: seq<Entry<K>>, t: K, b: Breaker, a: Attempt, c: K)
    ensures history + OpsOn(log + Turn(t, b, a), c)
            == if c == t then (history + OpsOn(log, c)) + OpsIn(b, a) else history + OpsOn(log, c)
  {
    OpsOnTurn(log, t, b, a, c);
    Associative(history, OpsOn(log, c), OpsIn(b, a));
    assert OpsOn(log, c) + [] == OpsOn(log, c);
  }

  lemma ToldTurn<K>(histories: map<K, seq<Op>>, log: seq<Entry<K>>, t: K, b: Breaker, a: Attempt)
    requires t in histories
    ensures var told := Told(histories, log);
            Told(histories, log + Turn(t, b, a)) == told[t := told[t] + OpsIn(b, a)]
  {
    var told, after := Told(histories, log), Told(histories, log + Turn(t, b, a));
    forall c | c in histories
      ensures after[c] == if c == t then told[c] + OpsIn(b, a) else told[c]
    {
      ToldAt(histories[c], log, t, b, a, c);
    }
  }

  /** The loop has come to position `i`, with the breakers, the last failure and the log as
      given, and what remains to be done completes the whole call. */
  ghost predicate Reached<K>(start: map<K, Breaker>, breakers: map<K, Breaker>, targets: seq<K>,
          attempts: seq<Attempt>, i: nat, last: Option<K>, log: seq<Entry<K>>) {
    && Known(start, targets, attempts) && Known(breakers, targets, attempts) && i <= |targets|
    && Run(start, targets, attempts, 0, None) == Run(breakers, targets, attempts, i, last)
    && Log(start, targets, attempts, 0) == log + Log(breakers, targets, attempts, i)
  }

  lemma ReachedTurn<K>(start: map<K, Breaker>, breakers: map<K, Breaker>, targets: seq<K>, attempts: seq<Attempt>,
          i: nat, last: Option<K>, log: seq<Entry<K>>)
    requires Reached(start, breakers, targets, attempts, i, last, log) && i < |targets|
    ensures var t, a := targets[i], attempts[i];
            var admitted, next := Admits(breakers[t], a.asked), breakers[t := Tried(breakers[t], a)];
            var log' := log + Turn(t, breakers[t], a);
            if admitted && a.answers then
              && Run(start, targets, attempts, 0, None) == Outcome(next, Served(t))
              && Log(start, targets, attempts, 0) == log'
            else
              Reached(start, next, targets, attempts, i + 1, if admitted then Some(t) else last, log')
  {
    var t, a := targets[i], attempts[i];
    var next := breakers[t := Tried(breakers[t], a)];
    if !(Admits(breakers[t], a.asked) && a.answers) {
      Associative(log, Turn(t, breakers[t], a), Log(next, targets, attempts, i + 1));
    }
  }

  lemma ReachedEnd<K>(start: map<K, Breaker>, breakers: map<K, Breaker>, targets: seq<K>, attempts: seq<Attempt>,
          last: Option<K>, log: seq<Entry<K>>)
    requires Reached(start, breakers, targets, attempts, |targets|, last, log)
    ensures Run(start, targets, attempts, 0, None) == Outcome(breakers, Exhausted(last))
    ensures Log(start, targets, attempts, 0) == log
  {
    assert log + [] == log;
  }

  /** One turn of the loop body, on the target's own breaker. */
  method TryTarget(t: Circuit, a: Attempt) returns (admitted: bool)
    modifies t
    ensures admitted == Admits(old(t.View()), a.asked)
    ensures t.View() == Tried(old(t.View()), a)
    ensures t.history == old(t.history) + OpsIn(old(t.View()), a)
  {
    admitted := t.CanExecute(a.asked);
    if admitted {
      if a.answers {
        t.RecordSuccess();
      } else {
        t.RecordFailure(a.failed);
      }
    }
  }

  /** The same turn, seen from the whole target list. */
  method TryAmong(ghost all: set<Circuit>, t: Circuit, a: Attempt) returns (admitted: bool)
    requires t in all
    modifies t
    ensures admitted == Admits(old(t.View()), a.asked)
    ensures Views(all) == old(Views(all))[t := Tried(old(t.View()), a)]
    ensures Histories(all) == old(Histories(all))[t := old(t.history) + OpsIn(old(t.View()), a)]
  {
    admitted := TryTarget(t, a);
  }

  /** The same loop on the breaker objects. A target may appear more than once. The log is
      what the objects themselves remember of the call: every admission and its report, in
      order, and nothing else. */
  method ChatCompletion(targets: seq<Circuit>, attempts: seq<Attempt>)
    returns (reply: Reply<Circuit>, ghost log: seq<Entry<Circuit>>)
    requires |targets| == |attempts|
    modifies targets
    ensures Outcome(Views(Members(targets)), reply) == Run(old(Views(Members(targets))), targets, attempts, 0, None)
    ensures log == Log(old(Views(Members(targets))), targets, attempts, 0)
    ensures Histories(Members(targets)) == Told(old(Histories(Members(targets))), log)
    ensures Paired(old(Views(Members(targets))), log, attempts, 0) && InOrder(reply, log, targets, None)
  {
    ghost var all := Members(targets);
    ghost var start, histories := Views(all), Histories(all);
    EveryAdmissionReported(start, targets, attempts, 0, None);
    TriedInOrder(start, targets, attempts, 0, None);
    assert targets[0..] == targets;
    log := [];
    ToldNothing(histories);
    var last := None;
    for i := 0 to |targets|
      invariant Reached(start, Views(all), targets, attempts, i, last, log)
      invariant Histories(all) == Told(histories, log)
    {
      var t, a := targets[i], attempts[i];
      ghost var before, turn := Views(all), Turn(t, t.View(), a);
      var admitted := TryAmong(all, t, a);
      ToldTurn(histories, log, t, before[t], a);
      ReachedTurn(start, before, targets, attempts, i, last, log);
      log := log + turn;
      if admitted {
        if a.answers {
          reply := Served(t);
          return;
        }
        last := Some(t);
      }
    }
    ReachedEnd(start, Views(all), targets, attempts, last, log);
    reply := Exhausted(last);
  }

  // ---- What the loop did ----

  function Replay<K>(breakers: map<K, Breaker>, log: seq<Entry<K>>): map<K, Breaker>
    decreases |log|
  {
    if log == [] then breakers
    else if log[0].target !in breakers then breakers
    else Replay(breakers[log[0].target := Apply(breakers[log[0].target], log[0].op)], log[1..])
  }

  /** Every target is asked at the time of its attempt; if admitted it gets exactly one
      report, at once: a success if the provider answered, else a failure at the time it
      failed. Nothing else is done. */
  predicate Paired<K(==)>(breakers: map<K, Breaker>, log: seq<Entry<K>>, attempts: seq<Attempt>, i: nat)
    decreases |log|
  {
    log != [] ==>
      && i < |attempts| && log[0].target in breakers && log[0].op == Ask(attempts[i].asked)
      && if Admits(breakers[log[0].target], attempts[i].asked) then
           && |log| >= 2
           && log[1].target == log[0].target
           && log[1].op == (if attempts[i].answers then Succeed else Fail(attempts[i].failed))
           && Paired(Replay(breakers, log[..2]), log[2..], attempts, i + 1)
         else
           Paired(Replay(breakers, log[..1]), log[1..], attempts, i + 1)
  }

  /** The targets asked, in order. */
  function AskedTargets<K>(log: seq<Entry<K>>): seq<K>
    decreases |log|
  {
    if log == [] then [] else (if log[0].op.Ask? then [log[0].target] else []) + AskedTargets(log[1..])
  }

  lemma {:induction false} ReplayAppend<K>(breakers: map<K, Breaker>, a: seq<Entry<K>>, b: seq<Entry<K>>)
    requires forall i :: 0 <= i < |a| ==> a[i].target in breakers
    ensures Replay(breakers, a + b) == Replay(Replay(breakers, a), b)
    decreases |a|
  {
    if a == [] {
      assert a + b == b;
    } else {
      assert (a + b)[1..] == a[1..] + b;
      ReplayAppend(breakers[a[0].target := Apply(breakers[a[0].target], a[0].op)], a[1..], b);
    }
  }

  lemma ReplayTurn<K>(breakers: map<K, Breaker>, t: K, a: Attempt)
    requires t in breakers
    ensures Replay(breakers, Turn(t, breakers[t], a)) == breakers[t := Tried(breakers[t], a)]
  {
    var turn := Turn(t, breakers[t], a);
    var asked := breakers[t := Apply(breakers[t], Ask(a.asked))];
    if Admits(breakers[t], a.asked) {
      assert turn[1..] == [Entry(t, Report(a))] && turn[1..][1..] == [];
      assert Replay(asked, turn[1..]) == asked[t := Apply(asked[t], Report(a))];
      assert asked[t := Apply(asked[t], Report(a))] == breakers[t := Tried(breakers[t], a)];
    } else {
      assert turn[1..] == [];
    }
  }

  lemma PairedTurn<K>(breakers: map<K, Breaker>, t: K, attempts: seq<Attempt>, i: nat, rest: seq<Entry<K>>)
    requires t in breakers && i < |attempts|
    requires Paired(breakers[t := Tried(breakers[t], attempts[i])], rest, attempts, i + 1)
    ensures Paired(breakers, Turn(t, breakers[t], attempts[i]) + rest, attempts, i)
  {
    var a := attempts[i];
    var turn := Turn(t, breakers[t], a);
    var log, n := turn + rest, |turn|;
    assert log[..n] == turn && log[n..] == rest;
    ReplayTurn(breakers, t, a);
  }

  /** The log accounts for every breaker, and every admission is reported exactly once. */
  lemma {:induction false} EveryAdmissionReported<K>(breakers: map<K, Breaker>, targets: seq<K>,
          attempts: seq<Attempt>, i: nat, last: Option<K>)
    requires Known(breakers, targets, attempts) && i <= |targets|
    ensures Run(breakers, targets, attempts, i, last).breakers == Replay(breakers, Log(breakers, targets, attempts, i))
    ensures Paired(breakers, Log(breakers, targets, attempts, i), attempts, i)
    decreases |targets| - i
  {
    if i < |targets| {
      var t, a := targets[i], attempts[i];
      var turn, next := Turn(t, breakers[t], a), breakers[t := Tried(breakers[t], a)];
      ReplayTurn(breakers, t, a);
      var admitted := Admits(breakers[t], a.asked);
      if admitted && a.answers {
        PairedTurn(breakers, t, attempts, i, []);
        assert turn + [] == turn;
      } else {
        EveryAdmissionReported(next, targets, attempts, i + 1, if admitted then Some(t) else last);
        var rest := Log(next, targets, attempts, i + 1);
        PairedTurn(breakers, t, attempts, i, rest);
        ReplayAppend(breakers, turn, rest);
      }
    }
  }

  /** The last target reported as failed, or `last` if none was. */
  function LastFailed<K>(log: seq<Entry<K>>, last: Option<K>): Option<K>
    decreases |log|
  {
    if log == [] then last else LastFailed(log[1..], if log[0].op.Fail? then Some(log[0].target) else last)
  }

  predicate Answered<K>(log: seq<Entry<K>>) {
    exists i :: 0 <= i < |log| && log[i].op.Succeed?
  }

  lemma TurnAsks<K>(t: K, b: Breaker, a: Attempt, rest: seq<Entry<K>>, last: Option<K>)
    ensures LastFailed(Turn(t, b, a) + rest, last)
            == LastFailed(rest, if Admits(b, a.asked) && !a.answers then Some(t) else last)
    ensures AskedTargets(Turn(t, b, a) + rest) == [t] + AskedTargets(rest)
    ensures Answered(Turn(t, b, a) + rest) <==> (Admits(b, a.asked) && a.answers) || Answered(rest)
  {
    var turn := Turn(t, b, a);
    var log := turn + rest;
    if Admits(b, a.asked) {
      assert log[1..][1..] == rest && log[1] == Entry(t, Report(a));
      assert LastFailed(log[1..], last) == LastFailed(rest, if a.answers then last else Some(t));
      assert AskedTargets(log[1..]) == AskedTargets(rest);
      if Answered(rest) {
        var i :| 0 <= i < |rest| && rest[i].op.Succeed?;
        assert log[i + 2].op.Succeed?;
      }
    } else {
      assert log[1..] == rest;
      if Answered(rest) {
        var i :| 0 <= i < |rest| && rest[i].op.Succeed?;
        assert log[i + 1].op.Succeed?;
      }
    }
  }

  /** Targets are asked in the order given, up to the one that serves or to the end; failure
      is laid at the last one that failed. */
  ghost predicate InOrder<K>(reply: Reply<K>, log: seq<Entry<K>>, targets: seq<K>, last: Option<K>) {
    var asked := AskedTargets(log);
    && asked <= targets
    && (reply.Served? <==> Answered(log))
    && (reply.Served? ==> asked != [] && asked[|asked| - 1] == reply.target)
    && (reply.Exhausted? ==> asked == targets && reply.last == LastFailed(log, last))
  }

  lemma InOrderTurn<K>(reply: Reply<K>, t: K, b: Breaker, a: Attempt, rest: seq<Entry<K>>, targets: seq<K>,
          last: Option<K>)
    requires !(Admits(b, a.asked) && a.answers)
    requires InOrder(reply, rest, targets, if Admits(b, a.asked) then Some(t) else last)
    ensures InOrder(reply, Turn(t, b, a) + rest, [t] + targets, last)
  {
    TurnAsks(t, b, a, rest, last);
  }

  lemma InOrderServed<K>(t: K, b: Breaker, a: Attempt, targets: seq<K>, last: Option<K>)
    requires Admits(b, a.asked) && a.answers
    ensures InOrder(Served(t), Turn(t, b, a), [t] + targets, last)
  {
    TurnAsks(t, b, a, [], last);
    assert Turn(t, b, a) + [] == Turn(t, b, a);
  }

  /** Targets are tried in the order given; the caller is served by the last one asked, and
      is told of failure, by the last one that failed, only after all of them were asked and
      none answered. */
  lemma {:induction false} TriedInOrder<K>(breakers: map<K, Breaker>, targets: seq<K>, attempts: seq<Attempt>,
          i: nat, last: Option<K>)
    requires Known(breakers, targets, attempts) && i <= |targets|
    ensures InOrder(Run(breakers, targets, attempts, i, last).reply, Log(breakers, targets, attempts, i),
                    targets[i..], last)
    decreases |targets| - i
  {
    if i < |targets| {
      var t, a := targets[i], attempts[i];
      var next, admitted := breakers[t := Tried(breakers[t], a)], Admits(breakers[t], a.asked);
      assert targets[i..] == [t] + targets[i + 1..];
      if admitted && a.answers {
        InOrderServed(t, breakers[t], a, targets[i + 1..], last);
      } else {
        var last' := if admitted then Some(t) else last;
        TriedInOrder(next, targets, attempts, i + 1, last');
        InOrderTurn(Run(next, targets, attempts, i + 1, last').reply, t, breakers[t], a,
                    Log(next, targets, attempts, i + 1), targets[i + 1..], last);
      }
    }
  }

  // ---- At rest no breaker is wedged ----

  /** A breaker no call is using, which any call may use unless it is cooling down. */
  ghost predicate Rested(b: Breaker) {
    Inv(b) && !b.probe
  }

  ghost predicate AllRested<K>(breakers: map<K, Breaker>) {
    forall k :: k in breakers ==> Rested(breakers[k])
  }

  lemma AttemptRests(b: Breaker, a: Attempt)
    requires Rested(b)
    ensures Rested(Tried(b, a))
  {
    InvStep(b, Ask(a.asked));
    InvStep(Apply(b, Ask(a.asked)), Report(a));
  }

  lemma {:induction false} CallRests<K>(breakers: map<K, Breaker>, targets: seq<K>, attempts: seq<Attempt>, i: nat,
          last: Option<K>)
    requires Known(breakers, targets, attempts) && i <= |targets| && AllRested(breakers)
    ensures AllRested(Run(breakers, targets, attempts, i, last).breakers)
    decreases |targets| - i
  {
    if i < |targets| {
      var t, a := targets[i], attempts[i];
      AttemptRests(breakers[t], a);
      var next, admitted := breakers[t := Tried(breakers[t], a)], Admits(breakers[t], a.asked);
      if !(admitted && a.answers) {
        CallRests(next, targets, attempts, i + 1, if admitted then Some(t) else last);
      }
    }
  }

  lemma {:induction false} LoopKeepsTargets<K>(breakers: map<K, Breaker>, targets: seq<K>, attempts: seq<Attempt>,
          i: nat, last: Option<K>)
    requires Known(breakers, targets, attempts) && i <= |targets|
    ensures Run(breakers, targets, attempts, i, last).breakers.Keys == breakers.Keys
    decreases |targets| - i
  {
    if i < |targets| {
      var t, a := targets[i], attempts[i];
      var next, admitted := breakers[t := Tried(breakers[t], a)], Admits(breakers[t], a.asked);
      if !(admitted && a.answers) {
        LoopKeepsTargets(next, targets, attempts, i + 1, if admitted then Some(t) else last);
      }
    }
  }

  datatype Call<K> = Call(targets: seq<K>, attempts: seq<Attempt>)

  predicate KnownCall<K(==)>(breakers: map<K, Breaker>, call: Call<K>) {
    Known(breakers, call.targets, call.attempts)
  }

  function AfterCall<K>(breakers: map<K, Breaker>, call: Call<K>): map<K, Breaker>
    requires KnownCall(breakers, call)
  {
    Run(breakers, call.targets, call.attempts, 0, None).breakers
  }

  /** A run of completed calls, one after the other. */
  ghost predicate Serves<K(!new)>(breakers: map<K, Breaker>, calls: seq<Call<K>>, final: map<K, Breaker>)
    decreases |calls|
  {
    if calls == [] then final == breakers
    else KnownCall(breakers, calls[0]) && Serves(AfterCall(breakers, calls[0]), calls[1..], final)
  }

  /** After any run of completed calls, with any outcomes, every breaker lets the next
      call through unless it is open and still cooling down. */
  lemma {:induction false} NoBreakerWedged<K(!new)>(breakers: map<K, Breaker>, calls: seq<Call<K>>,
          final: map<K, Breaker>, k: K, now: real)
    requires AllRested(breakers) && k in breakers && Serves(breakers, calls, final)
    ensures AllRested(final) && final.Keys == breakers.Keys
    ensures Admits(final[k], now) <==> !(final[k].state.Open? && !Cooled(final[k], now))
    decreases |calls|
  {
    if calls != [] {
      CallRests(breakers, calls[0].targets, calls[0].attempts, 0, None);
      LoopKeepsTargets(breakers, calls[0].targets, calls[0].attempts, 0, None);
      NoBreakerWedged(AfterCall(breakers, calls[0]), calls[1..], final, k, now);
    }
  }

  // ---- Overlapping calls ----

  /** One breaker shared by calls that overlap, and how many of them it has admitted that
      have not reported yet. */
  datatype Shared = Shared(b: Breaker, inFlight: nat)

  datatype Step =
    | Begin(now: real)
    | Finish(answers: bool, now: real)
    | StreamBroke(now: real)  // a stream that had already been reported as a success
    | Clear
    | Retune(failureThreshold: nat, cooldown: nat)
    | Filter(now: real)       // `select_targets` asks and never reports

  predicate CanStep(s: Shared, step: Step) {
    step.Finish? ==> s.inFlight > 0
  }

  function Took(s: Shared, step: Step): Shared
    requires CanStep(s, step)
  {
    match step
    case Begin(now) => Shared(Asked(s.b, now), s.inFlight + (if Admits(s.b, now) then 1 else 0))
    case Finish(answers, now) => Shared(if answers then Succeeded(s.b) else Failed(s.b, now), s.inFlight - 1)
    case StreamBroke(now) => s.(b := Failed(s.b, now))
    case Clear => s.(b := WasReset(s.b))
    case Retune(failureThreshold, cooldown) => s.(b := s.b.(failureThreshold := failureThreshold, cooldown := cooldown))
    case Filter(now) => s.(b := Asked(s.b, now))
  }

  predicate ValidSteps(s: Shared, steps: seq<Step>)
    decreases |steps|, 0
  {
    steps == [] ||
    var front, last := steps[..|steps| - 1], steps[|steps| - 1];
    ValidSteps(s, front) && CanStep(TookAll(s, front), last)
  }

  function TookAll(s: Shared, steps: seq<Step>): Shared
    requires ValidSteps(s, steps)
    decreases |steps|, 1
  {
    if steps == [] then s else Took(TookAll(s, steps[..|steps| - 1]), steps[|steps| - 1])
  }

  /** New thresholds count at once: the cooldown of a breaker that is open, and the failure
      that opens one that is closed. */
  lemma RetuneTakesEffect(s: Shared, failureThreshold: nat, cooldown: nat, now: real)
    ensures var b := Took(s, Retune(failureThreshold, cooldown)).b;
            && (s.b.state.Open? && s.b.lastFailure.Some? && s.b.lastFailure.value <= now ==>
                  (Admits(b, now) <==> now >= s.b.lastFailure.value + cooldown as real))
            && (s.b.state.Closed? ==> (Failed(b, now).state.Open? <==> s.b.failures + 1 >= failureThreshold))
            && b == s.b.(failureThreshold := failureThreshold, cooldown := cooldown)
  {
  }

  /** Nobody is admitted, however long one waits. */
  ghost predicate Wedged(b: Breaker) {
    forall t: real :: !Admits(b, t)
  }

  /** A filter at `now` would take the probe slot. */
  predicate Takes(b: Breaker, now: real) {
    (b.state.Open? && Cooled(b, now)) || (b.state.HalfOpen? && !b.probe)
  }

  /** The probe slot is taken only on behalf of a call that has yet to report. */
  ghost predicate ProbeAccounted(s: Shared) {
    && (s.b.state.HalfOpen? && s.b.probe ==> s.inFlight > 0)
    && (s.b.state.Open? ==> s.b.lastFailure.Some?)
  }

  lemma WedgedMeans(b: Breaker)
    requires b.state.Open? ==> b.lastFailure.Some?
    ensures Wedged(b) <==> b.state.HalfOpen? && b.probe
  {
    if b.state.Open? {
      assert Admits(b, b.lastFailure.value + b.cooldown as real);
    } else {
      assert Admits(b, 0.0) || (b.state.HalfOpen? && b.probe);
    }
  }

  /** Asking without reporting wedges a breaker at rest exactly when it is half-open, or
      open and cooled down: a filter on a closed or a cooling one changes nothing. */
  lemma FilterWedgesIff(s: Shared, now: real)
    requires ProbeAccounted(s) && s.inFlight == 0
    ensures Wedged(Took(s, Filter(now)).b) <==>
            !(s.b.state.Closed? || (s.b.state.Open? && !Cooled(s.b, now)))
    ensures !Wedged(Took(s, Filter(now)).b) ==> Took(s, Filter(now)) == s
  {
    WedgedMeans(Took(s, Filter(now)).b);
  }

  /** What gives the slot back. */
  predicate Frees(step: Step) {
    step.Finish? || step.StreamBroke? || step.Clear?
  }

  /** Some filter took the slot, and nothing since has given it back. */
  ghost predicate FilterHolds(s: Shared, steps: seq<Step>)
    requires ValidSteps(s, steps)
  {
    exists i :: 0 <= i < |steps| && HoldsFrom(s, steps, i)
  }

  ghost predicate HoldsFrom(s: Shared, steps: seq<Step>, i: nat)
    requires ValidSteps(s, steps) && i < |steps|
  {
    && steps[i].Filter?
    && ValidSteps(s, steps[..i]) && Takes(TookAll(s, steps[..i]).b, steps[i].now)
    && forall j :: i < j < |steps| ==> !Frees(steps[j])
  }

  lemma HoldsSnoc(s: Shared, steps: seq<Step>)
    requires steps != [] && ValidSteps(s, steps)
    ensures var front, last := steps[..|steps| - 1], steps[|steps| - 1];
            FilterHolds(s, steps) <==>
              || (FilterHolds(s, front) && !Frees(last))
              || (last.Filter? && Takes(TookAll(s, front).b, last.now))
  {
    var front, last := steps[..|steps| - 1], steps[|steps| - 1];
    assert forall i :: 0 <= i < |front| ==> front[..i] == steps[..i];
    forall i | 0 <= i < |front|
      ensures HoldsFrom(s, steps, i) <==> HoldsFrom(s, front, i) && !Frees(last)
    {
    }
    assert HoldsFrom(s, steps, |front|) <==> last.Filter? && Takes(TookAll(s, front).b, last.now);
  }

  /** At every point of a run the slot is held by a filter, by a call in flight, or by nobody. */
  lemma {:induction false} SlotHolder(s: Shared, steps: seq<Step>)
    requires ProbeAccounted(s) && ValidSteps(s, steps)
    ensures var last := TookAll(s, steps);
            && (last.b.state.Open? ==> last.b.lastFailure.Some?)
            && (FilterHolds(s, steps) ==> last.b.state.HalfOpen? && last.b.probe)
            && (last.b.state.HalfOpen? && last.b.probe && !FilterHolds(s, steps) ==> last.inFlight > 0)
    decreases |steps|
  {
    if steps != [] {
      SlotHolder(s, steps[..|steps| - 1]);
      HoldsSnoc(s, steps);
    }
  }

  /** However calls overlap, streams break, settings change, operators reset and filters ask,
      once no call is in flight the breaker is wedged exactly when some filter took the
      probe slot and no report, broken stream or reset has come since. */
  lemma WedgedIff(s: Shared, steps: seq<Step>)
    requires ProbeAccounted(s) && ValidSteps(s, steps) && TookAll(s, steps).inFlight == 0
    ensures Wedged(TookAll(s, steps).b) <==> FilterHolds(s, steps)
  {
    SlotHolder(s, steps);
    WedgedMeans(TookAll(s, steps).b);
  }

  /** And while no filter holds the slot, it refuses only while it is open and cooling down. */
  lemma QuietBreakerAdmits(s: Shared, steps: seq<Step>, now: real)
    requires ProbeAccounted(s) && ValidSteps(s, steps) && TookAll(s, steps).inFlight == 0
    requires !FilterHolds(s, steps)
    ensures var last := TookAll(s, steps).b;
            Admits(last, now) <==> !(last.state.Open? && !Cooled(last, now))
  {
    SlotHolder(s, steps);
  }

  /** A wedged breaker is freed by a late stream failure or a reset, and by nothing else a
      breaker at rest can meet. */
  lemma FreedIff(s: Shared, step: Step)
    requires Wedged(s.b) && s.inFlight == 0 && CanStep(s, step)
    requires s.b.state.Open? ==> s.b.lastFailure.Some?
    ensures !Wedged(Took(s, step).b) <==> step.StreamBroke? || step.Clear?
  {
    WedgedMeans(s.b);
    WedgedMeans(Took(s, step).b);
  }
}
