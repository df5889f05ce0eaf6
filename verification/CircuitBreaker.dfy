/** The three-state breaker of src/providers/circuit_breaker.rs. Each method is one atomic
    step; times are readings of a monotone clock, in seconds. */
module CircuitBreaker {
  import opened Prelude

  datatype CircuitState = Closed | Open | HalfOpen

  datatype Breaker = Breaker(
    failureThreshold: nat,
    successThreshold: nat,
    cooldown: nat,
    state: CircuitState,
    failures: nat,
    successes: nat,
    lastFailure: Option<real>,
    probe: bool)

  function New(failureThreshold: nat, successThreshold: nat, cooldown: nat): Breaker {
    Breaker(failureThreshold, successThreshold, cooldown, Closed, 0, 0, None, false)
  }

  /** `elapsed() >= cooldown`, where `elapsed` saturates at zero. */
  predicate Cooled(b: Breaker, now: real) {
    && b.lastFailure.Some?
    && (if b.lastFailure.value <= now then now - b.lastFailure.value else 0.0) >= b.cooldown as real
  }

  predicate Admits(b: Breaker, now: real) {
    match b.state
    case Closed => true
    case Open => Cooled(b, now)
    case HalfOpen => !b.probe
  }

  function Asked(b: Breaker, now: real): Breaker {
    match b.state
    case Closed => b
    case Open => if Cooled(b, now) then b.(state := HalfOpen, successes := 0, probe := true) else b
    case HalfOpen => b.(probe := true)
  }

  function Succeeded(b: Breaker): Breaker {
    match b.state
    case HalfOpen =>
      var count := b.successes + 1;
      if count >= b.successThreshold then b.(state := Closed, failures := 0, successes := count, probe := false)
      else b.(successes := count, probe := false)
    case Closed => b.(failures := 0)
    case Open => b
  }

  function Failed(b: Breaker, now: real): Breaker {
    match b.state
    case HalfOpen => b.(state := Open, lastFailure := Some(now), probe := false)
    case Closed =>
      var count := b.failures + 1;
      if count >= b.failureThreshold then b.(state := Open, failures := count, lastFailure := Some(now))
      else b.(failures := count)
    case Open => b
  }

  function WasReset(b: Breaker): Breaker {
    b.(state := Closed, failures := 0, successes := 0)
  }

  /** What can be done to a breaker. */
  datatype Op = Ask(now: real) | Succeed | Fail(now: real) | Reset

  /** The breaker object, which remembers what has been done to it. */
  class Circuit {
    var failureThreshold: nat
    const successThreshold: nat
    var cooldown: nat
    var state: CircuitState
    var failures: nat
    var successes: nat
    var lastFailure: Option<real>
    var probe: bool
    ghost var history: seq<Op>

    ghost function View(): Breaker
      reads this
    {
      Breaker(failureThreshold, successThreshold, cooldown, state, failures, successes, lastFailure, probe)
    }

    constructor (failureThreshold: nat, successThreshold: nat, cooldown: nat)
      ensures View() == New(failureThreshold, successThreshold, cooldown) && history == []
    {
      this.failureThreshold, this.successThreshold, this.cooldown := failureThreshold, successThreshold, cooldown;
      state, failures, successes, lastFailure, probe := Closed, 0, 0, None, false;
      history := [];
    }

    method CanExecute(now: real) returns (admitted: bool)
      modifies this
      ensures admitted == Admits(old(View()), now) && View() == Asked(old(View()), now)
      ensures history == old(history) + [Ask(now)]
    {
      history := history + [Ask(now)];
      match state
      case Closed =>
        admitted := true;
      case Open =>
        if lastFailure.Some? {
          var elapsed := if lastFailure.value <= now then now - lastFailure.value else 0.0;
          if elapsed >= cooldown as real {
            state := HalfOpen;
            successes := 0;
            probe := true;
            return true;
          }
        }
        admitted := false;
      case HalfOpen =>
        admitted := !probe;
        probe := true;
    }

    method RecordSuccess()
      modifies this
      ensures View() == Succeeded(old(View())) && history == old(history) + [Succeed]
    {
      history := history + [Succeed];
      match state
      case HalfOpen =>
        successes := successes + 1;
        if successes >= successThreshold {
          state := Closed;
          failures := 0;
        }
        probe := false;
      case Closed =>
        failures := 0;
      case Open =>
    }

    method RecordFailure(now: real)
      modifies this
      ensures View() == Failed(old(View()), now) && history == old(history) + [Fail(now)]
    {
      history := history + [Fail(now)];
      match state
      case HalfOpen =>
        state := Open;
        lastFailure := Some(now);
        probe := false;
      case Closed =>
        failures := failures + 1;
        if failures >= failureThreshold {
          state := Open;
          lastFailure := Some(now);
        }
      case Open =>
    }

    method UpdateThresholds(failureThreshold: nat, cooldown: nat)
      modifies this
      ensures View() == old(View()).(failureThreshold := failureThreshold, cooldown := cooldown)
      ensures history == old(history)
    {
      this.failureThreshold := failureThreshold;
      this.cooldown := cooldown;
    }

    method Reset()
      modifies this
      ensures View() == WasReset(old(View())) && history == old(history) + [Op.Reset]
    {
      history := history + [Op.Reset];
      state, failures, successes := Closed, 0, 0;
    }
  }

  // ---- Runs ----

  function Apply(b: Breaker, op: Op): Breaker {
    match op
    case Ask(now) => Asked(b, now)
    case Succeed => Succeeded(b)
    case Fail(now) => Failed(b, now)
    case Reset => WasReset(b)
  }

  /** The state a history leads to. */
  function After(b: Breaker, ops: seq<Op>): Breaker {
    if ops == [] then b else Apply(After(b, ops[..|ops| - 1]), ops[|ops| - 1])
  }

  /** The failures reported since the last success or reset, read off the history alone. */
  function TrailingFailures(ops: seq<Op>): nat {
    if ops == [] then 0 else
    var n := TrailingFailures(ops[..|ops| - 1]);
    match ops[|ops| - 1]
    case Ask(_) => n
    case Fail(_) => n + 1
    case _ => 0
  }

  ghost predicate SameSettings(b: Breaker, c: Breaker) {
    b.failureThreshold == c.failureThreshold && b.successThreshold == c.successThreshold && b.cooldown == c.cooldown
  }

  function AtLeastOne(n: nat): nat {
    if n == 0 then 1 else n
  }

  /** What every reachable breaker satisfies. */
  ghost predicate Inv(b: Breaker) {
    && (b.state.Closed? ==> b.failures < AtLeastOne(b.failureThreshold))
    && (b.state.Open? ==> b.lastFailure.Some?)
    && (b.state.HalfOpen? ==> b.successes < AtLeastOne(b.successThreshold))
    && b.failures <= AtLeastOne(b.failureThreshold)
    && b.successes <= AtLeastOne(b.successThreshold)
  }

  lemma InvStep(b: Breaker, op: Op)
    requires Inv(b)
    ensures Inv(Apply(b, op)) && SameSettings(b, Apply(b, op))
  {
  }

  /** A closed breaker's count is the failures since the last success or reset, and is
      below the threshold; an open one knows when it opened; and no counter can reach the
      width of the 32-bit cell that holds it. */
  lemma {:induction false} BreakerHistory(failureThreshold: nat, successThreshold: nat, cooldown: nat, ops: seq<Op>)
    ensures var b := After(New(failureThreshold, successThreshold, cooldown), ops);
            && Inv(b)
            && SameSettings(New(failureThreshold, successThreshold, cooldown), b)
            && (b.state.Closed? ==> b.failures == TrailingFailures(ops))
            && (failureThreshold < 0x1_0000_0000 && successThreshold < 0x1_0000_0000 ==>
                  b.failures < 0x1_0000_0000 && b.successes < 0x1_0000_0000)
    decreases |ops|
  {
    if ops != [] {
      BreakerHistory(failureThreshold, successThreshold, cooldown, ops[..|ops| - 1]);
      InvStep(After(New(failureThreshold, successThreshold, cooldown), ops[..|ops| - 1]), ops[|ops| - 1]);
    }
  }

  /** A failure opens a closed breaker exactly when it completes the threshold. */
  lemma OpensExactly(failureThreshold: nat, successThreshold: nat, cooldown: nat, ops: seq<Op>, now: real)
    requires After(New(failureThreshold, successThreshold, cooldown), ops).state.Closed?
    ensures var b := After(New(failureThreshold, successThreshold, cooldown), ops + [Fail(now)]);
            && (b.state.Open? <==> TrailingFailures(ops + [Fail(now)]) >= AtLeastOne(failureThreshold))
            && (b.state.Open? ==> b.lastFailure == Some(now))
            && (b.state.Open? || b.state.Closed?)
  {
    BreakerHistory(failureThreshold, successThreshold, cooldown, ops);
    assert (ops + [Fail(now)])[..|ops|] == ops;
  }

  /** A breaker starts closed and stays closed, admitting every call, while no run of failures
      completes the threshold. */
  lemma {:induction false} ClosedUntilThreshold(failureThreshold: nat, successThreshold: nat, cooldown: nat,
          ops: seq<Op>, now: real)
    requires forall k :: 0 <= k <= |ops| ==> TrailingFailures(ops[..k]) < AtLeastOne(failureThreshold)
    ensures var b := After(New(failureThreshold, successThreshold, cooldown), ops);
            b.state.Closed? && Admits(b, now)
    decreases |ops|
  {
    if ops != [] {
      var front := ops[..|ops| - 1];
      assert forall k :: 0 <= k <= |front| ==> front[..k] == ops[..k];
      ClosedUntilThreshold(failureThreshold, successThreshold, cooldown, front, now);
      BreakerHistory(failureThreshold, successThreshold, cooldown, front);
      assert ops[..|ops|] == ops;
    }
  }

  /** Two breakers that no caller can tell apart. */
  ghost predicate Alike(b: Breaker, c: Breaker) {
    && SameSettings(b, c) && b.state == c.state
    && (b.state.Closed? ==> b.failures == c.failures)
    && (b.state.Open? ==> b.lastFailure == c.lastFailure)
    && (b.state.HalfOpen? ==> b.successes == c.successes && b.probe == c.probe)
  }

  /** A reset breaker is as good as new: whatever is asked and reported afterwards, it
      admits what a new one with its settings would. */
  lemma {:induction false} ResetIsAsNew(b: Breaker, ops: seq<Op>, now: real)
    ensures var start := New(b.failureThreshold, b.successThreshold, b.cooldown);
            && Alike(After(WasReset(b), ops), After(start, ops))
            && Admits(After(WasReset(b), ops), now) == Admits(After(start, ops), now)
            && WasReset(b).failures == 0 && WasReset(b).successes == 0 && WasReset(b).probe == b.probe
    decreases |ops|
  {
    if ops != [] {
      ResetIsAsNew(b, ops[..|ops| - 1], now);
    }
  }

  /** When the breaker last went from admitting calls to refusing them, if it still refuses. */
  function OpenedAt(b: Breaker, ops: seq<Op>): Option<real> {
    if ops == [] || !After(b, ops).state.Open? then None
    else if After(b, ops[..|ops| - 1]).state.Open? then OpenedAt(b, ops[..|ops| - 1])
    else match ops[|ops| - 1]
      case Fail(now) => Some(now)
      case _ => None
  }

  /** The cooldown of an open breaker runs from the failure that opened it, not from any
      reported since. */
  lemma {:induction false} CooldownRunsFromOpening(failureThreshold: nat, successThreshold: nat, cooldown: nat,
          ops: seq<Op>)
    ensures var start := New(failureThreshold, successThreshold, cooldown);
            var b := After(start, ops);
            b.state.Open? ==> b.lastFailure == OpenedAt(start, ops) && b.lastFailure.Some?
    decreases |ops|
  {
    if ops != [] {
      CooldownRunsFromOpening(failureThreshold, successThreshold, cooldown, ops[..|ops| - 1]);
    }
  }

  /** In every run, an open breaker admits a call exactly once the cooldown has passed since
      the failure that opened it; and the call it then admits is the only probe of a fresh
      half-open episode. */
  lemma ReopensExactly(failureThreshold: nat, successThreshold: nat, cooldown: nat, ops: seq<Op>, now: real)
    requires After(New(failureThreshold, successThreshold, cooldown), ops).state.Open?
    ensures var start := New(failureThreshold, successThreshold, cooldown);
            var b, since := After(start, ops), OpenedAt(start, ops);
            && since.Some?
            && (now >= since.value ==> (Admits(b, now) <==> now >= since.value + cooldown as real))
            && var asked := After(start, ops + [Ask(now)]);
               if Admits(b, now) then asked.state.HalfOpen? && asked.probe && asked.successes == 0 else asked == b
  {
    CooldownRunsFromOpening(failureThreshold, successThreshold, cooldown, ops);
    BreakerHistory(failureThreshold, successThreshold, cooldown, ops);
    assert (ops + [Ask(now)])[..|ops|] == ops;
  }

  /** A half-open breaker is opened again by any failure, at the time of that failure, and
      admits exactly one call between reports. */
  lemma HalfOpenExactly(b: Breaker, op: Op)
    requires b.state.HalfOpen?
    ensures Apply(b, op).state.Open? <==> op.Fail?
    ensures op.Fail? ==> Apply(b, op).lastFailure == Some(op.now) && !Apply(b, op).probe
    ensures op.Ask? ==> (Admits(b, op.now) <==> !b.probe) && Apply(b, op).state.HalfOpen? && Apply(b, op).probe
    ensures op.Succeed? ==> !Apply(b, op).probe
    ensures op.Reset? ==> Apply(b, op).state.Closed?
  {
  }

  /** Nothing but a reset gets through an open breaker before the cooldown is over. */
  lemma {:induction false} OpenStaysShut(b: Breaker, ops: seq<Op>)
    requires b.state.Open? && b.lastFailure.Some?
    requires forall i :: 0 <= i < |ops| ==> !ops[i].Reset?
    requires forall i :: 0 <= i < |ops| && ops[i].Ask? ==>
               b.lastFailure.value <= ops[i].now < b.lastFailure.value + b.cooldown as real
    ensures After(b, ops) == b
    ensures forall i :: 0 <= i < |ops| && ops[i].Ask? ==> !Admits(After(b, ops[..i]), ops[i].now)
    decreases |ops|
  {
    if ops != [] {
      var front := ops[..|ops| - 1];
      OpenStaysShut(b, front);
      forall i | 0 <= i < |ops| && ops[i].Ask?
        ensures !Admits(After(b, ops[..i]), ops[i].now)
      {
        if i < |front| {
          assert front[i] == ops[i] && front[..i] == ops[..i];
        } else {
          assert ops[..i] == front;
        }
      }
    }
  }

  function Successes(ops: seq<Op>): nat {
    if ops == [] then 0 else Successes(ops[..|ops| - 1]) + (if ops[|ops| - 1].Succeed? then 1 else 0)
  }

  /** With no failure or reset, a half-open breaker closes on the success that completes
      the threshold, and not before. */
  lemma {:induction false} ClosesExactly(b: Breaker, ops: seq<Op>)
    requires b.state.HalfOpen? && Inv(b)
    requires forall i :: 0 <= i < |ops| ==> ops[i].Ask? || ops[i].Succeed?
    ensures var c := After(b, ops);
            && (c.state.Closed? <==> b.successes + Successes(ops) >= AtLeastOne(b.successThreshold))
            && (!c.state.Closed? ==> c.state.HalfOpen? && c.successes == b.successes + Successes(ops))
            && SameSettings(b, c)
    decreases |ops|
  {
    if ops != [] {
      ClosesExactly(b, ops[..|ops| - 1]);
    }
  }

  // ---- The probe ----

  /** How often the current half-open episode admitted a call, and how many reports it took. */
  function Episode(b: Breaker, ops: seq<Op>): (nat, nat) {
    if ops == [] then (0, 0) else
    var before, op := After(b, ops[..|ops| - 1]), ops[|ops| - 1];
    var (admitted, reported) := Episode(b, ops[..|ops| - 1]);
    if !Apply(before, op).state.HalfOpen? then (0, 0)
    else if !before.state.HalfOpen? then (1, 0)
    else if op.Ask? then (if Admits(before, op.now) then admitted + 1 else admitted, reported)
    else (admitted, reported + 1)
  }

  /** A half-open episode admits at most one call more than the reports it has taken. */
  lemma {:induction false} ProbesAreMetered(failureThreshold: nat, successThreshold: nat, cooldown: nat, ops: seq<Op>)
    ensures var start := New(failureThreshold, successThreshold, cooldown);
            var b := After(start, ops);
            var (admitted, reported) := Episode(start, ops);
            b.state.HalfOpen? ==> admitted <= reported + (if b.probe then 1 else 0) && reported == b.successes
    decreases |ops|
  {
    if ops != [] {
      ProbesAreMetered(failureThreshold, successThreshold, cooldown, ops[..|ops| - 1]);
    }
  }
}
