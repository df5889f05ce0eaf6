/** Context trimming, as `DefaultContextAssembler::trim_messages` in src/context/assembler.rs
    does it: system messages are kept, the rest are taken newest first while the token
    budget lasts, and one message may be cut to what is left.

    Token counts are natural numbers; `ArithmeticFits` says when they are the source's
    32-bit ones. */
module ContextTrim {
  import opened Prelude
  import opened Text

  datatype Message = Message(role: string, content: string)

  const SYSTEM: string := "system"
  const OVERHEAD: nat := 5
  const CUT_FLOOR: nat := 10
  const BYTES_PER_TOKEN: nat := 4

  function EstimateTokens(text: string): nat {
    (ByteLen(text) + 3) / BYTES_PER_TOKEN
  }

  /** The least number of tokens whose bytes hold the text. */
  lemma EstimateIsCeiling(text: string)
    ensures ByteLen(text) <= BYTES_PER_TOKEN * EstimateTokens(text) < ByteLen(text) + BYTES_PER_TOKEN
  {
  }

  function Total(messages: seq<Message>): nat {
    if messages == [] then 0
    else Total(messages[..|messages| - 1]) + EstimateTokens(messages[|messages| - 1].content)
  }

  function Select(messages: seq<Message>, system: bool): seq<Message> {
    if messages == [] then [] else
    var front, last := messages[..|messages| - 1], messages[|messages| - 1];
    Select(front, system) + (if (last.role == SYSTEM) == system then [last] else [])
  }

  /** The longest run of whole characters that takes at most `limit` bytes. */
  function Cut(text: string, limit: int): string {
    if text == "" || Utf8Len(text[0]) > limit then "" else [text[0]] + Cut(text[1..], limit - Utf8Len(text[0]))
  }

  function Cost(m: Message): nat {
    EstimateTokens(m.content) + OVERHEAD
  }

  function Shortened(m: Message, remaining: nat): Message {
    Message(m.role, Cut(m.content, remaining * BYTES_PER_TOKEN))
  }

  /** The non-system messages kept, walking from the newest back. */
  function Pick(others: seq<Message>, remaining: nat): seq<Message> {
    if others == [] then [] else
    var front, newest := others[..|others| - 1], others[|others| - 1];
    if Cost(newest) <= remaining then Pick(front, remaining - Cost(newest)) + [newest]
    else if remaining > CUT_FLOOR then Pick(front, 0) + [Shortened(newest, remaining)]
    else Pick(front, remaining)
  }

  /** `max_tokens.saturating_sub(system_tokens + 5)`. */
  function Budget(messages: seq<Message>, maxTokens: nat): nat {
    var reserved := Total(Select(messages, true)) + OVERHEAD;
    if reserved <= maxTokens then maxTokens - reserved else 0
  }

  function Trim(messages: seq<Message>, maxTokens: nat): seq<Message> {
    if Total(messages) <= maxTokens then messages
    else Select(messages, true) + Pick(Select(messages, false), Budget(messages, maxTokens))
  }

  function Reversed(xs: seq<Message>): seq<Message> {
    if xs == [] then [] else Reversed(xs[1..]) + [xs[0]]
  }

  // ---- The loops ----

  method SumTokens(messages: seq<Message>) returns (sum: nat)
    ensures sum == Total(messages)
  {
    sum := 0;
    for i := 0 to |messages|
      invariant sum == Total(messages[..i])
    {
      assert messages[..i + 1][..i] == messages[..i];
      sum := sum + EstimateTokens(messages[i].content);
    }
    assert messages[..|messages|] == messages;
  }

  /** `char_indices … take_while … last`: the byte offset just past the last character that fits. */
  method SafeEnd(content: string, limit: nat) returns (end: nat)
    ensures end <= |content| && content[..end] == Cut(content, limit)
  {
    end := 0;
    var bytes := 0;
    while end < |content| && bytes + Utf8Len(content[end]) <= limit
      invariant end <= |content| && bytes <= limit
      invariant content[..end] + Cut(content[end..], limit - bytes) == Cut(content, limit)
    {
      assert content[..end + 1] == content[..end] + [content[end]];
      assert content[end..][1..] == content[end + 1..];
      bytes := bytes + Utf8Len(content[end]);
      end := end + 1;
    }
    assert content[..end] + "" == content[..end];
  }

  lemma {:induction false} ReversedSnoc(xs: seq<Message>, x: Message)
    ensures Reversed(xs + [x]) == [x] + Reversed(xs)
    decreases |xs|
  {
    if xs == [] {
      assert [] + [x] == [x] && [x][1..] == [];
    } else {
      assert (xs + [x])[1..] == xs[1..] + [x];
      ReversedSnoc(xs[1..], x);
    }
  }

  method Partition(messages: seq<Message>) returns (system: seq<Message>, others: seq<Message>)
    ensures system == Select(messages, true) && others == Select(messages, false)
  {
    system, others := [], [];
    for i := 0 to |messages|
      invariant system == Select(messages[..i], true) && others == Select(messages[..i], false)
    {
      assert messages[..i + 1][..i] == messages[..i];
      if messages[i].role == SYSTEM {
        system := system + [messages[i]];
      } else {
        others := others + [messages[i]];
      }
    }
    assert messages[..|messages|] == messages;
  }

  method PickNewest(others: seq<Message>, budget: nat) returns (picked: seq<Message>)
    ensures Reversed(picked) == Pick(others, budget)
  {
    picked := [];
    var remaining: nat := budget;
    var i := |others|;
    assert others[..i] == others && Reversed(picked) == [];
    while i > 0
      invariant 0 <= i <= |others|
      invariant Pick(others, budget) == Pick(others[..i], remaining) + Reversed(picked)
    {
      i := i - 1;
      var msg := others[i];
      assert others[..i + 1][..i] == others[..i];
      ghost var before := Reversed(picked);
      if Cost(msg) <= remaining {
        ReversedSnoc(picked, msg);
        picked := picked + [msg];
        remaining := remaining - Cost(msg);
        Associative(Pick(others[..i], remaining), [msg], before);
      } else if remaining > CUT_FLOOR {
        var end := SafeEnd(msg.content, remaining * BYTES_PER_TOKEN);
        var short := Message(msg.role, msg.content[..end]);
        ReversedSnoc(picked, short);
        picked := picked + [short];
        remaining := 0;
        Associative(Pick(others[..i], 0), [short], before);
      }
    }
  }

  method ReverseInto(xs: seq<Message>) returns (r: seq<Message>)
    ensures r == Reversed(xs)
  {
    r := [];
    for i := 0 to |xs|
      invariant r == Reversed(xs[..i])
    {
      assert xs[..i + 1] == xs[..i] + [xs[i]];
      ReversedSnoc(xs[..i], xs[i]);
      r := [xs[i]] + r;
    }
    assert xs[..|xs|] == xs;
  }

  method TrimMessages(messages: seq<Message>, maxTokens: nat) returns (result: seq<Message>)
    ensures result == Trim(messages, maxTokens)
    ensures result == messages <==> Total(messages) <= maxTokens || AllOf(messages, true)
  {
    TrimUnchangedIff(messages, maxTokens);
    var total := SumTokens(messages);
    if total <= maxTokens {
      return messages;
    }
    var system, others := Partition(messages);
    var systemTokens := SumTokens(system);
    var remaining := if systemTokens + OVERHEAD <= maxTokens then maxTokens - (systemTokens + OVERHEAD) else 0;
    var picked := PickNewest(others, remaining);
    picked := ReverseInto(picked);
    assert picked == Pick(others, remaining) && remaining == Budget(messages, maxTokens);
    result := system + picked;
  }

  // ---- The cut ----

  lemma {:induction false} CutFits(text: string, limit: nat)
    ensures Cut(text, limit) <= text && ByteLen(Cut(text, limit)) <= limit
    decreases |text|
  {
    if text != "" && Utf8Len(text[0]) <= limit {
      CutFits(text[1..], limit - Utf8Len(text[0]));
      assert text == [text[0]] + text[1..];
      assert Cut(text, limit)[1..] == Cut(text[1..], limit - Utf8Len(text[0]));
    }
  }

  /** No longer prefix of whole characters fits. */
  lemma {:induction false} CutIsLongest(text: string, limit: nat, prefix: string)
    requires prefix <= text && ByteLen(prefix) <= limit
    ensures prefix <= Cut(text, limit)
    decreases |text|
  {
    if prefix != "" {
      CutIsLongest(text[1..], limit - Utf8Len(text[0]), prefix[1..]);
      assert prefix == [text[0]] + prefix[1..];
    }
  }

  // ---- The budget ----

  lemma {:induction false} TotalAppend(a: seq<Message>, b: seq<Message>)
    ensures Total(a + b) == Total(a) + Total(b)
    decreases |b|
  {
    if b == [] {
      assert a + b == a;
    } else {
      assert (a + b)[..|a + b| - 1] == a + b[..|b| - 1];
      TotalAppend(a, b[..|b| - 1]);
    }
  }

  lemma TotalOne(m: Message)
    ensures Total([m]) == EstimateTokens(m.content)
  {
    assert [m][..0] == [];
  }

  lemma {:induction false} SelectTotals(messages: seq<Message>)
    ensures Total(Select(messages, true)) + Total(Select(messages, false)) == Total(messages)
    decreases |messages|
  {
    if messages != [] {
      var front, last := messages[..|messages| - 1], messages[|messages| - 1];
      SelectTotals(front);
      TotalAppend(Select(front, true), [last]);
      TotalAppend(Select(front, false), [last]);
      TotalOne(last);
      assert Select(front, true) + [] == Select(front, true) && Select(front, false) + [] == Select(front, false);
    }
  }

  lemma {:induction false} PickNothing(others: seq<Message>)
    ensures Pick(others, 0) == []
    decreases |others|
  {
    if others != [] {
      PickNothing(others[..|others| - 1]);
    }
  }

  lemma ShortenedFits(m: Message, remaining: nat)
    ensures EstimateTokens(Shortened(m, remaining).content) <= remaining
  {
    CutFits(m.content, remaining * BYTES_PER_TOKEN);
  }

  lemma {:induction false} PickWithinBudget(others: seq<Message>, remaining: nat)
    ensures Total(Pick(others, remaining)) <= remaining
    ensures Total(Pick(others, remaining)) + OVERHEAD * |Pick(others, remaining)| <= remaining + OVERHEAD
    decreases |others|
  {
    if others != [] {
      var front, newest := others[..|others| - 1], others[|others| - 1];
      if Cost(newest) <= remaining {
        PickWithinBudget(front, remaining - Cost(newest));
        TotalAppend(Pick(front, remaining - Cost(newest)), [newest]);
        TotalOne(newest);
      } else if remaining > CUT_FLOOR {
        PickNothing(front);
        assert Pick(others, remaining) == [Shortened(newest, remaining)];
        TotalOne(Shortened(newest, remaining));
        ShortenedFits(newest, remaining);
      } else {
        PickWithinBudget(front, remaining);
      }
    }
  }

  /** When trimming happens and the system messages leave room, the result fits the limit
      with the reserve, and with the overhead of every message kept; with no room left,
      exactly the system messages come back. */
  lemma TrimBudget(messages: seq<Message>, maxTokens: nat)
    requires Total(messages) > maxTokens
    ensures var system, result := Select(messages, true), Trim(messages, maxTokens);
            && (Total(system) + OVERHEAD <= maxTokens ==>
                  && Total(result) + OVERHEAD <= maxTokens
                  && Total(result) + OVERHEAD * (|result| - |system|) <= maxTokens)
            && (Total(system) + OVERHEAD > maxTokens ==> result == system)
  {
    var system, others := Select(messages, true), Select(messages, false);
    var budget := Budget(messages, maxTokens);
    TotalAppend(system, Pick(others, budget));
    PickWithinBudget(others, budget);
    PickNothing(others);
  }

  /** The result fits the limit exactly when the system messages alone do. */
  lemma TrimFitsIff(messages: seq<Message>, maxTokens: nat)
    ensures Total(Trim(messages, maxTokens)) <= maxTokens <==> Total(Select(messages, true)) <= maxTokens
  {
    SelectTotals(messages);
    if Total(messages) > maxTokens {
      TrimBudget(messages, maxTokens);
    }
  }

  // ---- What is kept ----

  lemma {:induction false} SelectAppend(a: seq<Message>, b: seq<Message>, system: bool)
    ensures Select(a + b, system) == Select(a, system) + Select(b, system)
    decreases |b|
  {
    if b == [] {
      assert a + b == a;
    } else {
      assert (a + b)[..|a + b| - 1] == a + b[..|b| - 1];
      SelectAppend(a, b[..|b| - 1], system);
    }
  }

  ghost predicate AllOf(messages: seq<Message>, system: bool) {
    forall i :: 0 <= i < |messages| ==> (messages[i].role == SYSTEM) == system
  }

  lemma {:induction false} SelectIsAllOf(messages: seq<Message>, system: bool)
    ensures AllOf(Select(messages, system), system)
    decreases |messages|
  {
    if messages != [] {
      SelectIsAllOf(messages[..|messages| - 1], system);
    }
  }

  lemma {:induction false} SelectSame(messages: seq<Message>, system: bool)
    requires AllOf(messages, system)
    ensures Select(messages, system) == messages
    decreases |messages|
  {
    if messages != [] {
      var front, last := messages[..|messages| - 1], messages[|messages| - 1];
      SelectSame(front, system);
      assert messages == front + [last];
    }
  }

  lemma {:induction false} SelectOpposite(messages: seq<Message>, system: bool)
    requires AllOf(messages, !system)
    ensures Select(messages, system) == []
    decreases |messages|
  {
    if messages != [] {
      SelectOpposite(messages[..|messages| - 1], system);
    }
  }

  lemma {:induction false} PickIsOther(others: seq<Message>, remaining: nat)
    requires AllOf(others, false)
    ensures AllOf(Pick(others, remaining), false)
    decreases |others|
  {
    if others != [] {
      var front, newest := others[..|others| - 1], others[|others| - 1];
      if Cost(newest) <= remaining {
        PickIsOther(front, remaining - Cost(newest));
      } else if remaining > CUT_FLOOR {
        PickIsOther(front, 0);
      } else {
        PickIsOther(front, remaining);
      }
    }
  }

  lemma TrimParts(messages: seq<Message>, maxTokens: nat)
    requires Total(messages) > maxTokens
    ensures Select(Trim(messages, maxTokens), true) == Select(messages, true)
    ensures Select(Trim(messages, maxTokens), false) == Pick(Select(messages, false), Budget(messages, maxTokens))
  {
    var system, others := Select(messages, true), Select(messages, false);
    var picked := Pick(others, Budget(messages, maxTokens));
    SelectIsAllOf(messages, true);
    SelectIsAllOf(messages, false);
    PickIsOther(others, Budget(messages, maxTokens));
    SelectSame(system, true);
    SelectOpposite(system, false);
    SelectSame(picked, false);
    SelectOpposite(picked, true);
    SelectAppend(system, picked, true);
    SelectAppend(system, picked, false);
  }

  /** `xs` is `ys` with some elements left out. */
  predicate Subsequence(xs: seq<Message>, ys: seq<Message>)
    decreases |ys|
  {
    || xs == []
    || (ys != []
        && (|| Subsequence(xs, ys[..|ys| - 1])
            || (xs[|xs| - 1] == ys[|ys| - 1] && Subsequence(xs[..|xs| - 1], ys[..|ys| - 1]))))
  }

  predicate IsCutOf(short: Message, m: Message) {
    short.role == m.role && short.content <= m.content
  }

  /** Either whole messages only, or a cut message followed only by whole newer ones. */
  ghost predicate Abridged(kept: seq<Message>, others: seq<Message>) {
    || Subsequence(kept, others)
    || (kept != []
        && exists j :: 0 <= j < |others| && IsCutOf(kept[0], others[j]) && Subsequence(kept[1..], others[j + 1..]))
  }

  lemma SubsequenceSnoc(xs: seq<Message>, ys: seq<Message>, m: Message)
    requires Subsequence(xs, ys)
    ensures Subsequence(xs + [m], ys + [m]) && Subsequence(xs, ys + [m])
  {
    assert (ys + [m])[..|ys|] == ys && (xs + [m])[..|xs|] == xs;
  }

  /** Abridgement carries over when a newer message is kept whole, and when it is dropped. */
  lemma AbridgedSnoc(kept: seq<Message>, front: seq<Message>, newest: Message)
    requires Abridged(kept, front)
    ensures Abridged(kept + [newest], front + [newest]) && Abridged(kept, front + [newest])
  {
    if Subsequence(kept, front) {
      SubsequenceSnoc(kept, front, newest);
    } else {
      var j :| 0 <= j < |front| && IsCutOf(kept[0], front[j]) && Subsequence(kept[1..], front[j + 1..]);
      var others := front + [newest];
      assert (kept + [newest])[1..] == kept[1..] + [newest] && others[j + 1..] == front[j + 1..] + [newest];
      assert others[j] == front[j] && (kept + [newest])[0] == kept[0];
      SubsequenceSnoc(kept[1..], front[j + 1..], newest);
    }
  }

  lemma {:induction false} PickAbridges(others: seq<Message>, remaining: nat)
    ensures Abridged(Pick(others, remaining), others)
    decreases |others|
  {
    if others != [] {
      var front, newest := others[..|others| - 1], others[|others| - 1];
      assert others == front + [newest];
      if Cost(newest) <= remaining {
        PickAbridges(front, remaining - Cost(newest));
        AbridgedSnoc(Pick(front, remaining - Cost(newest)), front, newest);
      } else if remaining > CUT_FLOOR {
        PickNothing(front);
        var short := Shortened(newest, remaining);
        CutFits(newest.content, remaining * BYTES_PER_TOKEN);
        assert Pick(others, remaining) == [short];
        assert IsCutOf([short][0], others[|front|]) && Subsequence([short][1..], others[|front| + 1..]);
      } else {
        PickAbridges(front, remaining);
        AbridgedSnoc(Pick(front, remaining), front, newest);
      }
    }
  }

  /** Every system message survives, in order, and the other messages come back in order,
      whole, save that the oldest one kept may be a prefix of the original. */
  lemma TrimKeeps(messages: seq<Message>, maxTokens: nat)
    ensures Select(Trim(messages, maxTokens), true) == Select(messages, true)
    ensures Abridged(Select(Trim(messages, maxTokens), false), Select(messages, false))
  {
    if Total(messages) > maxTokens {
      TrimParts(messages, maxTokens);
      PickAbridges(Select(messages, false), Budget(messages, maxTokens));
    } else {
      WholeSubsequence(Select(messages, false));
    }
  }

  lemma {:induction false} SelectMember(messages: seq<Message>, system: bool, m: Message)
    ensures m in Select(messages, system) <==> m in messages && (m.role == "system") == system
    decreases |messages|
  {
    if messages != [] {
      SelectMember(messages[..|messages| - 1], system, m);
    }
  }

  /** No message of the role "system" is ever lost. */
  lemma SystemSurvives(messages: seq<Message>, maxTokens: nat, m: Message)
    requires m in messages && m.role == "system"
    ensures m in Trim(messages, maxTokens)
  {
    SelectMember(messages, true, m);
  }

  lemma {:induction false} WholeSubsequence(xs: seq<Message>)
    ensures Subsequence(xs, xs)
    decreases |xs|
  {
    if xs != [] {
      WholeSubsequence(xs[..|xs| - 1]);
    }
  }

  /** Trimming what was trimmed changes nothing, even where the system messages alone
      exceed the limit. */
  lemma TrimIdempotent(messages: seq<Message>, maxTokens: nat)
    ensures Trim(Trim(messages, maxTokens), maxTokens) == Trim(messages, maxTokens)
  {
    var once := Trim(messages, maxTokens);
    if Total(messages) > maxTokens {
      TrimFitsIff(messages, maxTokens);
      TrimBudget(messages, maxTokens);
      if Total(once) > maxTokens {
        TrimParts(messages, maxTokens);
        var system := Select(messages, true);
        assert once == system && Select(once, false) == [] by {
          SelectIsAllOf(messages, true);
          SelectOpposite(system, false);
        }
        assert system + [] == system;
      }
    }
  }

  /** While more than the floor is left, the newest message is never the one dropped. */
  lemma NewestSurvives(messages: seq<Message>, maxTokens: nat)
    requires Total(messages) > maxTokens && Budget(messages, maxTokens) > CUT_FLOOR && Select(messages, false) != []
    ensures var others, result := Select(messages, false), Trim(messages, maxTokens);
            result != [] && IsCutOf(result[|result| - 1], others[|others| - 1])
  {
    var others := Select(messages, false);
    CutFits(others[|others| - 1].content, Budget(messages, maxTokens) * BYTES_PER_TOKEN);
  }

  /** A conversation comes back as it was exactly when it fits the limit or is all system
      messages. */
  lemma TrimUnchangedIff(messages: seq<Message>, maxTokens: nat)
    ensures Trim(messages, maxTokens) == messages <==> Total(messages) <= maxTokens || AllOf(messages, true)
  {
    var result := Trim(messages, maxTokens);
    if Total(messages) > maxTokens {
      if result == messages {
        TrimFitsIff(messages, maxTokens);
        TrimBudget(messages, maxTokens);
        SelectIsAllOf(messages, true);
      }
      if AllOf(messages, true) {
        SelectSame(messages, true);
        SelectOpposite(messages, false);
        assert messages + [] == messages;
      }
    }
  }

  // ---- Which messages are chosen ----

  datatype Choice = Kept | Shortening | Dropped

  /** What happens to each non-system message. */
  function Plan(others: seq<Message>, remaining: nat): seq<Choice> {
    if others == [] then [] else
    var front, newest := others[..|others| - 1], others[|others| - 1];
    if Cost(newest) <= remaining then Plan(front, remaining - Cost(newest)) + [Kept]
    else if remaining > CUT_FLOOR then Plan(front, 0) + [Shortening]
    else Plan(front, remaining) + [Dropped]
  }

  /** The cost of the whole messages kept from position `j` on. */
  function SpentFrom(others: seq<Message>, plan: seq<Choice>, j: nat): nat
    requires |others| == |plan|
    decreases |others| - j
  {
    if j >= |others| then 0
    else (if plan[j].Kept? then Cost(others[j]) else 0) + SpentFrom(others, plan, j + 1)
  }

  predicate ShortenedFrom(plan: seq<Choice>, j: nat) {
    exists k :: j <= k < |plan| && plan[k].Shortening?
  }

  /** What the messages newer than `j` leave of the budget: nothing, once one was shortened. */
  function LeftAt(others: seq<Message>, plan: seq<Choice>, budget: nat, j: nat): int
    requires |others| == |plan|
  {
    if ShortenedFrom(plan, j + 1) then 0 else budget - SpentFrom(others, plan, j + 1)
  }

  function Choose(m: Message, left: int): Choice {
    if Cost(m) <= left then Kept else if left > CUT_FLOOR then Shortening else Dropped
  }

  function Outcome(m: Message, choice: Choice, left: int): seq<Message> {
    match choice
    case Kept => [m]
    case Shortening => [Message(m.role, Cut(m.content, left * BYTES_PER_TOKEN))]
    case Dropped => []
  }

  function Rendered(others: seq<Message>, plan: seq<Choice>, budget: nat, n: nat): seq<Message>
    requires |others| == |plan| && n <= |others|
  {
    if n == 0 then [] else
    Rendered(others, plan, budget, n - 1) + Outcome(others[n - 1], plan[n - 1], LeftAt(others, plan, budget, n - 1))
  }

  lemma {:induction false} SpentSnoc(others: seq<Message>, plan: seq<Choice>, m: Message, c: Choice, j: nat)
    requires |others| == |plan| && j <= |others|
    ensures SpentFrom(others + [m], plan + [c], j) == SpentFrom(others, plan, j) + (if c.Kept? then Cost(m) else 0)
    decreases |others| - j
  {
    if j < |others| {
      SpentSnoc(others, plan, m, c, j + 1);
    } else {
      assert SpentFrom(others + [m], plan + [c], j + 1) == 0;
    }
  }

  lemma ShortenedSnoc(plan: seq<Choice>, c: Choice, j: nat)
    requires j <= |plan|
    ensures ShortenedFrom(plan + [c], j) <==> ShortenedFrom(plan, j) || c.Shortening?
  {
    if c.Shortening? {
      assert (plan + [c])[|plan|].Shortening?;
    }
    if ShortenedFrom(plan, j) {
      var k :| j <= k < |plan| && plan[k].Shortening?;
      assert (plan + [c])[k].Shortening?;
    }
  }

  lemma {:induction false} PlanOfNothing(others: seq<Message>, j: nat)
    ensures |Plan(others, 0)| == |others|
    ensures !ShortenedFrom(Plan(others, 0), j) && SpentFrom(others, Plan(others, 0), j) == 0
    decreases |others|
  {
    if others != [] {
      var front, newest := others[..|others| - 1], others[|others| - 1];
      PlanOfNothing(front, j);
      assert others == front + [newest];
      if j <= |front| {
        SpentSnoc(front, Plan(front, 0), newest, Dropped, j);
        ShortenedSnoc(Plan(front, 0), Dropped, j);
      }
    }
  }

  /** What an older message finds is the same whether the newest one is still in view or its
      cost has been taken off the budget. */
  lemma LeftSnoc(front: seq<Message>, plan: seq<Choice>, newest: Message, budget: nat, j: nat)
    requires |front| == |plan| && j < |front|
    requires Choose(newest, budget).Shortening? ==> plan == Plan(front, 0)
    ensures LeftAt(front + [newest], plan + [Choose(newest, budget)], budget, j)
            == LeftAt(front, plan, Rest(newest, budget), j)
  {
    var c, next := Choose(newest, budget), j + 1;
    SpentSnoc(front, plan, newest, c, next);
    ShortenedSnoc(plan, c, next);
    PlanOfNothing(front, next);
  }

  lemma {:induction false} RenderedSnoc(front: seq<Message>, plan: seq<Choice>, newest: Message, budget: nat, n: nat)
    requires |front| == |plan| && n <= |front|
    requires Choose(newest, budget).Shortening? ==> plan == Plan(front, 0)
    ensures Rendered(front + [newest], plan + [Choose(newest, budget)], budget, n)
            == Rendered(front, plan, Rest(newest, budget), n)
    decreases n
  {
    if n > 0 {
      var j := n - 1;
      RenderedSnoc(front, plan, newest, budget, j);
      LeftSnoc(front, plan, newest, budget, j);
      assert (front + [newest])[j] == front[j] && (plan + [Choose(newest, budget)])[j] == plan[j];
    }
  }

  /** The budget the older messages are left with. */
  function Rest(newest: Message, budget: nat): nat {
    match Choose(newest, budget)
    case Kept => budget - Cost(newest)
    case Shortening => 0
    case Dropped => budget
  }

  lemma PlanStep(front: seq<Message>, newest: Message, budget: nat)
    ensures Plan(front + [newest], budget) == Plan(front, Rest(newest, budget)) + [Choose(newest, budget)]
    ensures Pick(front + [newest], budget)
            == Pick(front, Rest(newest, budget)) + Outcome(newest, Choose(newest, budget), budget)
  {
    assert (front + [newest])[..|front|] == front;
    assert Pick(front, budget) + [] == Pick(front, budget);
  }

  lemma NewestFindsAll(others: seq<Message>, plan: seq<Choice>, budget: nat)
    requires |others| == |plan| > 0
    ensures LeftAt(others, plan, budget, |others| - 1) == budget
  {
  }

  /** Newest first, every message gets what the budget left by the newer ones allows: kept
      whole if it fits, cut if more than the floor is left, dropped otherwise. And what is
      kept is what that choice yields. */
  lemma {:induction false} ChoiceIsGreedy(others: seq<Message>, budget: nat)
    ensures |Plan(others, budget)| == |others|
    ensures Pick(others, budget) == Rendered(others, Plan(others, budget), budget, |others|)
    ensures forall j :: 0 <= j < |others| ==>
              Plan(others, budget)[j] == Choose(others[j], LeftAt(others, Plan(others, budget), budget, j))
    decreases |others|
  {
    if others != [] {
      var front, newest := others[..|others| - 1], others[|others| - 1];
      assert others == front + [newest];
      var older, plan := Plan(front, Rest(newest, budget)), Plan(others, budget);
      ChoiceIsGreedy(front, Rest(newest, budget));
      PlanStep(front, newest, budget);
      NewestFindsAll(others, plan, budget);
      RenderedSnoc(front, older, newest, budget, |front|);
      forall j | 0 <= j < |others|
        ensures plan[j] == Choose(others[j], LeftAt(others, plan, budget, j))
      {
        if j < |front| {
          LeftSnoc(front, older, newest, budget, j);
        }
      }
    }
  }

  /** The choice in bytes: with `left` tokens over, a message of at most 4 * (left - 5) bytes
      is kept whole; a longer one is cut if more than 10 tokens are left, else dropped. */
  lemma ChoiceInBytes(others: seq<Message>, budget: nat, j: nat)
    requires j < |others|
    ensures |Plan(others, budget)| == |others|
    ensures var plan := Plan(others, budget);
            var left, bytes := LeftAt(others, plan, budget, j), ByteLen(others[j].content);
            && (plan[j].Kept? <==> bytes <= 4 * (left - 5))
            && (plan[j].Shortening? <==> bytes > 4 * (left - 5) && left > 10)
            && (plan[j].Dropped? <==> bytes > 4 * (left - 5) && left <= 10)
  {
    ChoiceIsGreedy(others, budget);
    EstimateIsCeiling(others[j].content);
  }

  // ---- The overhead of what comes back whole ----

  /** How many of the first `n` messages come back as they were. */
  function WholeCount(others: seq<Message>, plan: seq<Choice>, budget: nat, n: nat): nat
    requires |others| == |plan| && n <= |others|
  {
    if n == 0 then 0 else
    var outcome := Outcome(others[n - 1], plan[n - 1], LeftAt(others, plan, budget, n - 1));
    WholeCount(others, plan, budget, n - 1) + (if outcome == [others[n - 1]] then 1 else 0)
  }

  /** A message sent to be cut whose text fits the bytes it is cut to. */
  ghost predicate CutSpares(others: seq<Message>, plan: seq<Choice>, budget: nat)
    requires |others| == |plan|
  {
    exists j :: 0 <= j < |others| && SparedAt(others, plan, budget, j)
  }

  predicate SparedAt(others: seq<Message>, plan: seq<Choice>, budget: nat, j: nat)
    requires |others| == |plan| && j < |others|
  {
    plan[j].Shortening? && ByteLen(others[j].content) <= LeftAt(others, plan, budget, j) * BYTES_PER_TOKEN
  }

  lemma CutIsWholeIff(text: string, limit: nat)
    ensures Cut(text, limit) == text <==> ByteLen(text) <= limit
  {
    CutFits(text, limit);
    if ByteLen(text) <= limit {
      CutIsLongest(text, limit, text);
    }
  }

  lemma {:induction false} WholeCountSnoc(front: seq<Message>, plan: seq<Choice>, newest: Message, budget: nat, n: nat)
    requires |front| == |plan| && n <= |front|
    requires Choose(newest, budget).Shortening? ==> plan == Plan(front, 0)
    ensures WholeCount(front + [newest], plan + [Choose(newest, budget)], budget, n)
            == WholeCount(front, plan, Rest(newest, budget), n)
    decreases n
  {
    if n > 0 {
      WholeCountSnoc(front, plan, newest, budget, n - 1);
      LeftSnoc(front, plan, newest, budget, n - 1);
    }
  }

  lemma CutSparesSnoc(front: seq<Message>, plan: seq<Choice>, newest: Message, budget: nat)
    requires |front| == |plan|
    requires Choose(newest, budget).Shortening? ==> plan == Plan(front, 0)
    ensures CutSpares(front + [newest], plan + [Choose(newest, budget)], budget) <==>
            || CutSpares(front, plan, Rest(newest, budget))
            || (Choose(newest, budget).Shortening? && ByteLen(newest.content) <= budget * BYTES_PER_TOKEN)
  {
    var others, choices := front + [newest], plan + [Choose(newest, budget)];
    NewestFindsAll(others, choices, budget);
    forall j | 0 <= j < |front|
      ensures SparedAt(others, choices, budget, j) <==> SparedAt(front, plan, Rest(newest, budget), j)
    {
      LeftSnoc(front, plan, newest, budget, j);
    }
    assert SparedAt(others, choices, budget, |front|) <==>
           Choose(newest, budget).Shortening? && ByteLen(newest.content) <= budget * BYTES_PER_TOKEN;
  }

  lemma {:induction false} NothingWhole(others: seq<Message>, n: nat)
    requires n <= |others|
    ensures |Plan(others, 0)| == |others|
    ensures WholeCount(others, Plan(others, 0), 0, n) == 0 && !CutSpares(others, Plan(others, 0), 0)
  {
    PlanOfNothing(others, 0);
    if n > 0 {
      NothingWhole(others, n - 1);
      ChoiceIsGreedy(others, 0);
    }
  }

  /** The messages picked, with the overhead of those that come back whole, stay within the
      budget exactly when the cut spares none. */
  lemma {:induction false} PickOverheadIff(others: seq<Message>, budget: nat)
    ensures |Plan(others, budget)| == |others|
    ensures var plan := Plan(others, budget);
            var whole := WholeCount(others, plan, budget, |others|);
            Total(Pick(others, budget)) + OVERHEAD * whole <= budget <==> !CutSpares(others, plan, budget)
    decreases |others|
  {
    if others != [] {
      var front, newest := others[..|others| - 1], others[|others| - 1];
      assert others == front + [newest];
      var rest := Rest(newest, budget);
      PickOverheadIff(front, rest);
      PlanStep(front, newest, budget);
      NewestFindsAll(others, Plan(others, budget), budget);
      WholeCountSnoc(front, Plan(front, rest), newest, budget, |front|);
      CutSparesSnoc(front, Plan(front, rest), newest, budget);
      TotalAppend(Pick(front, rest), Outcome(newest, Choose(newest, budget), budget));
      if Choose(newest, budget).Shortening? {
        PickNothing(front);
        NothingWhole(front, |front|);
        CutIsWholeIff(newest.content, budget * BYTES_PER_TOKEN);
        ShortenedFits(newest, budget);
        TotalOne(Shortened(newest, budget));
      } else {
        TotalOne(newest);
      }
    }
  }

  /** The limit covers the result, the reserve, and the overhead of every message that comes
      back whole, exactly when no message that was to be cut fits its bytes uncut: such a
      message is not charged its overhead. */
  lemma WholeOverheadIff(messages: seq<Message>, maxTokens: nat)
    requires Total(messages) > maxTokens && Total(Select(messages, true)) + OVERHEAD <= maxTokens
    ensures var others, budget := Select(messages, false), Budget(messages, maxTokens);
            var plan, result := Plan(others, budget), Trim(messages, maxTokens);
            && |plan| == |others|
            && result == Select(messages, true) + Rendered(others, plan, budget, |others|)
            && var whole := WholeCount(others, plan, budget, |others|);
               Total(result) + OVERHEAD * whole + OVERHEAD <= maxTokens <==> !CutSpares(others, plan, budget)
  {
    var others, budget := Select(messages, false), Budget(messages, maxTokens);
    ChoiceIsGreedy(others, budget);
    PickOverheadIff(others, budget);
    TotalAppend(Select(messages, true), Pick(others, budget));
  }

  /** A family where the overhead is not covered: the newest message fits the limit less the
      reserve, but not with its own overhead. It is sent to be cut and comes back whole. */
  lemma UnchargedMessage(a: Message, m: Message, maxTokens: nat)
    requires a.role != SYSTEM && m.role != SYSTEM
    requires maxTokens > 15 && Total([a, m]) > maxTokens
    requires maxTokens - 2 * OVERHEAD < EstimateTokens(m.content) <= maxTokens - OVERHEAD
    ensures Trim([a, m], maxTokens) == [m]
    ensures Total([m]) + OVERHEAD + OVERHEAD > maxTokens
  {
    var messages, budget := [a, m], maxTokens - OVERHEAD;
    SelectSame(messages, false);
    SelectOpposite(messages, true);
    assert messages[..1] == [a] && Budget(messages, maxTokens) == budget;
    PickNothing([a]);
    CutIsWholeIff(m.content, budget * BYTES_PER_TOKEN);
    assert Pick(messages, budget) == [] + [Shortened(m, budget)];
    assert [] + [m] == [m];
    TotalOne(m);
  }

  function Letters(n: nat): string {
    if n == 0 then "" else ['x'] + Letters(n - 1)
  }

  lemma {:induction false} LettersLength(n: nat)
    ensures ByteLen(Letters(n)) == n
  {
    if n > 0 {
      LettersLength(n - 1);
    }
  }

  /** A concrete one: 40 and 56 bytes under a limit of 20 tokens. */
  lemma UnchargedExample()
    ensures var a, m := Message("user", Letters(40)), Message("user", Letters(56));
            Trim([a, m], 20) == [m] && Total([m]) + 2 * OVERHEAD > 20
  {
    var a, m := Message("user", Letters(40)), Message("user", Letters(56));
    LettersLength(40);
    LettersLength(56);
    assert [a, m] == [a] + [m];
    TotalAppend([a], [m]);
    TotalOne(a);
    TotalOne(m);
    UnchargedMessage(a, m, 20);
  }

  // ---- 32-bit arithmetic ----

  lemma {:induction false} TotalCovers(messages: seq<Message>, i: nat)
    requires i < |messages|
    ensures EstimateTokens(messages[i].content) <= Total(messages)
    decreases |messages|
  {
    if i < |messages| - 1 {
      TotalCovers(messages[..|messages| - 1], i);
    }
  }

  /** Below 2^30 tokens in all, no length, sum or product that trimming computes leaves
      32 bits. */
  lemma ArithmeticFits(messages: seq<Message>, maxTokens: nat, i: nat)
    requires maxTokens < Total(messages) < 0x4000_0000 && i < |messages|
    ensures ByteLen(messages[i].content) < 0x1_0000_0000
    ensures Cost(messages[i]) < 0x1_0000_0000
    ensures Total(Select(messages, true)) + OVERHEAD < 0x1_0000_0000
    ensures Budget(messages, maxTokens) * BYTES_PER_TOKEN < 0x1_0000_0000
  {
    TotalCovers(messages, i);
    SelectTotals(messages);
  }
}
