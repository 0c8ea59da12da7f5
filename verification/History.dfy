/** Orphan cleaning and budget trimming of a message history
    (allama/agent/context.py). */
module History {
  import opened Messages

  // ---------------------------------------------------------------- cleaning

  /** The stateless rule: message `i` is judged by its two neighbours in the input.
      Calls need an answer right after them, returns a call right before them. */
  ghost predicate Kept(ms: seq<Message>, i: nat)
    requires i < |ms|
  {
    && (HasToolCall(ms[i]) ==> i + 1 < |ms| && Answers(ms[i], ms[i + 1]))
    && (HasToolReturn(ms[i]) ==> 0 < i && Answers(ms[i - 1], ms[i]))
  }

  ghost predicate WellPaired(ms: seq<Message>) {
    forall i :: 0 <= i < |ms| ==> Kept(ms, i)
  }

  /** The messages among the first `n` that the stateless rule keeps. */
  ghost function KeptPrefix(ms: seq<Message>, n: nat): seq<Message>
    requires n <= |ms|
  {
    if n == 0 then []
    else KeptPrefix(ms, n - 1) + (if Kept(ms, n - 1) then [ms[n - 1]] else [])
  }

  ghost function Cleaned(ms: seq<Message>): seq<Message> {
    KeptPrefix(ms, |ms|)
  }

  /** The loop looks ahead in its input but behind in its own output. */
  method CleanOrphanedToolMessages(messages: seq<Message>) returns (result: seq<Message>)
    ensures result == Cleaned(messages)
  {
    result := [];
    var i := 0;
    while i < |messages|
      invariant 0 <= i <= |messages|
      invariant result == KeptPrefix(messages, i)
    {
      var msg := messages[i];
      LastKept(messages, i);
      if HasToolCall(msg) {
        var hasMatchingReturns := false;
        if i + 1 < |messages| {
          hasMatchingReturns := Answers(msg, messages[i + 1]);
        }
        if !hasMatchingReturns {
          i := i + 1;
          continue;
        }
      }
      if HasToolReturn(msg) {
        var hasMatchingCalls := false;
        if result != [] {
          hasMatchingCalls := Answers(result[|result| - 1], msg);
        }
        if !hasMatchingCalls {
          i := i + 1;
          continue;
        }
      }
      result := result + [msg];
      i := i + 1;
    }
  }

  /** Looking behind in the output is as good as looking behind in the input: when
      either predecessor answers, they are the same message. */
  lemma {:induction false} LastKept(ms: seq<Message>, n: nat)
    requires n <= |ms|
    ensures var r := KeptPrefix(ms, n);
            r != [] && HasToolCall(r[|r| - 1]) ==> Kept(ms, n - 1) && r[|r| - 1] == ms[n - 1]
    ensures n < |ms| && HasToolReturn(ms[n]) ==>
              var r := KeptPrefix(ms, n);
              (r != [] && Answers(r[|r| - 1], ms[n])) == (0 < n && Answers(ms[n - 1], ms[n]))
  {
    if n > 0 {
      LastKept(ms, n - 1);
      var r := KeptPrefix(ms, n - 1);
      if r != [] && HasToolCall(r[|r| - 1]) {
        assert Answers(ms[n - 2], ms[n - 1]);
        AnswersSeparates(ms[n - 2], ms[n - 1]);
        assert Kept(ms, n - 1);
      }
    }
    if n < |ms| {
      if 0 < n && Answers(ms[n - 1], ms[n]) {
        AnswersSeparates(ms[n - 1], ms[n]);
        assert Kept(ms, n - 1);
      }
      var r := KeptPrefix(ms, n);
      if r != [] && Answers(r[|r| - 1], ms[n]) {
        AnswersSeparates(r[|r| - 1], ms[n]);
      }
    }
  }

  /** Message `j` of a kept prefix `r` is paired, where the last one may still be
      waiting for the input message `ms[n]` that follows. */
  ghost predicate PairedBefore(r: seq<Message>, j: nat, ms: seq<Message>, n: nat)
    requires j < |r|
  {
    && (HasToolReturn(r[j]) ==> 0 < j && Answers(r[j - 1], r[j]))
    && (HasToolCall(r[j]) ==> if j + 1 < |r| then Answers(r[j], r[j + 1])
                              else n < |ms| && Answers(r[j], ms[n]))
  }

  lemma {:induction false} KeptPrefixPaired(ms: seq<Message>, n: nat)
    requires n <= |ms|
    ensures forall j :: 0 <= j < |KeptPrefix(ms, n)| ==> PairedBefore(KeptPrefix(ms, n), j, ms, n)
  {
    if n > 0 {
      KeptPrefixPaired(ms, n - 1);
      LastKept(ms, n - 1);
      var r, s := KeptPrefix(ms, n - 1), KeptPrefix(ms, n);
      if r != [] && HasToolCall(r[|r| - 1]) {
        assert PairedBefore(r, |r| - 1, ms, n - 1);
        AnswersSeparates(r[|r| - 1], ms[n - 1]);
      }
      forall j | 0 <= j < |s|
        ensures PairedBefore(s, j, ms, n)
      {
        if j < |r| {
          assert PairedBefore(r, j, ms, n - 1);
          assert s[j] == r[j] && (j > 0 ==> s[j - 1] == r[j - 1]);
        }
      }
    }
  }

  lemma CleanedIsWellPaired(ms: seq<Message>)
    ensures WellPaired(Cleaned(ms))
  {
    KeptPrefixPaired(ms, |ms|);
    var r := Cleaned(ms);
    assert forall i :: 0 <= i < |r| && PairedBefore(r, i, ms, |ms|) ==> Kept(r, i);
  }

  lemma {:induction false} WellPairedPrefix(ms: seq<Message>, n: nat)
    requires WellPaired(ms) && n <= |ms|
    ensures KeptPrefix(ms, n) == ms[..n]
  {
    if n > 0 {
      WellPairedPrefix(ms, n - 1);
    }
  }

  /** Message `i` is a response with calls one of which the next message returns, a request
      with returns one of which the message before calls for, or has neither. */
  ghost predicate PairedInParts(ms: seq<Message>, i: nat)
    requires i < |ms|
  {
    match ms[i]
    case Response(parts) =>
      (exists p :: p in parts && p.ToolCall?) ==>
        && i + 1 < |ms| && ms[i + 1].Request?
        && exists p, q :: p in parts && q in ms[i + 1].requestParts && p.ToolCall? && q.ToolReturn?
                          && p.callId == q.returnId
    case Request(parts) =>
      (exists q :: q in parts && q.ToolReturn?) ==>
        && 0 < i && ms[i - 1].Response?
        && exists p, q :: p in ms[i - 1].responseParts && q in parts && p.ToolCall? && q.ToolReturn?
                          && p.callId == q.returnId
  }

  lemma KeptInParts(ms: seq<Message>, i: nat)
    requires i < |ms|
    ensures Kept(ms, i) <==> PairedInParts(ms, i)
  {
    if i + 1 < |ms| {
      AnswersInParts(ms[i], ms[i + 1]);
    }
    if i > 0 {
      AnswersInParts(ms[i - 1], ms[i]);
    }
  }

  /** `r` holds the messages among the first `n` whose places `keep` allows, in order. */
  ghost predicate IsFiltering(ms: seq<Message>, n: nat, keep: nat -> bool, r: seq<Message>, places: seq<nat>) {
    && |places| == |r|
    && (forall k :: 0 <= k < |places| ==> places[k] < n <= |ms| && r[k] == ms[places[k]])
    && (forall k, l :: 0 <= k < l < |places| ==> places[k] < places[l])
    && (forall i: nat :: i < n ==> (i in places <==> keep(i)))
  }

  lemma ExtendFiltering(ms: seq<Message>, n: nat, keep: nat -> bool, r: seq<Message>, places: seq<nat>)
    requires IsFiltering(ms, n, keep, r, places) && n < |ms|
    ensures IsFiltering(ms, n + 1, keep, r + (if keep(n) then [ms[n]] else []),
                        places + (if keep(n) then [n] else []))
  {
  }

  ghost function PairedAt(ms: seq<Message>): nat -> bool {
    (i: nat) => i < |ms| && PairedInParts(ms, i)
  }

  ghost function PrefixOf(ms: seq<Message>): nat -> seq<Message> {
    (k: nat) => if k <= |ms| then KeptPrefix(ms, k) else []
  }

  lemma PrefixStep(ms: seq<Message>, k: nat)
    requires k < |ms|
    ensures PrefixOf(ms)(k + 1) == PrefixOf(ms)(k) + if PairedAt(ms)(k) then [ms[k]] else []
  {
    KeptInParts(ms, k);
  }

  lemma PrefixEnds(ms: seq<Message>)
    ensures PrefixOf(ms)(0) == [] && PrefixOf(ms)(|ms|) == Cleaned(ms)
  {
  }

  lemma {:induction false} FilterFrom(ms: seq<Message>, keep: nat -> bool, prefix: nat -> seq<Message>, n: nat)
    returns (places: seq<nat>)
    requires n <= |ms| && prefix(0) == []
    requires forall k: nat :: k < n ==> prefix(k + 1) == prefix(k) + if keep(k) then [ms[k]] else []
    ensures IsFiltering(ms, n, keep, prefix(n), places)
  {
    places := [];
    if n > 0 {
      places := FilterFrom(ms, keep, prefix, n - 1);
      ExtendFiltering(ms, n - 1, keep, prefix(n - 1), places);
      assert prefix(n - 1 + 1) == prefix(n);
      places := places + if keep(n - 1) then [n - 1] else [];
    }
  }

  /** Cleaning keeps exactly the messages paired in this sense, unchanged and in order. */
  lemma CleaningKeepsThePaired(ms: seq<Message>) returns (places: seq<nat>)
    ensures IsFiltering(ms, |ms|, PairedAt(ms), Cleaned(ms), places)
  {
    forall k: nat | k < |ms|
      ensures PrefixOf(ms)(k + 1) == PrefixOf(ms)(k) + if PairedAt(ms)(k) then [ms[k]] else []
    {
      PrefixStep(ms, k);
    }
    PrefixEnds(ms);
    places := FilterFrom(ms, PairedAt(ms), PrefixOf(ms), |ms|);
  }

  /** Cleaning changes a history exactly when it is not well paired. */
  lemma CleanedFixedPoint(ms: seq<Message>)
    ensures Cleaned(ms) == ms <==> WellPaired(ms)
    ensures Cleaned(Cleaned(ms)) == Cleaned(ms)
  {
    CleanedIsWellPaired(ms);
    WellPairedPrefix(Cleaned(ms), |Cleaned(ms)|);
    if WellPaired(ms) {
      WellPairedPrefix(ms, |ms|);
    }
  }

  // ---------------------------------------------------------------- trimming

  function Cost(cost: Message -> nat, ms: seq<Message>): nat {
    if ms == [] then 0 else cost(ms[0]) + Cost(cost, ms[1..])
  }

  /** The system prompt survives trimming, if the first message holds one. */
  function HeadLength(ms: seq<Message>): nat {
    if ms != [] && HasSystemPrompt(ms[0]) then 1 else 0
  }

  /** A message that may open a history: it neither answers nor asks for a tool. */
  predicate SafeStart(msg: Message) {
    !HasToolReturn(msg) && !HasToolCall(msg)
  }

  /** Keeping `ms[..h]` and the nonempty suffix `ms[k..]` meets the budget and opens
      the suffix safely. */
  ghost predicate SafeCut(cost: Message -> nat, budget: int, ms: seq<Message>, k: nat) {
    && HeadLength(ms) <= k < |ms|
    && SafeStart(ms[k])
    && Cost(cost, ms[..HeadLength(ms)]) + Cost(cost, ms[k..]) <= budget
  }

  /** What trimming promises of its result `r` for the cleaned history `ms`: all of it
      when it fits or cannot be cut, otherwise the head and the longest suffix that a
      safe cut can leave. */
  ghost predicate IsTrimOf(cost: Message -> nat, budget: int, ms: seq<Message>, r: seq<Message>) {
    if Cost(cost, ms) <= budget || !exists k: nat :: SafeCut(cost, budget, ms, k) then r == ms
    else exists k: nat ::
           && SafeCut(cost, budget, ms, k)
           && (forall j: nat :: SafeCut(cost, budget, ms, j) ==> k <= j)
           && r == ms[..HeadLength(ms)] + ms[k..]
  }

  lemma {:induction false} CostSplit(cost: Message -> nat, ms: seq<Message>, k: nat)
    requires k <= |ms|
    ensures Cost(cost, ms) == Cost(cost, ms[..k]) + Cost(cost, ms[k..])
  {
    if k == 0 {
      assert ms[..0] == [] && ms[0..] == ms;
    } else {
      CostSplit(cost, ms[1..], k - 1);
      assert ms[..k][1..] == ms[1..][..k - 1];
      assert ms[1..][k - 1..] == ms[k..];
    }
  }

  lemma CostOfSuffix(cost: Message -> nat, ms: seq<Message>, j: nat, k: nat)
    requires j <= k <= |ms|
    ensures Cost(cost, ms[k..]) <= Cost(cost, ms[j..])
  {
    CostSplit(cost, ms[j..], k - j);
    assert ms[j..][k - j..] == ms[k..];
  }

  /** The backward scan: the first index whose suffix stays within `available`. */
  method BudgetCut(cost: Message -> nat, available: int, body: seq<Message>) returns (cut: nat)
    requires available < Cost(cost, body)
    ensures cut <= |body|
    ensures forall k :: 0 <= k < |body| ==> (cut <= k <==> Cost(cost, body[k..]) <= available)
  {
    cut := |body|;
    var accumulated := 0;
    var i := |body|;
    while i > 0
      invariant 0 <= i <= |body|
      invariant accumulated == Cost(cost, body[i..])
      invariant i < |body| ==> accumulated <= available
      invariant cut == |body|
    {
      var tokens := cost(body[i - 1]);
      assert body[i - 1..][1..] == body[i..];
      if accumulated + tokens > available {
        cut := i;
        break;
      }
      accumulated := accumulated + tokens;
      i := i - 1;
    }
    assert body[0..] == body;
    forall k | 0 <= k < |body|
      ensures cut <= k <==> Cost(cost, body[k..]) <= available
    {
      if cut <= k {
        CostOfSuffix(cost, body, cut, k);
      } else {
        CostOfSuffix(cost, body, k, cut - 1);
      }
    }
  }

  /** A budget cut and the first safe start after it give the first safe cut. */
  lemma FirstSafeCut(cost: Message -> nat, budget: int, ms: seq<Message>, body: seq<Message>, cut: nat, safe: nat)
    requires HeadLength(ms) <= |ms| && body == ms[HeadLength(ms)..]
    requires forall k :: 0 <= k < |body| ==>
               (cut <= k <==> Cost(cost, body[k..]) <= budget - Cost(cost, ms[..HeadLength(ms)]))
    requires cut <= safe <= |body| && (safe < |body| ==> SafeStart(body[safe]))
    requires forall k :: cut <= k < safe ==> !SafeStart(body[k])
    ensures safe < |body| ==> SafeCut(cost, budget, ms, HeadLength(ms) + safe)
    ensures forall k: nat :: SafeCut(cost, budget, ms, k) ==> safe < |body| && HeadLength(ms) + safe <= k
  {
    var h := HeadLength(ms);
    forall k | h <= k < |ms|
      ensures SafeCut(cost, budget, ms, k) <==> cut <= k - h && SafeStart(body[k - h])
    {
      assert body[k - h..] == ms[k..];
    }
  }

  /** The forward search: the first safe start from `cut` on, or the end. */
  method FindSafeStart(body: seq<Message>, cut: nat) returns (safe: nat)
    requires cut <= |body|
    ensures cut <= safe <= |body|
    ensures safe < |body| ==> SafeStart(body[safe])
    ensures forall k :: cut <= k < safe ==> !SafeStart(body[k])
  {
    for k := cut to |body|
      invariant forall j :: cut <= j < k ==> !SafeStart(body[j])
    {
      if HasToolReturn(body[k]) {
        continue;
      }
      if HasToolCall(body[k]) {
        continue;
      }
      return k;
    }
    return |body|;
  }

  lemma UncutIsTrim(cost: Message -> nat, budget: int, ms: seq<Message>)
    requires Cost(cost, ms) <= budget || forall k: nat :: !SafeCut(cost, budget, ms, k)
    ensures IsTrimOf(cost, budget, ms, ms)
  {
  }

  lemma FirstCutIsTrim(cost: Message -> nat, budget: int, ms: seq<Message>, k: nat, r: seq<Message>)
    requires Cost(cost, ms) > budget && SafeCut(cost, budget, ms, k)
    requires forall j: nat :: SafeCut(cost, budget, ms, j) ==> k <= j
    requires r == ms[..HeadLength(ms)] + ms[k..]
    ensures IsTrimOf(cost, budget, ms, r)
  {
  }

  /** Sets the system prompt apart. */
  method SplitHead(cost: Message -> nat, ms: seq<Message>) returns (systemTokens: nat, trimmable: seq<Message>)
    requires ms != []
    ensures trimmable == ms[HeadLength(ms)..]
    ensures systemTokens == Cost(cost, ms[..HeadLength(ms)])
    ensures Cost(cost, ms) == systemTokens + Cost(cost, trimmable)
  {
    systemTokens, trimmable := 0, ms;
    if HasSystemPrompt(ms[0]) {
      systemTokens, trimmable := cost(ms[0]), ms[1..];
    }
    CostSplit(cost, ms, HeadLength(ms));
    assert ms[..0] == [] && ms[..1][1..] == [] && ms[0..] == ms;
  }

  /** The first safe cut of a history over the budget, or its end. */
  ghost predicate IsFirstCut(cost: Message -> nat, budget: int, ms: seq<Message>, cut: nat) {
    && (cut >= |ms| ==> Cost(cost, ms) <= budget || forall k: nat :: !SafeCut(cost, budget, ms, k))
    && (cut < |ms| ==> Cost(cost, ms) > budget && SafeCut(cost, budget, ms, cut))
    && (cut < |ms| ==> forall k: nat :: SafeCut(cost, budget, ms, k) ==> cut <= k)
  }

  lemma CutOfBody(cost: Message -> nat, budget: int, ms: seq<Message>, safe: nat)
    requires Cost(cost, ms) > budget && HeadLength(ms) <= |ms|
    requires HeadLength(ms) + safe < |ms| ==> SafeCut(cost, budget, ms, HeadLength(ms) + safe)
    requires forall k: nat :: SafeCut(cost, budget, ms, k) ==>
               HeadLength(ms) + safe < |ms| && HeadLength(ms) + safe <= k
    ensures IsFirstCut(cost, budget, ms, HeadLength(ms) + safe)
  {
  }

  lemma NothingToCut(cost: Message -> nat, budget: int, ms: seq<Message>)
    requires HeadLength(ms) >= |ms| || Cost(cost, ms) <= budget
    ensures IsFirstCut(cost, budget, ms, |ms|)
  {
  }

  /** Where the history is cut: nowhere, or at the first safe cut. */
  method FindCut(cost: Message -> nat, budget: int, ms: seq<Message>) returns (cut: nat)
    requires ms != []
    ensures cut <= |ms| && IsFirstCut(cost, budget, ms, cut)
  {
    var systemTokens, trimmable := SplitHead(cost, ms);
    if trimmable == [] {
      NothingToCut(cost, budget, ms);
      return |ms|;
    }
    var available := budget - systemTokens;
    if Cost(cost, trimmable) <= available {
      NothingToCut(cost, budget, ms);
      return |ms|;
    }
    var budgetCut := BudgetCut(cost, available, trimmable);
    var safe := FindSafeStart(trimmable, budgetCut);
    FirstSafeCut(cost, budget, ms, trimmable, budgetCut, safe);
    assert Cost(cost, ms) > budget;
    CutOfBody(cost, budget, ms, safe);
    return HeadLength(ms) + safe;
  }

  method TrimHistory(cost: Message -> nat, budget: int, messages: seq<Message>)
    returns (result: seq<Message>)
    ensures IsTrimOf(cost, budget, Cleaned(messages), result)
  {
    var ms := CleanOrphanedToolMessages(messages);
    if ms == [] {
      return ms;
    }
    var cut := FindCut(cost, budget, ms);
    if cut == |ms| {
      UncutIsTrim(cost, budget, ms);
      return ms;
    }
    result := if HasSystemPrompt(ms[0]) then [ms[0]] + ms[cut..] else ms[cut..];
    assert result == ms[..HeadLength(ms)] + ms[cut..];
    FirstCutIsTrim(cost, budget, ms, cut, result);
  }

  // What a trimmed history `r` of the cleaned history `ms` is good for.

  lemma TrimIsWellPaired(cost: Message -> nat, budget: int, ms: seq<Message>, r: seq<Message>)
    requires WellPaired(ms) && IsTrimOf(cost, budget, ms, r)
    ensures WellPaired(r)
  {
    if r != ms {
      var h := HeadLength(ms);
      var k: nat :| SafeCut(cost, budget, ms, k) && r == ms[..h] + ms[k..];
      assert Kept(ms, 0);
      forall i | 0 <= i < |r|
        ensures Kept(r, i)
      {
        if i >= h {
          assert Kept(ms, i - h + k);
        }
      }
    }
  }

  lemma TrimKeepsSystemPrompt(cost: Message -> nat, budget: int, ms: seq<Message>, r: seq<Message>)
    requires IsTrimOf(cost, budget, ms, r)
    ensures ms != [] ==> r != []
    ensures ms != [] && HasSystemPrompt(ms[0]) ==> r[0] == ms[0]
  {
  }

  /** The result fits exactly when the whole history fits or a safe cut exists; in
      particular it fits whenever anything was dropped. */
  lemma TrimFits(cost: Message -> nat, budget: int, ms: seq<Message>, r: seq<Message>)
    requires IsTrimOf(cost, budget, ms, r)
    ensures Cost(cost, r) <= budget <==>
              Cost(cost, ms) <= budget || exists k: nat :: SafeCut(cost, budget, ms, k)
    ensures r != ms ==> Cost(cost, r) <= budget
  {
    if r != ms {
      var h := HeadLength(ms);
      var k: nat :| SafeCut(cost, budget, ms, k) && r == ms[..h] + ms[k..];
      CostSplit(cost, r, h);
      assert r[..h] == ms[..h] && r[h..] == ms[k..];
    }
  }

  /** A message without calls and returns. */
  ghost predicate NoToolParts(msg: Message) {
    match msg
    case Request(parts) => forall p :: p in parts ==> !p.ToolReturn?
    case Response(parts) => forall p :: p in parts ==> !p.ToolCall?
  }

  ghost predicate OpensWithPrompt(ms: seq<Message>) {
    ms != [] && ms[0].Request? && exists p :: p in ms[0].requestParts && p.SystemPrompt?
  }

  /** What is left when message `k` follows the system prompt, if there is one. */
  ghost function CutAt(ms: seq<Message>, k: nat): seq<Message>
    requires k < |ms|
  {
    (if OpensWithPrompt(ms) then [ms[0]] else []) + ms[k..]
  }

  ghost predicate FitsCutAt(cost: Message -> nat, budget: int, ms: seq<Message>, k: nat) {
    && k < |ms| && (OpensWithPrompt(ms) ==> k >= 1)
    && NoToolParts(ms[k]) && Cost(cost, CutAt(ms, k)) <= budget
  }

  lemma SafeCutInParts(cost: Message -> nat, budget: int, ms: seq<Message>, k: nat)
    ensures SafeCut(cost, budget, ms, k) <==> FitsCutAt(cost, budget, ms, k)
  {
    var h := HeadLength(ms);
    if h <= k < |ms| {
      var r := CutAt(ms, k);
      assert h == 1 ==> [ms[0]] == ms[..1];
      assert r == ms[..h] + ms[k..] && r[..h] == ms[..h] && r[h..] == ms[k..];
      CostSplit(cost, r, h);
    }
  }

  /** Trimming described on the parts of the messages: a history within the budget stays;
      one over it is cut at the first message without tool parts from which on, with the
      system prompt, it fits, and stays where there is no such message. */
  lemma TrimmedAtFirstFit(cost: Message -> nat, budget: int, ms: seq<Message>, r: seq<Message>)
    requires IsTrimOf(cost, budget, ms, r)
    ensures Cost(cost, ms) <= budget ==> r == ms
    ensures Cost(cost, ms) > budget && (forall k: nat :: !FitsCutAt(cost, budget, ms, k)) ==> r == ms
    ensures Cost(cost, ms) > budget ==>
              forall k: nat ::
                FitsCutAt(cost, budget, ms, k) && (forall j: nat :: j < k ==> !FitsCutAt(cost, budget, ms, j)) ==>
                  r == CutAt(ms, k)
  {
    forall k: nat
      ensures SafeCut(cost, budget, ms, k) <==> FitsCutAt(cost, budget, ms, k)
    {
      SafeCutInParts(cost, budget, ms, k);
    }
    forall k: nat | Cost(cost, ms) > budget && FitsCutAt(cost, budget, ms, k)
                    && forall j: nat :: j < k ==> !FitsCutAt(cost, budget, ms, j)
      ensures r == CutAt(ms, k)
    {
      assert SafeCut(cost, budget, ms, k);
      assert HeadLength(ms) == 1 ==> [ms[0]] == ms[..1];
    }
  }

  /** The cost of a history is the sum over its messages. */
  lemma CostIsSum(cost: Message -> nat, a: seq<Message>, msg: Message, b: seq<Message>)
    ensures Cost(cost, []) == 0 && Cost(cost, [msg]) == cost(msg)
    ensures Cost(cost, a + [msg] + b) == Cost(cost, a) + cost(msg) + Cost(cost, b)
  {
    var all := a + [msg] + b;
    CostSplit(cost, all, |a|);
    CostSplit(cost, all[|a|..], 1);
    assert all[..|a|] == a && all[|a|..][..1] == [msg] && all[|a|..][1..] == b;
    assert [msg][1..] == [];
  }

  /** Trimming a trimmed history, cleaning included, changes nothing. */
  lemma TrimIdempotent(cost: Message -> nat, budget: int, ms: seq<Message>, r: seq<Message>, s: seq<Message>)
    requires IsTrimOf(cost, budget, Cleaned(ms), r)
    requires IsTrimOf(cost, budget, Cleaned(r), s)
    ensures s == r
  {
    CleanedIsWellPaired(ms);
    TrimIsWellPaired(cost, budget, Cleaned(ms), r);
    CleanedFixedPoint(r);
    TrimFits(cost, budget, Cleaned(ms), r);
  }

  /** A single message over the budget stays, and the result does not fit. */
  lemma SingleMessageStays(cost: Message -> nat, budget: int, msg: Message, r: seq<Message>)
    requires SafeStart(msg) && cost(msg) > budget
    ensures Cleaned([msg]) == [msg] && (IsTrimOf(cost, budget, [msg], r) <==> r == [msg])
    ensures Cost(cost, [msg]) > budget
  {
    var ms := [msg];
    assert KeptPrefix(ms, 1) == KeptPrefix(ms, 0) + [msg];
    assert Cost(cost, ms) == cost(msg) + Cost(cost, ms[1..]);
    forall k: nat
      ensures !SafeCut(cost, budget, ms, k)
    {
      if k == 0 {
        assert ms[0..] == ms;
      }
    }
  }
}
