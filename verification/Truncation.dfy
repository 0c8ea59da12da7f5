/** Size-limiting of tool returns (allama/agent/context.py) and how it combines with
    orphan cleaning. */
module Truncation {
  import opened Messages
  import opened Decimal
  import opened History

  function Marker(removed: nat): string {
    "\n\n[... truncated " + Render(removed) + " chars ...]"
  }

  /** Cuts an oversized text and marks how much is gone. */
  function CutText(marker: nat -> string, s: string, maxChars: nat): string {
    if |s| <= maxChars then s else s[..maxChars] + marker(|s| - maxChars)
  }

  function TruncateText(s: string, maxChars: nat): string {
    CutText(Marker, s, maxChars)
  }

  function Serialized(c: Content): string {
    match c
    case Absent => ""
    case Text(s) => s
    case Structured(json) => json
  }

  predicate Oversized(c: Content, maxChars: nat) {
    |Serialized(c)| > maxChars
  }

  /** A content within the limit keeps its type; a larger one becomes marked text. */
  function TruncateContent(c: Content, maxChars: nat): Content {
    if Oversized(c, maxChars) then Text(TruncateText(Serialized(c), maxChars)) else c
  }

  function TruncatePart(p: RequestPart, maxChars: nat): RequestPart {
    if p.ToolReturn? then p.(content := TruncateContent(p.content, maxChars)) else p
  }

  function TruncateMessage(msg: Message, maxChars: nat): Message {
    if msg.Response? then msg
    else Request(seq(|msg.requestParts|, i requires 0 <= i < |msg.requestParts| =>
      TruncatePart(msg.requestParts[i], maxChars)))
  }

  function TruncateHistory(ms: seq<Message>, maxChars: nat): (r: seq<Message>)
    ensures |r| == |ms|
  {
    seq(|ms|, i requires 0 <= i < |ms| => TruncateMessage(ms[i], maxChars))
  }

  method NeedsTruncation(parts: seq<RequestPart>, maxChars: nat) returns (needed: bool)
    ensures !needed ==> forall j :: 0 <= j < |parts| ==> TruncatePart(parts[j], maxChars) == parts[j]
  {
    for k := 0 to |parts|
      invariant forall j :: 0 <= j < k ==> TruncatePart(parts[j], maxChars) == parts[j]
    {
      if parts[k].ToolReturn? && Oversized(parts[k].content, maxChars) {
        return true;
      }
    }
    return false;
  }

  method TruncateParts(parts: seq<RequestPart>, maxChars: nat) returns (newParts: seq<RequestPart>)
    ensures |newParts| == |parts|
    ensures forall j :: 0 <= j < |parts| ==> newParts[j] == TruncatePart(parts[j], maxChars)
  {
    newParts := [];
    for k := 0 to |parts|
      invariant |newParts| == k
      invariant forall j :: 0 <= j < k ==> newParts[j] == TruncatePart(parts[j], maxChars)
    {
      var part := parts[k];
      if part.ToolReturn? {
        var serialized := Serialized(part.content);
        if |serialized| > maxChars {
          newParts := newParts + [part.(content := Text(TruncateText(serialized, maxChars)))];
        } else {
          newParts := newParts + [part];
        }
      } else {
        newParts := newParts + [part];
      }
    }
  }

  /** The loop rebuilds a request only when one of its tool returns is too large. */
  method TruncateToolReturns(messages: seq<Message>, maxChars: nat) returns (result: seq<Message>)
    ensures result == TruncateHistory(messages, maxChars)
  {
    result := [];
    for i := 0 to |messages|
      invariant |result| == i
      invariant forall j :: 0 <= j < i ==> result[j] == TruncateMessage(messages[j], maxChars)
    {
      var msg := messages[i];
      if msg.Response? {
        result := result + [msg];
        continue;
      }
      var needed := NeedsTruncation(msg.requestParts, maxChars);
      if !needed {
        assert TruncateMessage(msg, maxChars).requestParts == msg.requestParts;
        result := result + [msg];
        continue;
      }
      var newParts := TruncateParts(msg.requestParts, maxChars);
      assert TruncateMessage(msg, maxChars).requestParts == newParts;
      result := result + [Request(newParts)];
    }
  }

  // ------------------------------------------------- what one pass preserves

  ghost function Notice(removed: nat): string {
    "\n\n" + ("[... truncated " + Render(removed) + " chars ...]")
  }

  lemma MarkerIsNotice(n: nat)
    ensures Marker(n) == Notice(n)
  {
    assert "\n\n[... truncated " == "\n\n" + "[... truncated ";
  }

  lemma LongTextIsCut(s: string, maxChars: nat)
    requires |s| > maxChars
    ensures TruncateText(s, maxChars) == s[..maxChars] + Marker(|s| - maxChars)
  {
  }

  /** `q` is the part `p`, or `p` with its returned text, if that is too long, cut after
      `maxChars` characters and followed by the number of characters removed. */
  ghost predicate Limited(p: RequestPart, q: RequestPart, maxChars: nat) {
    if p.ToolReturn? && !p.content.Absent? then
      var text := if p.content.Text? then p.content.text else p.content.json;
      if |text| <= maxChars then q == p
      else
        q == ToolReturn(p.toolName, p.returnId, Text(text[..maxChars] + Notice(|text| - maxChars)))
    else q == p
  }

  lemma PartIsLimited(p: RequestPart, maxChars: nat)
    ensures Limited(p, TruncatePart(p, maxChars), maxChars)
  {
    if p.ToolReturn? && Oversized(p.content, maxChars) {
      LongTextIsCut(Serialized(p.content), maxChars);
      MarkerIsNotice(|Serialized(p.content)| - maxChars);
    }
  }

  /** Responses stay, and requests part by part but for returned texts over the limit. */
  lemma TruncationPreserves(ms: seq<Message>, maxChars: nat, i: nat)
    requires i < |ms|
    ensures |TruncateHistory(ms, maxChars)| == |ms|
    ensures ms[i].Response? ==> TruncateHistory(ms, maxChars)[i] == ms[i]
    ensures ms[i].Request? ==>
              var ps, t := ms[i].requestParts, TruncateHistory(ms, maxChars)[i];
              && t.Request? && |t.requestParts| == |ps|
              && forall k :: 0 <= k < |ps| ==> Limited(ps[k], t.requestParts[k], maxChars)
  {
    if ms[i].Request? {
      var ps := ms[i].requestParts;
      forall k | 0 <= k < |ps|
        ensures Limited(ps[k], TruncateHistory(ms, maxChars)[i].requestParts[k], maxChars)
      {
        PartIsLimited(ps[k], maxChars);
        assert TruncateHistory(ms, maxChars)[i].requestParts[k] == TruncatePart(ps[k], maxChars);
      }
    }
  }

  lemma TruncationKeepsIds(msg: Message, maxChars: nat)
    ensures var t := TruncateMessage(msg, maxChars);
            && HasToolCall(t) == HasToolCall(msg) && CallIds(t) == CallIds(msg)
            && HasToolReturn(t) == HasToolReturn(msg) && ReturnIds(t) == ReturnIds(msg)
            && HasSystemPrompt(t) == HasSystemPrompt(msg)
  {
    if msg.Request? {
      var ps, qs := msg.requestParts, TruncateMessage(msg, maxChars).requestParts;
      forall k | 0 <= k < |ps|
        ensures qs[k] in qs && qs[k] == TruncatePart(ps[k], maxChars)
      {
      }
      assert forall q :: q in qs ==> exists k :: 0 <= k < |ps| && q == qs[k];
      assert forall p :: p in ps ==> TruncatePart(p, maxChars) in qs;
      forall id
        ensures id in ReturnIds(msg) <==> id in ReturnIds(TruncateMessage(msg, maxChars))
      {
        if id in ReturnIds(msg) {
          var p :| p in ps && p.ToolReturn? && p.returnId == id;
          assert TruncatePart(p, maxChars) in qs;
        }
      }
    }
  }

  /** The orphan rule cannot tell a truncated history from the original. */
  lemma {:induction false} TruncationCommutesWithCleaning(ms: seq<Message>, maxChars: nat, n: nat)
    requires n <= |ms|
    ensures KeptPrefix(TruncateHistory(ms, maxChars), n) == TruncateHistory(KeptPrefix(ms, n), maxChars)
    ensures n == |ms| ==> Cleaned(TruncateHistory(ms, maxChars)) == TruncateHistory(Cleaned(ms), maxChars)
  {
    if n > 0 {
      TruncationCommutesWithCleaning(ms, maxChars, n - 1);
      var ts := TruncateHistory(ms, maxChars);
      TruncationKeepsIds(ms[n - 1], maxChars);
      if n > 1 { TruncationKeepsIds(ms[n - 2], maxChars); }
      if n < |ms| { TruncationKeepsIds(ms[n], maxChars); }
      assert Kept(ts, n - 1) == Kept(ms, n - 1);
    }
  }

  // ------------------------------------------------- repeated passes

  /** An oversized text gets a marker of `28 + digits` characters, so this is how far
      above the limit the next pass finds it. */
  function NextExcess(n: nat): nat {
    28 + |Render(n)|
  }

  lemma MarkerLength(n: nat)
    ensures |Marker(n)| == NextExcess(n)
  {
  }

  /** 30 is the only excess that reproduces itself. */
  lemma NextExcessFixedPoint(n: nat)
    ensures NextExcess(n) == n <==> n == 30
    ensures 30 < n ==> 30 <= NextExcess(n) < n
    ensures 10 <= n < 30 ==> NextExcess(n) == 30
    ensures n < 10 ==> NextExcess(n) == 29
  {
    LengthBound(n);
    if 100 <= n < 110 {
      LengthBound(n / 10);
    }
  }

  /** The number of passes after the first until the marker no longer changes. */
  ghost function PassesToSettle(n: nat): nat
    decreases if n == 30 then 0 else if n < 10 then 2 else if n < 30 then 1 else n
  {
    NextExcessFixedPoint(n);
    if n == 30 then 0 else 1 + PassesToSettle(NextExcess(n))
  }

  lemma MarkerInjective(m: nat, n: nat)
    requires Marker(m) == Marker(n)
    ensures m == n
  {
    var k := |"\n\n[... truncated "|;
    var p, q := Marker(m), Marker(n);
    assert p[k..k + |Render(m)|] == Render(m);
    assert q[k..k + |Render(n)|] == Render(n);
    RenderInjective(m, n);
  }

  /** The text after `k` passes. */
  function Passes(marker: nat -> string, k: nat, s: string, maxChars: nat): string {
    if k == 0 then s else Passes(marker, k - 1, CutText(marker, s, maxChars), maxChars)
  }

  /** A second pass changes nothing exactly when the text fits or exceeds the limit by
      30 characters. */
  lemma TruncatingTwice(s: string, maxChars: nat)
    ensures var t := TruncateText(s, maxChars);
            TruncateText(t, maxChars) == t <==> |s| <= maxChars || |s| - maxChars == 30
    ensures |s| > maxChars ==>
              TruncateText(TruncateText(s, maxChars), maxChars)
              == s[..maxChars] + Marker(NextExcess(|s| - maxChars))
  {
    if |s| > maxChars {
      var n := |s| - maxChars;
      MarkerLength(n);
      var t := TruncateText(s, maxChars);
      var u := TruncateText(t, maxChars);
      assert t[..maxChars] == s[..maxChars];
      assert u == s[..maxChars] + Marker(NextExcess(n));
      if t == u {
        assert t[maxChars..] == Marker(n) && u[maxChars..] == Marker(NextExcess(n));
        MarkerInjective(n, NextExcess(n));
      }
      NextExcessFixedPoint(n);
    }
  }

  /** The excess that is left when `k` more passes follow one that found `n`. */
  function Repeat(next: nat -> nat, k: nat, n: nat): nat {
    if k == 0 then n else Repeat(next, k - 1, next(n))
  }

  function ExcessAfter(k: nat, n: nat): nat {
    Repeat(NextExcess, k, n)
  }

  lemma CutMarked(marker: nat -> string, prefix: string, n: nat)
    ensures CutText(marker, prefix + marker(n), |prefix|)
            == prefix + if marker(n) == "" then "" else marker(|marker(n)|)
  {
    assert (prefix + marker(n))[..|prefix|] == prefix;
  }

  /** Passes keep the prefix and only ever rewrite the marker, for any marker. */
  lemma {:induction false} PassesRewriteMarker(marker: nat -> string, next: nat -> nat, k: nat, prefix: string, n: nat)
    requires forall m: nat :: |marker(m)| == next(m) > 0
    ensures Passes(marker, k, prefix + marker(n), |prefix|) == prefix + marker(Repeat(next, k, n))
    decreases k
  {
    if k > 0 {
      CutMarked(marker, prefix, n);
      PassesRewriteMarker(marker, next, k - 1, prefix, next(n));
    }
  }

  lemma {:induction false} ExcessSettles(k: nat, n: nat)
    ensures ExcessAfter(k, n) == 30 <==> k >= PassesToSettle(n)
    decreases k
  {
    NextExcessFixedPoint(n);
    if k > 0 {
      ExcessSettles(k - 1, NextExcess(n));
    }
  }

  lemma SamePrefixSameMarker(marker: nat -> string, prefix: string, m: nat, n: nat)
    requires marker(m) == marker(n) ==> m == n
    ensures prefix + marker(m) == prefix + marker(n) <==> m == n
  {
    var p, q := prefix + marker(m), prefix + marker(n);
    if p == q {
      assert p[|prefix|..] == marker(m) && q[|prefix|..] == marker(n);
    }
  }

  lemma MarkedPassesSettle(marker: nat -> string, k: nat, s: string, maxChars: nat)
    requires forall n: nat :: |marker(n)| == NextExcess(n)
    requires forall m: nat, n: nat :: marker(m) == marker(n) ==> m == n
    requires |s| > maxChars && k >= 1
    ensures Passes(marker, k, s, maxChars) == s[..maxChars] + marker(30) <==> k > PassesToSettle(|s| - maxChars)
  {
    var n := |s| - maxChars;
    var prefix := s[..maxChars];
    assert Passes(marker, k, s, maxChars) == Passes(marker, k - 1, prefix + marker(n), maxChars);
    PassesRewriteMarker(marker, NextExcess, k - 1, prefix, n);
    ExcessSettles(k - 1, n);
    SamePrefixSameMarker(marker, prefix, ExcessAfter(k - 1, n), 30);
  }

  /** However large the text, repeated passes keep its first `maxChars` characters and
      settle on the marker for 30: this is what `k` passes give exactly when `k` is
      greater than the count. */
  lemma PassesSettle(k: nat, s: string, maxChars: nat)
    requires |s| > maxChars && k >= 1
    ensures Passes(Marker, k, s, maxChars) == s[..maxChars] + Marker(30) <==> k > PassesToSettle(|s| - maxChars)
  {
    forall n: nat
      ensures |Marker(n)| == NextExcess(n)
    {
      MarkerLength(n);
    }
    forall m: nat, n: nat | Marker(m) == Marker(n)
      ensures m == n
    {
      MarkerInjective(m, n);
    }
    MarkedPassesSettle(Marker, k, s, maxChars);
  }

  lemma FewPassesToSettle(n: nat)
    ensures PassesToSettle(n) <= 2 <==> |Render(n)| <= 71
  {
    var m := NextExcess(n);
    NextExcessFixedPoint(n);
    NextExcessFixedPoint(m);
    NextExcessFixedPoint(NextExcess(m));
    LengthBound(n);
    LengthBound(m);
  }

  /** Three passes settle a text exactly while the count of the characters they remove
      has at most 71 digits. */
  lemma SettlesWithinThreePasses(s: string, maxChars: nat)
    requires |s| > maxChars
    ensures Passes(Marker, 3, s, maxChars) == s[..maxChars] + Marker(30) <==> |Render(|s| - maxChars)| <= 71
  {
    PassesSettle(3, s, maxChars);
    FewPassesToSettle(|s| - maxChars);
  }

  /** A content that a second pass leaves as the first pass made it. */
  predicate Settled(p: RequestPart, maxChars: nat) {
    p.ToolReturn? ==>
      !Oversized(p.content, maxChars) || |Serialized(p.content)| - maxChars == 30
  }

  lemma TruncatingHistoryTwice(ms: seq<Message>, maxChars: nat)
    ensures var once := TruncateHistory(ms, maxChars);
            TruncateHistory(once, maxChars) == once <==>
              forall i, k :: 0 <= i < |ms| && ms[i].Request? && 0 <= k < |ms[i].requestParts| ==>
                Settled(ms[i].requestParts[k], maxChars)
  {
    var once := TruncateHistory(ms, maxChars);
    var twice := TruncateHistory(once, maxChars);
    forall i, k | 0 <= i < |ms| && ms[i].Request? && 0 <= k < |ms[i].requestParts|
      ensures twice[i].requestParts[k] == once[i].requestParts[k]
              <==> Settled(ms[i].requestParts[k], maxChars)
    {
      var p := ms[i].requestParts[k];
      assert once[i].requestParts[k] == TruncatePart(p, maxChars);
      assert twice[i].requestParts[k] == TruncatePart(TruncatePart(p, maxChars), maxChars);
      if p.ToolReturn? {
        TruncatingTwice(Serialized(p.content), maxChars);
      }
    }
    if forall i, k :: 0 <= i < |ms| && ms[i].Request? && 0 <= k < |ms[i].requestParts| ==>
        Settled(ms[i].requestParts[k], maxChars) {
      forall i | 0 <= i < |ms|
        ensures twice[i] == once[i]
      {
        if ms[i].Request? {
          assert twice[i].requestParts == once[i].requestParts;
        }
      }
    }
  }
}
