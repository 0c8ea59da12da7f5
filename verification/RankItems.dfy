/** The two entry points of allama/ai/ranker.py and the limits they apply. */
module RankItems {
  import opened Prelude
  import opened Ids
  import opened Ranker
  import opened RankerTheorems

  const MAX_ITEMS := 100

  datatype Error = TooMany | MissingField(index: nat) | RequestFailed

  datatype Result<+T> = Ok(value: T) | Err(error: Error)

  /** An item as it comes in: the configured id field may be missing. */
  datatype RawItem = RawItem(field: Option<Id>, id: Id, text: string)

  predicate AllHaveField(items: seq<RawItem>) {
    forall i :: 0 <= i < |items| ==> items[i].field.Some?
  }

  function Keyed(items: seq<RawItem>): (r: seq<Item>)
    requires AllHaveField(items)
    ensures |r| == |items|
    ensures forall i :: 0 <= i < |r| ==> r[i].key == items[i].field.value && r[i].id == items[i].id
  {
    seq(|items|, i requires 0 <= i < |items| => Item(items[i].field.value, items[i].id, items[i].text))
  }

  /** The length of Python's `s[:limit]` for a list of `n` elements; a negative limit
      counts from the end. */
  function SliceLength(n: nat, limit: Option<int>): (k: nat)
    ensures k <= n
  {
    match limit
    case None => n
    case Some(m) =>
      if m > n then n
      else if m >= 0 then m
      else if n + m >= 0 then n + m
      else 0
  }

  /** `k` of `n` elements are left by a limit: up to it, or, if it is negative, all but as
      many at the end. */
  predicate Left(n: nat, limit: Option<int>, k: nat) {
    match limit
    case None => k == n
    case Some(m) => if 0 <= m < n then k == m else if m < 0 then k == (if -m < n then n + m else 0) else k == n
  }

  /** One unbatched request; a minimum is left to the caller, a maximum is enforced. */
  method RankItemsOnce(rules: TextRules, items: seq<Item>, reply: Reply, maxItems: Option<int>)
    returns (r: Result<seq<Id>>)
    ensures r.Ok? <==> items == [] || (|items| <= 100 && reply.Answer?)
    ensures r == Err(TooMany) <==> |items| > 100
    ensures r.Ok? ==> NoDuplicates(r.value) && Elements(r.value) <= IdSet(items)
    ensures r.Ok? && items != [] ==>
              var all := Sanitized(rules, reply.ids, IdSet(items));
              r.value <= all && Left(|all|, maxItems, |r.value|)
  {
    if items == [] {
      return Ok([]);
    }
    if |items| > MAX_ITEMS {
      return Err(TooMany);
    }
    match reply
    case Failed =>
      return Err(RequestFailed);
    case Answer(ids) =>
      var output := SanitizeIds(rules, ids, IdSet(items));
      SanitizedSpec(rules, ids, IdSet(items));
      if maxItems.Some? && |output| > maxItems.value {
        output := output[..SliceLength(|output|, maxItems)];
      }
      return Ok(output);
  }

  /** The multi-pass ranking, cut to `maxItems`. The limit is not applied to a single
      item, and a minimum changes nothing. The first item without the id field is an
      error, looked for only among at most `MAX_ITEMS` items. */
  method RankItemsPairwise(w: World, items: seq<RawItem>, size: nat, passes: nat, ratio: real,
                           minItems: Option<int>, maxItems: Option<int>) returns (r: Result<seq<Id>>)
    requires size >= 1 && w.Fair()
    ensures r.Ok? <==> |items| <= 100 && AllHaveField(items)
    ensures r == Err(TooMany) <==> |items| > 100
    ensures forall i: nat :: r == Err(MissingField(i)) ==>
              i < |items| && items[i].field.None? && AllHaveField(items[..i])
    ensures r != Err(RequestFailed)
    ensures r.Ok? ==> r.value <= Ranked(w, 0, Keyed(items), size, passes, ratio)
    ensures r.Ok? && passes >= 1 ==>
              var keyed := Keyed(items);
              && NoDuplicates(r.value) && Elements(r.value) <= KeySet(keyed)
              && (if |items| <= 1 then |r.value| == |items| else Left(|KeySet(keyed)|, maxItems, |r.value|))
  {
    if items == [] {
      return Ok([]);
    }
    if |items| > MAX_ITEMS {
      return Err(TooMany);
    }
    for i := 0 to |items|
      invariant AllHaveField(items[..i])
    {
      if items[i].field.None? {
        return Err(MissingField(i));
      }
    }
    assert items[..|items|] == items;
    r := RankKeyed(w, Keyed(items), size, passes, ratio, minItems, maxItems);
  }

  method RankKeyed(w: World, items: seq<Item>, size: nat, passes: nat, ratio: real,
                   minItems: Option<int>, maxItems: Option<int>) returns (r: Result<seq<Id>>)
    requires size >= 1 && w.Fair() && items != []
    ensures r.Ok? && r.value <= Ranked(w, 0, items, size, passes, ratio)
    ensures passes >= 1 ==>
              && NoDuplicates(r.value) && Elements(r.value) <= KeySet(items)
              && (if |items| == 1 then |r.value| == 1 else Left(|KeySet(items)|, maxItems, |r.value|))
  {
    RankingIsPermutation(w, 0, items, size, passes, ratio);
    ElementsSize(Ranked(w, 0, items, size, passes, ratio));
    if |items| == 1 {
      return Ok([items[0].key]);
    }
    var ranked, sent := MultiPassRank(w, 0, items, size, passes, ratio);
    if minItems.None? && maxItems.None? {
      return Ok(ranked);
    }
    return Ok(ranked[..SliceLength(|ranked|, maxItems)]);
  }
}
