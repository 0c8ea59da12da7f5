/** How passes score items, and the ranking that a consistent model obtains. */
module RankerScoring {
  import opened Prelude
  import opened Ids
  import opened ScoreBoards
  import opened Ranker
  import opened RankerTheorems

  function Prior(t: Scores, id: Id): seq<real> {
    if id in t.lists then t.lists[id] else []
  }

  /** `r` is `t` with exactly one score more for every id of `gain`. */
  ghost predicate Gains(t: Scores, r: Scores, gain: map<Id, real>) {
    && r.lists.Keys == t.lists.Keys + gain.Keys
    && (forall id :: id in gain ==> r.lists[id] == Prior(t, id) + [gain[id]])
    && (forall id :: id in t.lists && id !in gain ==> r.lists[id] == t.lists[id])
  }

  lemma GainsCompose(t: Scores, r: Scores, s: Scores, g: map<Id, real>, h: map<Id, real>)
    requires Gains(t, r, g) && Gains(r, s, h) && g.Keys !! h.Keys
    ensures Gains(t, s, g + h)
  {
  }

  lemma AppendGain(t: Scores, id: Id, score: real)
    ensures Gains(t, t.Append(id, score), map[id := score])
  {
    assert Prior(t, id) + [score] == t.Append(id, score).lists[id];
  }

  ghost function ConstantGain(ids: seq<Id>, score: real): map<Id, real> {
    map id | id in ids :: score
  }

  /** The position of every id, counted from `position`. */
  ghost function PositionGain(ids: seq<Id>, position: nat): (g: map<Id, real>)
    requires NoDuplicates(ids)
    ensures g.Keys == Elements(ids)
    ensures forall i :: 0 <= i < |ids| ==> g[ids[i]] == (position + i) as real
    decreases |ids|
  {
    if ids == [] then map[]
    else
      assert Elements(ids) == {ids[0]} + Elements(ids[1..]);
      map[ids[0] := position as real] + PositionGain(ids[1..], position + 1)
  }

  lemma {:induction false} PositionsGain(t: Scores, ids: seq<Id>, position: nat)
    requires NoDuplicates(ids)
    ensures Gains(t, t.AppendPositions(ids, position), PositionGain(ids, position))
    decreases |ids|
  {
    if ids != [] {
      var u := t.Append(ids[0], position as real);
      var g, h := map[ids[0] := position as real], PositionGain(ids[1..], position + 1);
      AppendGain(t, ids[0], position as real);
      PositionsGain(u, ids[1..], position + 1);
      GainsCompose(t, u, u.AppendPositions(ids[1..], position + 1), g, h);
      assert t.AppendPositions(ids, position) == u.AppendPositions(ids[1..], position + 1);
    }
  }

  lemma {:induction false} WorstGain(t: Scores, ids: seq<Id>, worst: real)
    requires NoDuplicates(ids)
    ensures Gains(t, t.AppendAll(ids, worst), ConstantGain(ids, worst))
    decreases |ids|
  {
    if ids != [] {
      var u := t.Append(ids[0], worst);
      AppendGain(t, ids[0], worst);
      WorstGain(u, ids[1..], worst);
      GainsCompose(t, u, u.AppendAll(ids[1..], worst), map[ids[0] := worst], ConstantGain(ids[1..], worst));
      assert map[ids[0] := worst] + ConstantGain(ids[1..], worst) == ConstantGain(ids, worst);
    }
  }

  lemma {:induction false} FilterNoDuplicates(ids: seq<Id>, allowed: set<Id>)
    requires NoDuplicates(ids)
    ensures NoDuplicates(Filter(ids, allowed))
    ensures Elements(ids) <= allowed ==> Filter(ids, allowed) == ids
    ensures |Filter(ids, allowed)| <= |ids|
  {
    if ids != [] {
      FilterNoDuplicates(ids[1..], allowed);
      assert Elements(ids[1..]) <= Elements(ids);
      assert ids[0] in Elements(ids);
    }
  }

  /** `r` is `t` with the scores `more` for `x`. */
  ghost predicate Extends(t: Scores, r: Scores, x: Id, more: seq<real>) {
    Prior(r, x) == Prior(t, x) + more
  }

  lemma PriorAfter(t: Scores, r: Scores, gain: map<Id, real>, x: Id)
    requires Gains(t, r, gain)
    ensures Extends(t, r, x, if x in gain then [gain[x]] else [])
  {
  }

  lemma ExtendsCompose(t: Scores, r: Scores, s: Scores, x: Id, a: seq<real>, b: seq<real>)
    requires Extends(t, r, x, a) && Extends(r, s, x, b)
    ensures Extends(t, s, x, a + b)
  {
  }

  ghost function Copies(x: real, n: nat): seq<real> {
    if n == 0 then [] else Copies(x, n - 1) + [x]
  }

  lemma {:induction false} CopiesFront(x: real, n: nat)
    ensures [x] + Copies(x, n) == Copies(x, n + 1)
  {
    if n > 0 {
      CopiesFront(x, n - 1);
    }
  }

  lemma {:induction false} CopiesAre(x: real, n: nat)
    ensures |Copies(x, n)| == n && forall k :: 0 <= k < n ==> Copies(x, n)[k] == x
  {
    if n > 0 {
      CopiesAre(x, n - 1);
    }
  }

  lemma AppendExtends(t: Scores, id: Id, score: real, x: Id)
    ensures Extends(t, t.Append(id, score), x, if id == x then [score] else [])
  {
    AppendGain(t, id, score);
    PriorAfter(t, t.Append(id, score), map[id := score], x);
  }

  lemma CopiesAfter(ids: seq<Id>, worst: real, x: Id)
    requires ids != []
    ensures Copies(worst, multiset(ids)[x])
         == (if ids[0] == x then [worst] else []) + Copies(worst, multiset(ids[1..])[x])
  {
    assert ids == [ids[0]] + ids[1..];
    CopiesFront(worst, multiset(ids[1..])[x]);
  }

  /** An id that is listed more than once gets its score as often. */
  lemma {:induction false} WorstExtends(t: Scores, ids: seq<Id>, worst: real, x: Id)
    ensures Extends(t, t.AppendAll(ids, worst), x, Copies(worst, multiset(ids)[x]))
    decreases |ids|
  {
    if ids != [] {
      var u, rest := t.Append(ids[0], worst), multiset(ids[1..])[x];
      AppendExtends(t, ids[0], worst, x);
      WorstExtends(u, ids[1..], worst, x);
      CopiesAfter(ids, worst, x);
      ExtendsCompose(t, u, u.AppendAll(ids[1..], worst), x, if ids[0] == x then [worst] else [], Copies(worst, rest));
    }
  }

  /** How many items carry the id. */
  function Multiplicity(items: seq<Item>, x: Id): nat {
    multiset(Keys(items))[x]
  }

  lemma MultiplicityPositive(items: seq<Item>, x: Id)
    ensures Multiplicity(items, x) > 0 <==> x in KeySet(items)
  {
    KeySetOf(items);
    assert x in Keys(items) <==> x in multiset(Keys(items));
    assert x in Keys(items) <==> x in Elements(Keys(items));
  }

  lemma MultiplicityAppend(a: seq<Item>, b: seq<Item>, x: Id)
    ensures Multiplicity(a + b, x) == Multiplicity(a, x) + Multiplicity(b, x)
  {
    assert Keys(a + b) == Keys(a) + Keys(b);
  }

  /** `more` holds at least one score for an id of the items and at most one for every item
      with it, all between 0 and `size`. */
  ghost predicate FairShare(more: seq<real>, items: seq<Item>, x: Id, size: nat) {
    && (x in KeySet(items) ==> 1 <= |more|)
    && |more| <= Multiplicity(items, x)
    && forall k :: 0 <= k < |more| ==> 0.0 <= more[k] <= size as real
  }

  lemma FailureShare(t: Scores, batch: seq<Item>, x: Id) returns (more: seq<real>)
    ensures Extends(t, t.AppendAll(Keys(batch), |batch| as real), x, more)
    ensures FairShare(more, batch, x, |batch|) && |more| == Multiplicity(batch, x)
    ensures forall k :: 0 <= k < |more| ==> more[k] == |batch| as real
  {
    var n := Multiplicity(batch, x);
    WorstExtends(t, Keys(batch), |batch| as real, x);
    more := Copies(|batch| as real, n);
    CopiesAre(|batch| as real, n);
    MultiplicityPositive(batch, x);
  }

  lemma AnswerShare(t: Scores, batch: seq<Item>, filtered: seq<Id>, missing: seq<Id>, x: Id) returns (more: seq<real>)
    requires NoDuplicates(filtered) && NoDuplicates(missing)
    requires Elements(filtered) <= KeySet(batch) && Elements(missing) == KeySet(batch) - Elements(filtered)
    ensures Extends(t, t.AppendPositions(filtered, 0).AppendAll(missing, |batch| as real), x, more)
    ensures FairShare(more, batch, x, |batch|)
    ensures x !in filtered ==> forall k :: 0 <= k < |more| ==> more[k] == |batch| as real
  {
    var worst, u := |batch| as real, t.AppendPositions(filtered, 0);
    var g, h := PositionGain(filtered, 0), ConstantGain(missing, worst);
    PositionsGain(t, filtered, 0);
    PriorAfter(t, u, g, x);
    WorstGain(u, missing, worst);
    PriorAfter(u, u.AppendAll(missing, worst), h, x);
    var first, second := if x in g then [g[x]] else [], if x in h then [h[x]] else [];
    ExtendsCompose(t, u, u.AppendAll(missing, worst), x, first, second);
    more := first + second;
    assert h.Keys == Elements(missing);
    if x in g {
      PositionInRange(filtered, batch, x);
    }
    ShareOfTwo(first, second, batch, x);
  }

  lemma ShareOfTwo(first: seq<real>, second: seq<real>, batch: seq<Item>, x: Id)
    requires |first + second| == if x in KeySet(batch) then 1 else 0
    requires first != [] ==> 0.0 <= first[0] <= |batch| as real
    requires second != [] ==> second[0] == |batch| as real
    ensures FairShare(first + second, batch, x, |batch|)
  {
    MultiplicityPositive(batch, x);
  }

  lemma {:induction false} FilterAppend(a: seq<Id>, b: seq<Id>, allowed: set<Id>)
    ensures Filter(a + b, allowed) == Filter(a, allowed) + Filter(b, allowed)
  {
    if a == [] {
      assert a + b == b;
    } else {
      FilterAppend(a[1..], b, allowed);
      assert (a + b)[1..] == a[1..] + b;
      var head := if a[0] in allowed then [a[0]] else [];
      Associative(head, Filter(a[1..], allowed), Filter(b, allowed));
    }
  }

  lemma CountListed(ids: seq<Id>, allowed: set<Id>)
    requires NoDuplicates(ids)
    ensures |Filter(ids, allowed)| == |Elements(ids) * allowed|
  {
    FilterNoDuplicates(ids, allowed);
    ElementsSize(Filter(ids, allowed));
    assert Elements(Filter(ids, allowed)) == Elements(ids) * allowed;
  }

  /** Among the listed ids, `ids[k]` comes after as many as are listed before it. */
  lemma PlaceAmongListed(ids: seq<Id>, k: nat, allowed: set<Id>) returns (place: nat)
    requires NoDuplicates(ids) && k < |ids| && ids[k] in allowed
    ensures place == |Elements(ids[..k]) * allowed|
    ensures place < |Filter(ids, allowed)| && Filter(ids, allowed)[place] == ids[k]
  {
    var before, after := ids[..k], ids[k + 1..];
    place := |Filter(before, allowed)|;
    CountListed(before, allowed);
    assert ids == before + ([ids[k]] + after);
    FilterAppend(before, [ids[k]] + after, allowed);
    FilterAppend([ids[k]], after, allowed);
    assert [ids[k]][1..] == [];
    assert Filter([ids[k]], allowed) == [ids[k]];
  }

  lemma AnswerPlaces(t: Scores, batch: seq<Item>, filtered: seq<Id>, missing: seq<Id>, x: Id)
    requires NoDuplicates(filtered) && NoDuplicates(missing) && x in KeySet(batch)
    requires Elements(filtered) <= KeySet(batch) && Elements(missing) == KeySet(batch) - Elements(filtered)
    ensures var r := t.AppendPositions(filtered, 0).AppendAll(missing, |batch| as real);
            && (forall k :: 0 <= k < |filtered| && filtered[k] == x ==> Extends(t, r, x, [k as real]))
            && (x !in filtered ==> Extends(t, r, x, [|batch| as real]))
  {
    var worst, u := |batch| as real, t.AppendPositions(filtered, 0);
    PositionsGain(t, filtered, 0);
    PriorAfter(t, u, PositionGain(filtered, 0), x);
    WorstGain(u, missing, worst);
    PriorAfter(u, u.AppendAll(missing, worst), ConstantGain(missing, worst), x);
    assert x in Elements(missing) <==> x !in Elements(filtered);
    assert ConstantGain(missing, worst).Keys == Elements(missing);
  }

  /** The scores of one batch: an item that the answer names gets the number of items of
      the batch named before it; all others, and all items of a failed batch, get the size
      of the batch. */
  lemma BatchScores(w: World, depth: nat, pass: nat, b: nat, batch: seq<Item>, t: Scores, x: Id)
    requires w.Fair() && DistinctKeys(batch) && x in KeySet(batch)
    ensures var r := RecordBatch(w, depth, pass, b, batch, t);
            match w.reply(depth, pass, b, batch)
            case Failed => Extends(t, r, x, [|batch| as real])
            case Answer(raw) =>
              var ids := Sanitized(w.rules, raw, IdSet(batch));
              && (forall k :: 0 <= k < |ids| && ids[k] == x ==>
                    Extends(t, r, x, [|Elements(ids[..k]) * KeySet(batch)| as real]))
              && (x !in ids ==> Extends(t, r, x, [|batch| as real]))
  {
    match w.reply(depth, pass, b, batch)
    case Failed =>
      var more := FailureShare(t, batch, x);
      DistinctMultiplicity(batch);
      assert more == [|batch| as real];
    case Answer(raw) =>
      var ids := Sanitized(w.rules, raw, IdSet(batch));
      SanitizedSpec(w.rules, raw, IdSet(batch));
      FilterNoDuplicates(ids, KeySet(batch));
      var filtered := Filter(ids, KeySet(batch));
      var missing := w.enumerate(depth, pass, b, KeySet(batch) - Elements(filtered));
      AnswerPlaces(t, batch, filtered, missing, x);
      forall k | 0 <= k < |ids| && ids[k] == x
        ensures Extends(t, RecordBatch(w, depth, pass, b, batch, t), x, [|Elements(ids[..k]) * KeySet(batch)| as real])
      {
        var place := PlaceAmongListed(ids, k, KeySet(batch));
      }
  }

  lemma PositionInRange(filtered: seq<Id>, batch: seq<Item>, x: Id)
    requires NoDuplicates(filtered) && Elements(filtered) <= KeySet(batch) && x in filtered
    ensures x in PositionGain(filtered, 0) && 0.0 <= PositionGain(filtered, 0)[x] <= |batch| as real
  {
    ElementsSize(filtered);
    KeySetOf(batch);
    SizeNoDuplicates(Keys(batch));
    SubsetSize(Elements(filtered), KeySet(batch));
    var i :| 0 <= i < |filtered| && filtered[i] == x;
    assert PositionGain(filtered, 0)[filtered[i]] == i as real;
  }

  ghost predicate AlwaysFails(w: World) {
    forall d, p, b, batch :: w.reply(d, p, b, batch).Failed?
  }

  lemma BatchShare(w: World, depth: nat, pass: nat, b: nat, batch: seq<Item>, t: Scores, x: Id)
    returns (more: seq<real>)
    requires w.Fair()
    ensures Extends(t, RecordBatch(w, depth, pass, b, batch, t), x, more) && FairShare(more, batch, x, |batch|)
    ensures AlwaysFails(w) ==> |more| == Multiplicity(batch, x)
  {
    match w.reply(depth, pass, b, batch)
    case Failed =>
      more := FailureShare(t, batch, x);
    case Answer(ids) =>
      var ranked := Sanitized(w.rules, ids, IdSet(batch));
      SanitizedSpec(w.rules, ids, IdSet(batch));
      FilterNoDuplicates(ranked, KeySet(batch));
      var filtered := Filter(ranked, KeySet(batch));
      var missing := w.enumerate(depth, pass, b, KeySet(batch) - Elements(filtered));
      more := AnswerShare(t, batch, filtered, missing, x);
  }

  lemma {:induction false} SubsetSize(a: set<Id>, b: set<Id>)
    requires a <= b
    ensures |a| <= |b|
    decreases |a|
  {
    if a != {} {
      var x :| x in a;
      SubsetSize(a - {x}, b - {x});
    }
  }

  lemma DistinctSplit(a: seq<Item>, b: seq<Item>)
    requires DistinctKeys(a + b)
    ensures DistinctKeys(a) && DistinctKeys(b) && KeySet(a) !! KeySet(b)
  {
    var ks := Keys(a + b);
    assert Keys(a) == ks[..|a|] && Keys(b) == ks[|a|..];
    forall i, j | 0 <= i < |a| && 0 <= j < |b|
      ensures a[i].key != b[j].key
    {
      assert ks[i] != ks[|a| + j];
    }
  }

  lemma ShareAppend(a: seq<real>, first: seq<Item>, b: seq<real>, rest: seq<Item>, x: Id, n: nat, size: nat)
    requires FairShare(a, first, x, n) && FairShare(b, rest, x, size) && n <= size
    ensures FairShare(a + b, first + rest, x, size)
    ensures |a| == Multiplicity(first, x) && |b| == Multiplicity(rest, x) ==>
              |a + b| == Multiplicity(first + rest, x)
  {
    MultiplicityAppend(first, rest, x);
    KeySetAppend(first, rest);
  }

  lemma {:induction false} BatchesShare(w: World, depth: nat, pass: nat, batches: seq<seq<Item>>, b: nat, t: Scores,
                                        size: nat, x: Id)
    returns (more: seq<real>)
    requires b <= |batches| && w.Fair()
    requires forall i :: 0 <= i < |batches| ==> |batches[i]| <= size
    ensures Extends(t, RunBatches(w, depth, pass, batches, b, t), x, more)
    ensures FairShare(more, Flatten(batches[b..]), x, size)
    ensures AlwaysFails(w) ==> |more| == Multiplicity(Flatten(batches[b..]), x)
    decreases |batches| - b
  {
    if b == |batches| {
      more := [];
      assert Flatten(batches[b..]) == [];
    } else {
      var first, rest := batches[b], Flatten(batches[b + 1..]);
      assert batches[b..][1..] == batches[b + 1..];
      var u := RecordBatch(w, depth, pass, b, first, t);
      var here := BatchShare(w, depth, pass, b, first, t, x);
      var later := BatchesShare(w, depth, pass, batches, b + 1, u, size, x);
      ExtendsCompose(t, u, RunBatches(w, depth, pass, batches, b, t), x, here, later);
      ShareAppend(here, first, later, rest, x, |first|, size);
      more := here + later;
    }
  }

  lemma {:induction false} SizeNoDuplicates(s: seq<Id>)
    ensures |Elements(s)| <= |s|
    ensures |Elements(s)| == |s| ==> NoDuplicates(s)
  {
    if s != [] {
      SizeNoDuplicates(s[1..]);
      assert s == [s[0]] + s[1..];
      assert Elements(s) == Elements(s[1..]) + {s[0]};
    }
  }

  lemma ShuffleKeepsDistinct(w: World, depth: nat, pass: nat, items: seq<Item>)
    requires w.Fair() && DistinctKeys(items)
    ensures DistinctKeys(w.shuffle(depth, pass, items))
  {
    var s := w.shuffle(depth, pass, items);
    ShuffleKeepsKeys(w, depth, pass, items);
    DistinctCount(items);
    KeySetOf(s);
    assert |multiset(s)| == |multiset(items)|;
    SizeNoDuplicates(Keys(s));
  }

  lemma RemoveSame(a: seq<Item>, b: seq<Item>, i: nat)
    requires a != [] && multiset(a) == multiset(b) && i < |b| && b[i] == a[0]
    ensures multiset(a[1..]) == multiset(b[..i] + b[i + 1..])
  {
    assert a == [a[0]] + a[1..];
    assert b == b[..i] + ([b[i]] + b[i + 1..]);
    var rest := b[..i] + b[i + 1..];
    assert multiset(rest) == multiset(b[..i]) + multiset(b[i + 1..]);
    assert multiset(b) == multiset(b[..i]) + (multiset{b[i]} + multiset(b[i + 1..]));
    assert multiset(a[1..]) == multiset(a) - multiset{a[0]};
    assert multiset(rest) == multiset(b) - multiset{b[i]};
  }

  lemma MultiplicityAround(b: seq<Item>, i: nat, x: Id)
    requires i < |b|
    ensures Multiplicity(b, x) == Multiplicity([b[i]], x) + Multiplicity(b[..i] + b[i + 1..], x)
  {
    assert b == b[..i] + ([b[i]] + b[i + 1..]);
    MultiplicityAppend(b[..i], [b[i]] + b[i + 1..], x);
    MultiplicityAppend([b[i]], b[i + 1..], x);
    MultiplicityAppend(b[..i], b[i + 1..], x);
  }

  lemma {:induction false} SameMultiplicity(a: seq<Item>, b: seq<Item>, x: Id)
    requires multiset(a) == multiset(b)
    ensures Multiplicity(a, x) == Multiplicity(b, x)
    decreases |a|
  {
    if a == [] {
      assert |multiset(b)| == 0;
    } else {
      assert a[0] in multiset(b);
      var i :| 0 <= i < |b| && b[i] == a[0];
      RemoveSame(a, b, i);
      SameMultiplicity(a[1..], b[..i] + b[i + 1..], x);
      MultiplicityAround(b, i, x);
      MultiplicityAppend([a[0]], a[1..], x);
      assert a == [a[0]] + a[1..];
    }
  }

  /** One pass gives every id at least one score and at most one for every item with it,
      between 0 and the batch size, whatever the model replies. */
  lemma PassShare(w: World, depth: nat, items: seq<Item>, size: nat, pass: nat, t: Scores, x: Id)
    returns (more: seq<real>)
    requires size >= 1 && w.Fair()
    ensures Extends(t, RunPass(w, depth, items, size, pass, t), x, more) && FairShare(more, items, x, size)
    ensures AlwaysFails(w) ==> |more| == Multiplicity(items, x)
  {
    var shuffled := w.shuffle(depth, pass, items);
    var batches := Batches(shuffled, size);
    BatchesPartition(shuffled, size);
    assert batches[0..] == batches;
    more := BatchesShare(w, depth, pass, batches, 0, t, size, x);
    ShuffleKeepsKeys(w, depth, pass, items);
    SameMultiplicity(shuffled, items, x);
  }

  /** Between `n` and `n * m` scores of `x`, all between 0 and `size`. */
  ghost predicate ScoredBetween(t: Scores, x: Id, n: nat, m: nat, size: nat) {
    && n <= |Prior(t, x)| <= Times(n, m)
    && forall k :: 0 <= k < |Prior(t, x)| ==> 0.0 <= Prior(t, x)[k] <= size as real
  }

  lemma ScoredMore(t: Scores, r: Scores, x: Id, more: seq<real>, n: nat, m: nat, size: nat)
    requires ScoredBetween(t, x, n, m, size) && Extends(t, r, x, more) && 1 <= |more| <= m
    requires forall k :: 0 <= k < |more| ==> 0.0 <= more[k] <= size as real
    ensures ScoredBetween(r, x, n + 1, m, size)
  {
  }

  lemma {:induction false} IterateScored(step: (nat, Scores) -> Scores, x: Id, n: nat, m: nat, size: nat)
    requires forall p: nat, t: Scores, k: nat ::
               ScoredBetween(t, x, k, m, size) ==> ScoredBetween(step(p, t), x, k + 1, m, size)
    ensures ScoredBetween(Iterate(step, n), x, n, m, size)
  {
    if n > 0 {
      IterateScored(step, x, n - 1, m, size);
      assert ScoredBetween(step(n - 1, Iterate(step, n - 1)), x, n - 1 + 1, m, size);
    }
  }

  /** After all passes every id has at least one score per pass and at most one per pass
      and item with it, between 0 and the batch size, whatever the model replied. */
  lemma ScoresPerPass(w: World, depth: nat, items: seq<Item>, size: nat, passes: nat, x: Id)
    requires size >= 1 && w.Fair() && x in KeySet(items)
    ensures ScoredBetween(RunPasses(w, depth, items, size, passes), x, passes, Multiplicity(items, x), size)
  {
    var m := Multiplicity(items, x);
    var step := (pass: nat, t: Scores) => RunPass(w, depth, items, size, pass, t);
    forall p: nat, t: Scores, k: nat | ScoredBetween(t, x, k, m, size)
      ensures ScoredBetween(step(p, t), x, k + 1, m, size)
    {
      var more := PassShare(w, depth, items, size, p, t, x);
      ScoredMore(t, step(p, t), x, more, k, m, size);
    }
    IterateScored(step, x, passes, m, size);
    assert RunPasses(w, depth, items, size, passes) == Iterate(step, passes);
  }

  ghost predicate LengthIs(t: Scores, x: Id, n: nat) {
    |Prior(t, x)| == n
  }

  lemma {:induction false} IterateLength(step: (nat, Scores) -> Scores, x: Id, n: nat, m: nat)
    requires forall p: nat, t: Scores, k: nat :: LengthIs(t, x, k) ==> LengthIs(step(p, t), x, k + m)
    ensures LengthIs(Iterate(step, n), x, Times(n, m))
  {
    if n > 0 {
      IterateLength(step, x, n - 1, m);
      assert LengthIs(step(n - 1, Iterate(step, n - 1)), x, Times(n - 1, m) + m);
    }
  }

  /** A model that always fails scores every item by itself. */
  lemma FailingLength(w: World, depth: nat, items: seq<Item>, size: nat, passes: nat, x: Id)
    requires size >= 1 && w.Fair() && AlwaysFails(w)
    ensures LengthIs(RunPasses(w, depth, items, size, passes), x, Times(passes, Multiplicity(items, x)))
  {
    var m := Multiplicity(items, x);
    var step := (pass: nat, t: Scores) => RunPass(w, depth, items, size, pass, t);
    forall p: nat, t: Scores, k: nat | LengthIs(t, x, k)
      ensures LengthIs(step(p, t), x, k + m)
    {
      var more := PassShare(w, depth, items, size, p, t, x);
    }
    IterateLength(step, x, passes, m);
    assert RunPasses(w, depth, items, size, passes) == Iterate(step, passes);
  }

  lemma {:induction false} TimesOne(n: nat)
    ensures Times(n, 1) == n
  {
    if n > 0 {
      TimesOne(n - 1);
    }
  }

  lemma {:induction false} TimesMore(n: nat, m: nat)
    requires m >= 2
    ensures Times(n, m) >= 2 * n
  {
    if n > 0 {
      TimesMore(n - 1, m);
    }
  }

  lemma DistinctMultiplicity(items: seq<Item>)
    ensures DistinctKeys(items) <==> forall x :: x in KeySet(items) ==> Multiplicity(items, x) == 1
  {
    var ks := Keys(items);
    if DistinctKeys(items) {
      MultiplicityOne(ks);
      forall x | x in KeySet(items)
        ensures Multiplicity(items, x) == 1
      {
        MultiplicityPositive(items, x);
      }
    } else {
      var i, j :| 0 <= i < j < |ks| && ks[i] == ks[j];
      assert ks == ks[..j] + ks[j..];
      assert ks[i] in ks[..j] && ks[j] in ks[j..];
      assert multiset(ks)[ks[i]] == multiset(ks[..j])[ks[i]] + multiset(ks[j..])[ks[i]];
      MultiplicityPositive(items, ks[i]);
    }
  }

  ghost predicate OneEach(t: Scores, ids: set<Id>, n: nat) {
    forall x :: x in ids ==> LengthIs(t, x, n)
  }

  /** Every id has one score per pass, whatever the model replies, exactly if the ids are
      distinct. */
  lemma OneScorePerPass(rules: TextRules, depth: nat, items: seq<Item>, size: nat, passes: nat)
    requires size >= 1 && passes >= 1
    ensures (forall w: World :: w.Fair() && w.rules == rules ==>
               OneEach(RunPasses(w, depth, items, size, passes), KeySet(items), passes))
            <==> DistinctKeys(items)
  {
    DistinctMultiplicity(items);
    if DistinctKeys(items) {
      forall w: World, x | w.Fair() && x in KeySet(items)
        ensures LengthIs(RunPasses(w, depth, items, size, passes), x, passes)
      {
        ScoresPerPass(w, depth, items, size, passes, x);
        TimesOne(passes);
      }
    } else {
      var x :| x in KeySet(items) && Multiplicity(items, x) != 1;
      MultiplicityPositive(items, x);
      var w := AnyRepliesAreFair(rules, (d: nat, p: nat, b: nat, batch: seq<Item>) => Failed);
      FailingLength(w, depth, items, size, passes, x);
      TimesMore(passes, Multiplicity(items, x));
      assert !OneEach(RunPasses(w, depth, items, size, passes), KeySet(items), passes);
    }
  }

  // ------------------------------------------------- a consistent model

  /** `r` lists `ids` in strictly increasing order of preference. */
  ghost predicate OrderOf(r: seq<Id>, ids: set<Id>, pref: Id -> int) {
    && Elements(r) == ids
    && forall i, j :: 0 <= i < j < |r| ==> pref(r[i]) < pref(r[j])
  }

  /** The one batch of every pass over these items is answered in one fixed strict order. */
  ghost predicate Unanimous(w: World, depth: nat, items: seq<Item>, passes: nat, pref: Id -> int) {
    forall p: nat :: p < passes ==>
      var reply := RankBatch(w, depth, p, 0, w.shuffle(depth, p, items));
      reply.Answer? && OrderOf(reply.ids, KeySet(items), pref)
  }

  /** So is every batch that a run sends on its way down. */
  ghost predicate UnanimousRun(w: World, depth: nat, items: seq<Item>, size: nat, passes: nat, ratio: real,
                               pref: Id -> int)
    requires size >= 1 && w.Fair()
    decreases KeySet(items)
  {
    if |items| <= 1 then true
    else
      var s := SortedIds(w, depth, items, size, passes);
      var m := RefineCount(|s|, ratio);
      if m == 0 then Unanimous(w, depth, items, passes, pref)
      else
        RefinementShrinks(w, depth, items, size, passes, m);
        && Unanimous(w, depth, items, passes, pref)
        && UnanimousRun(w, depth + 1, TopItems(items, s[..m]), size, DeeperPasses(passes), ratio, pref)
  }

  lemma {:induction false} OrderUnique(a: seq<Id>, b: seq<Id>, ids: set<Id>, pref: Id -> int)
    requires OrderOf(a, ids, pref) && OrderOf(b, ids, pref)
    ensures a == b
    decreases |a|
  {
    if a != [] && b != [] {
      assert b[0] in Elements(a) && a[0] in Elements(b);
      var i :| 0 <= i < |a| && a[i] == b[0];
      var j :| 0 <= j < |b| && b[j] == a[0];
      assert a[0] == b[0];
      TailOrder(a, ids, pref);
      TailOrder(b, ids, pref);
      OrderUnique(a[1..], b[1..], ids - {a[0]}, pref);
    } else {
      NoElements(a);
      NoElements(b);
    }
  }

  lemma TailOrder(a: seq<Id>, ids: set<Id>, pref: Id -> int)
    requires OrderOf(a, ids, pref) && a != []
    ensures OrderOf(a[1..], ids - {a[0]}, pref)
  {
    assert a == [a[0]] + a[1..];
    assert Elements(a) == {a[0]} + Elements(a[1..]);
    assert a[0] !in a[1..];
  }

  lemma {:induction false} SumAppend(xs: seq<real>, x: real)
    ensures Sum(xs + [x]) == Sum(xs) + x
  {
    if xs != [] {
      SumAppend(xs[1..], x);
      assert (xs + [x])[1..] == xs[1..] + [x];
    } else {
      assert ([] + [x])[1..] == [];
      assert Sum([x]) == x;
    }
  }

  lemma {:induction false} MeanOfCopies(x: real, n: nat)
    ensures |Copies(x, n)| == n && Sum(Copies(x, n)) == n as real * x
    ensures n > 0 ==> Mean(Copies(x, n)) == x
  {
    if n > 0 {
      MeanOfCopies(x, n - 1);
      SumAppend(Copies(x, n - 1), x);
      assert n as real == (n - 1) as real + 1.0;
    }
  }

  /** The scores after `n` unanimous passes. */
  ghost predicate Settled(t: Scores, ord: seq<Id>, n: nat) {
    && t.order == (if n == 0 then [] else ord)
    && t.lists.Keys == Elements(t.order)
    && forall i :: 0 <= i < |ord| ==> Prior(t, ord[i]) == Copies(i as real, n)
  }

  lemma {:induction false} KnownIdsKeepOrder(t: Scores, ids: seq<Id>, position: nat)
    requires forall id :: id in ids ==> id in t.lists
    ensures t.AppendPositions(ids, position).order == t.order
    decreases |ids|
  {
    if ids != [] {
      var u := t.Append(ids[0], position as real);
      KnownIdsKeepOrder(u, ids[1..], position + 1);
    }
  }

  lemma {:induction false} NewIdsExtendOrder(t: Scores, ids: seq<Id>, position: nat)
    requires NoDuplicates(ids) && forall id :: id in ids ==> id !in t.lists
    ensures t.AppendPositions(ids, position).order == t.order + ids
    decreases |ids|
  {
    if ids != [] {
      var u := t.Append(ids[0], position as real);
      assert ids[0] !in ids[1..];
      NewIdsExtendOrder(u, ids[1..], position + 1);
      assert t.order + ids == (t.order + [ids[0]]) + ids[1..];
    }
  }

  lemma SettledScores(t: Scores, r: Scores, ord: seq<Id>, n: nat)
    requires NoDuplicates(ord) && Settled(t, ord, n) && Gains(t, r, PositionGain(ord, 0))
    ensures forall i :: 0 <= i < |ord| ==> Prior(r, ord[i]) == Copies(i as real, n + 1)
  {
    forall i | 0 <= i < |ord|
      ensures Prior(r, ord[i]) == Copies(i as real, n + 1)
    {
      assert ord[i] in Elements(ord);
      assert r.lists[ord[i]] == Prior(t, ord[i]) + [i as real];
    }
  }

  lemma SettledOrder(t: Scores, ord: seq<Id>, n: nat)
    requires NoDuplicates(ord) && Settled(t, ord, n)
    ensures t.AppendPositions(ord, 0).order == ord
  {
    if n == 0 {
      assert t.lists.Keys == {};
      NewIdsExtendOrder(t, ord, 0);
      assert [] + ord == ord;
    } else {
      assert forall id :: id in ord ==> id in Elements(ord);
      KnownIdsKeepOrder(t, ord, 0);
    }
  }

  lemma SettledGain(t: Scores, r: Scores, ord: seq<Id>, n: nat)
    requires NoDuplicates(ord) && Settled(t, ord, n) && Gains(t, r, PositionGain(ord, 0)) && r.order == ord
    ensures Settled(r, ord, n + 1)
  {
    SettledScores(t, r, ord, n);
    assert r.lists.Keys == t.lists.Keys + Elements(ord);
  }

  lemma SettledStep(t: Scores, ord: seq<Id>, n: nat)
    requires NoDuplicates(ord) && Settled(t, ord, n)
    ensures Settled(t.AppendPositions(ord, 0), ord, n + 1)
  {
    PositionsGain(t, ord, 0);
    SettledOrder(t, ord, n);
    SettledGain(t, t.AppendPositions(ord, 0), ord, n);
  }

  /** A complete duplicate-free answer scores every item by its place. */
  lemma CompleteAnswer(w: World, depth: nat, pass: nat, b: nat, batch: seq<Item>, t: Scores, ord: seq<Id>)
    requires w.Fair() && RankBatch(w, depth, pass, b, batch) == Answer(ord)
    requires NoDuplicates(ord) && Elements(ord) == KeySet(batch)
    ensures RecordBatch(w, depth, pass, b, batch, t) == t.AppendPositions(ord, 0)
  {
    FilterNoDuplicates(ord, KeySet(batch));
    var none := w.enumerate(depth, pass, b, KeySet(batch) - Elements(ord));
    NoElements(none);
  }

  lemma SingleBatch(w: World, depth: nat, items: seq<Item>, size: nat, pass: nat, t: Scores)
    requires w.Fair() && 0 < |items| <= size
    ensures RunPass(w, depth, items, size, pass, t)
         == RecordBatch(w, depth, pass, 0, w.shuffle(depth, pass, items), t)
  {
    var batch := w.shuffle(depth, pass, items);
    assert |multiset(batch)| == |multiset(items)|;
    assert Batches(batch, size) == [batch];
    var u := RecordBatch(w, depth, pass, 0, batch, t);
    assert RunBatches(w, depth, pass, [batch], 1, u) == u;
  }

  lemma UnanimousPass(w: World, depth: nat, items: seq<Item>, size: nat, passes: nat, p: nat, t: Scores,
                      ord: seq<Id>, pref: Id -> int)
    requires w.Fair() && Unanimous(w, depth, items, passes, pref) && p < passes
    requires 0 < |items| <= size && OrderOf(ord, KeySet(items), pref)
    ensures RunPass(w, depth, items, size, p, t) == t.AppendPositions(ord, 0)
  {
    var batch := w.shuffle(depth, p, items);
    SingleBatch(w, depth, items, size, p, t);
    OrderUnique(RankBatch(w, depth, p, 0, batch).ids, ord, KeySet(items), pref);
    ShuffleKeepsKeys(w, depth, p, items);
    CompleteAnswer(w, depth, p, 0, batch, t, ord);
  }

  lemma {:induction false} IterateSettled(step: (nat, Scores) -> Scores, ord: seq<Id>, n: nat)
    requires forall p: nat, t: Scores, k: nat :: p < n && Settled(t, ord, k) ==> Settled(step(p, t), ord, k + 1)
    ensures Settled(Iterate(step, n), ord, n)
  {
    if n > 0 {
      IterateSettled(step, ord, n - 1);
      assert Settled(step(n - 1, Iterate(step, n - 1)), ord, n - 1 + 1);
    }
  }

  lemma UnanimousPasses(w: World, depth: nat, items: seq<Item>, size: nat, passes: nat, ord: seq<Id>, pref: Id -> int)
    requires size >= 1 && w.Fair() && Unanimous(w, depth, items, passes, pref)
    requires 0 < |items| <= size && OrderOf(ord, KeySet(items), pref)
    ensures Settled(RunPasses(w, depth, items, size, passes), ord, passes)
  {
    var step := (pass: nat, t: Scores) => RunPass(w, depth, items, size, pass, t);
    forall p: nat, t: Scores, k: nat | p < passes && Settled(t, ord, k)
      ensures Settled(step(p, t), ord, k + 1)
    {
      UnanimousPass(w, depth, items, size, passes, p, t, ord, pref);
      SettledStep(t, ord, k);
    }
    IterateSettled(step, ord, passes);
    assert RunPasses(w, depth, items, size, passes) == Iterate(step, passes);
  }

  lemma {:induction false} SortOfSorted(s: seq<Id>, key: map<Id, real>)
    requires SortedBy(s, key)
    ensures SortBy(s, key) == s
  {
    if s != [] {
      var rest := s[1..];
      assert SortedBy(rest, key);
      SortOfSorted(rest, key);
      assert rest != [] ==> key[s[0]] <= key[rest[0]];
      assert Insert(s[0], rest, key) == [s[0]] + rest;
    }
  }

  lemma UnanimousSort(w: World, depth: nat, items: seq<Item>, size: nat, passes: nat, ord: seq<Id>, pref: Id -> int)
    requires size >= 1 && w.Fair() && Unanimous(w, depth, items, passes, pref) && passes >= 1
    requires 0 < |items| <= size && OrderOf(ord, KeySet(items), pref)
    ensures SortedIds(w, depth, items, size, passes) == ord
  {
    UnanimousPasses(w, depth, items, size, passes, ord, pref);
    var t := RunPasses(w, depth, items, size, passes);
    var avg := Averages(t);
    forall i | 0 <= i < |ord|
      ensures ord[i] in avg && avg[ord[i]] == i as real
    {
      assert ord[i] in Elements(ord);
      MeanOfCopies(i as real, passes);
      assert t.lists[ord[i]] == Prior(t, ord[i]);
    }
    SortOfSorted(ord, avg);
  }

  lemma RankedStep(w: World, depth: nat, items: seq<Item>, size: nat, passes: nat, ratio: real, ord: seq<Id>)
    requires size >= 1 && w.Fair() && |items| > 1 && ord == SortedIds(w, depth, items, size, passes)
    ensures var m := RefineCount(|ord|, ratio);
            if m == 0 then Ranked(w, depth, items, size, passes, ratio) == ord
            else && KeySet(TopItems(items, ord[..m])) == Elements(ord[..m])
                 && KeySet(TopItems(items, ord[..m])) < KeySet(items)
                 && Ranked(w, depth, items, size, passes, ratio)
                    == Ranked(w, depth + 1, TopItems(items, ord[..m]), size, DeeperPasses(passes), ratio) + ord[m..]
  {
    var m := RefineCount(|ord|, ratio);
    if m > 0 {
      RefinementShrinks(w, depth, items, size, passes, m);
    }
  }

  lemma Reassemble(r: seq<Id>, ord: seq<Id>, ids: set<Id>, m: nat, pref: Id -> int)
    requires OrderOf(ord, ids, pref) && m <= |ord| && OrderOf(r, Elements(ord[..m]), pref)
    ensures r + ord[m..] == ord
  {
    OrderUnique(r, ord[..m], Elements(ord[..m]), pref);
  }

  lemma UnanimousOrder(w: World, depth: nat, items: seq<Item>, size: nat, passes: nat, pref: Id -> int)
    returns (ord: seq<Id>)
    requires size >= 1 && w.Fair() && Unanimous(w, depth, items, passes, pref) && passes >= 1 && 0 < |items| <= size
    ensures OrderOf(ord, KeySet(items), pref) && ord == SortedIds(w, depth, items, size, passes)
  {
    ord := RankBatch(w, depth, 0, 0, w.shuffle(depth, 0, items)).ids;
    UnanimousSort(w, depth, items, size, passes, ord, pref);
  }

  /** When one batch covers all items and the model answers what it is sent by one strict
      order, the ranking is that order, for any shuffles, number of passes and ratio. */
  lemma {:induction false} UnanimousRanking(w: World, depth: nat, items: seq<Item>, size: nat, passes: nat,
                                            ratio: real, pref: Id -> int)
    requires size >= 1 && w.Fair() && passes >= 1 && |items| <= size
    requires UnanimousRun(w, depth, items, size, passes, ratio, pref)
    ensures OrderOf(Ranked(w, depth, items, size, passes, ratio), KeySet(items), pref)
    decreases KeySet(items)
  {
    KeySetOf(items);
    if |items| > 1 {
      var ord := UnanimousOrder(w, depth, items, size, passes, pref);
      RankedStep(w, depth, items, size, passes, ratio, ord);
      var m := RefineCount(|ord|, ratio);
      if m > 0 {
        var top := TopItems(items, ord[..m]);
        TopItemsSize(items, ord[..m]);
        UnanimousRanking(w, depth + 1, top, size, DeeperPasses(passes), ratio, pref);
        Reassemble(Ranked(w, depth + 1, top, size, DeeperPasses(passes), ratio), ord, KeySet(items), m, pref);
      }
    }
  }

  lemma {:induction false} TopItemsSize(items: seq<Item>, top: seq<Id>)
    ensures |TopItems(items, top)| <= |items|
  {
    if items != [] {
      TopItemsSize(items[1..], top);
    }
  }
}
