/** Ranking by an id field other than "id". Replies are read against the values under "id"
    and then filtered by those under the id field, so an item's value under the id field
    is only recognised if it stands under some item's "id" too. */
module RankerFields {
  import opened Prelude
  import opened Ids
  import opened ScoreBoards
  import opened Ranker
  import opened RankerTheorems
  import opened RankerScoring

  /** The sizes of the batches that hold the id. */
  ghost function WorstScores(batches: seq<seq<Item>>, x: Id): seq<real> {
    if batches == [] then []
    else (if x in KeySet(batches[0]) then [|batches[0]| as real] else []) + WorstScores(batches[1..], x)
  }

  /** The batch does not show the id of its item with this key. */
  predicate Unreadable(batch: seq<Item>, x: Id) {
    x in KeySet(batch) ==> x !in IdSet(batch)
  }

  lemma UnreadableInBatch(w: World, depth: nat, pass: nat, b: nat, batch: seq<Item>, t: Scores, x: Id)
    returns (more: seq<real>)
    requires w.Fair() && Unreadable(batch, x)
    ensures Extends(t, RecordBatch(w, depth, pass, b, batch, t), x, more) && FairShare(more, batch, x, |batch|)
    ensures forall k :: 0 <= k < |more| ==> more[k] == |batch| as real
  {
    match w.reply(depth, pass, b, batch)
    case Failed =>
      more := FailureShare(t, batch, x);
    case Answer(ids) =>
      var ranked := Sanitized(w.rules, ids, IdSet(batch));
      SanitizedSpec(w.rules, ids, IdSet(batch));
      FilterNoDuplicates(ranked, KeySet(batch));
      var filtered := Filter(ranked, KeySet(batch));
      var missing := w.enumerate(depth, pass, b, KeySet(batch) - Elements(filtered));
      assert x !in filtered;
      more := AnswerShare(t, batch, filtered, missing, x);
  }

  /** `s` is the size of a batch that holds the id. */
  ghost predicate IsBatchSize(s: real, batches: seq<seq<Item>>, x: Id) {
    exists b :: 0 <= b < |batches| && x in KeySet(batches[b]) && s == |batches[b]| as real
  }

  ghost predicate AllBatchSizes(more: seq<real>, batches: seq<seq<Item>>, x: Id) {
    forall k :: 0 <= k < |more| ==> IsBatchSize(more[k], batches, x)
  }

  lemma BatchSizesCons(here: seq<real>, later: seq<real>, batches: seq<seq<Item>>, x: Id)
    requires batches != [] && FairShare(here, batches[0], x, |batches[0]|)
    requires forall k :: 0 <= k < |here| ==> here[k] == |batches[0]| as real
    requires AllBatchSizes(later, batches[1..], x)
    ensures AllBatchSizes(here + later, batches, x)
  {
    MultiplicityPositive(batches[0], x);
    forall k | 0 <= k < |here + later|
      ensures IsBatchSize((here + later)[k], batches, x)
    {
      if k >= |here| {
        assert IsBatchSize(later[k - |here|], batches[1..], x);
        var b :| 0 <= b < |batches[1..]| && x in KeySet(batches[1..][b])
                 && later[k - |here|] == |batches[1..][b]| as real;
        assert batches[b + 1] == batches[1..][b];
      }
    }
  }

  lemma WorstScoresCons(here: seq<real>, batches: seq<seq<Item>>, x: Id)
    requires batches != [] && FairShare(here, batches[0], x, |batches[0]|) && DistinctKeys(batches[0])
    requires forall k :: 0 <= k < |here| ==> here[k] == |batches[0]| as real
    ensures WorstScores(batches, x) == here + WorstScores(batches[1..], x)
  {
    DistinctMultiplicity(batches[0]);
    MultiplicityPositive(batches[0], x);
    assert here == if x in KeySet(batches[0]) then [|batches[0]| as real] else [];
  }

  lemma {:induction false} UnreadableInBatches(w: World, depth: nat, pass: nat, batches: seq<seq<Item>>, b: nat,
                                               t: Scores, x: Id)
    returns (more: seq<real>)
    requires b <= |batches| && w.Fair() && forall k :: b <= k < |batches| ==> Unreadable(batches[k], x)
    ensures Extends(t, RunBatches(w, depth, pass, batches, b, t), x, more)
    ensures AllBatchSizes(more, batches[b..], x)
    ensures DistinctKeys(Flatten(batches[b..])) ==> more == WorstScores(batches[b..], x)
    decreases |batches| - b
  {
    if b == |batches| {
      more := [];
    } else {
      var first := batches[b];
      assert batches[b..][0] == first && batches[b..][1..] == batches[b + 1..];
      var u := RecordBatch(w, depth, pass, b, first, t);
      var here := UnreadableInBatch(w, depth, pass, b, first, t, x);
      var later := UnreadableInBatches(w, depth, pass, batches, b + 1, u, x);
      ExtendsCompose(t, u, RunBatches(w, depth, pass, batches, b, t), x, here, later);
      more := here + later;
      BatchSizesCons(here, later, batches[b..], x);
      if DistinctKeys(Flatten(batches[b..])) {
        DistinctSplit(first, Flatten(batches[b + 1..]));
        WorstScoresCons(here, batches[b..], x);
      }
    }
  }

  ghost function WorstInPass(w: World, depth: nat, items: seq<Item>, size: nat, pass: nat, x: Id): seq<real>
    requires size >= 1
  {
    WorstScores(Batches(w.shuffle(depth, pass, items), size), x)
  }

  /** In batches of this size the item with key `x` can stand beside the one with id `x`. */
  ghost predicate Shows(items: seq<Item>, size: nat, x: Id) {
    exists i, j :: 0 <= i < |items| && 0 <= j < |items| && (i == j || size >= 2)
                   && items[i].key == x && items[j].id == x
  }

  lemma {:induction false} BatchesUnreadable(items: seq<Item>, size: nat, x: Id)
    requires size >= 1 && !Shows(items, size, x)
    ensures forall k :: 0 <= k < |Batches(items, size)| ==> Unreadable(Batches(items, size)[k], x)
  {
    if |items| > size {
      var rest := items[size..];
      NotShownInPart(items, rest, size, size, x);
      BatchesUnreadable(rest, size, x);
      NotShownInPart(items, items[..size], 0, size, x);
      if !Unreadable(items[..size], x) {
        ReadableIsShown(items[..size], size, x);
      }
    } else if items != [] && !Unreadable(items, x) {
      ReadableIsShown(items, size, x);
    }
  }

  lemma NotShownInPart(items: seq<Item>, part: seq<Item>, from: nat, size: nat, x: Id)
    requires !Shows(items, size, x) && from + |part| <= |items| && part == items[from..from + |part|]
    ensures !Shows(part, size, x)
  {
    forall i, j | 0 <= i < |part| && 0 <= j < |part| && (i == j || size >= 2)
      ensures !(part[i].key == x && part[j].id == x)
    {
      assert part[i] == items[from + i] && part[j] == items[from + j];
    }
  }

  lemma ReadableIsShown(batch: seq<Item>, size: nat, x: Id)
    requires !Unreadable(batch, x) && |batch| <= size
    ensures Shows(batch, size, x)
  {
    var a :| a in batch && a.key == x;
    var b :| b in batch && b.id == x;
    var i :| 0 <= i < |batch| && batch[i] == a;
    var j :| 0 <= j < |batch| && batch[j] == b;
    assert i == j || size >= 2;
  }

  lemma ShuffleShows(w: World, depth: nat, pass: nat, items: seq<Item>, size: nat, x: Id)
    requires w.Fair() && Shows(w.shuffle(depth, pass, items), size, x)
    ensures Shows(items, size, x)
  {
    var s := w.shuffle(depth, pass, items);
    var i, j :| 0 <= i < |s| && 0 <= j < |s| && (i == j || size >= 2) && s[i].key == x && s[j].id == x;
    assert s[i] in multiset(s) && s[j] in multiset(s) && multiset(s) == multiset(items);
    var k :| 0 <= k < |items| && items[k] == s[i];
    var l :| 0 <= l < |items| && items[l] == s[j];
    if i == j {
      assert items[k].id == x;
      assert Shows(items, size, x);
    }
  }

  lemma UnreadableInPass(w: World, depth: nat, items: seq<Item>, size: nat, pass: nat, t: Scores, x: Id)
    returns (more: seq<real>)
    requires size >= 1 && w.Fair() && !Shows(items, size, x)
    ensures Extends(t, RunPass(w, depth, items, size, pass, t), x, more)
    ensures AllBatchSizes(more, Batches(w.shuffle(depth, pass, items), size), x)
    ensures DistinctKeys(items) ==> more == WorstInPass(w, depth, items, size, pass, x)
  {
    var shuffled := w.shuffle(depth, pass, items);
    if Shows(shuffled, size, x) {
      ShuffleShows(w, depth, pass, items, size, x);
    }
    var batches := Batches(shuffled, size);
    BatchesPartition(shuffled, size);
    BatchesUnreadable(shuffled, size, x);
    assert batches[0..] == batches;
    more := UnreadableInBatches(w, depth, pass, batches, 0, t, x);
    if DistinctKeys(items) {
      ShuffleKeepsDistinct(w, depth, pass, items);
    }
  }

  ghost function Chain(scores: nat -> seq<real>, n: nat): seq<real> {
    if n == 0 then [] else Chain(scores, n - 1) + scores(n - 1)
  }

  lemma {:induction false} IterateChain(step: (nat, Scores) -> Scores, scores: nat -> seq<real>, n: nat, x: Id)
    requires forall p: nat, t: Scores :: Extends(t, step(p, t), x, scores(p))
    ensures Prior(Iterate(step, n), x) == Chain(scores, n)
  {
    if n > 0 {
      IterateChain(step, scores, n - 1, x);
      assert Extends(Iterate(step, n - 1), step(n - 1, Iterate(step, n - 1)), x, scores(n - 1));
    }
  }

  /** Every score of `x` is the size of a batch that held it in one of the first `n` passes. */
  ghost predicate WorstOnly(t: Scores, batches: nat -> seq<seq<Item>>, n: nat, x: Id) {
    forall k :: 0 <= k < |Prior(t, x)| ==> exists p: nat :: p < n && IsBatchSize(Prior(t, x)[k], batches(p), x)
  }

  lemma WorstOnlyStep(t: Scores, r: Scores, more: seq<real>, batches: nat -> seq<seq<Item>>, n: nat, x: Id)
    requires WorstOnly(t, batches, n, x) && Extends(t, r, x, more) && AllBatchSizes(more, batches(n), x)
    ensures WorstOnly(r, batches, n + 1, x)
  {
    forall k | 0 <= k < |Prior(r, x)|
      ensures exists p: nat :: p < n + 1 && IsBatchSize(Prior(r, x)[k], batches(p), x)
    {
      if k < |Prior(t, x)| {
        assert Prior(r, x)[k] == Prior(t, x)[k];
      } else {
        assert Prior(r, x)[k] == more[k - |Prior(t, x)|];
        assert IsBatchSize(Prior(r, x)[k], batches(n), x);
      }
    }
  }

  lemma {:induction false} IterateWorst(step: (nat, Scores) -> Scores, batches: nat -> seq<seq<Item>>, n: nat, x: Id)
    requires forall p: nat, t: Scores :: WorstOnly(t, batches, p, x) ==> WorstOnly(step(p, t), batches, p + 1, x)
    ensures WorstOnly(Iterate(step, n), batches, n, x)
  {
    if n > 0 {
      IterateWorst(step, batches, n - 1, x);
      assert WorstOnly(step(n - 1, Iterate(step, n - 1)), batches, n - 1 + 1, x);
    } else {
      assert Prior(EMPTY, x) == [];
    }
  }

  /** An item whose id the model cannot see beside it gets nothing but the size of its
      batch, the worst score, in any pass, whatever the model replies. */
  lemma UnseenScoresWorst(w: World, depth: nat, items: seq<Item>, size: nat, passes: nat, x: Id)
    requires size >= 1 && w.Fair() && !Shows(items, size, x)
    ensures WorstOnly(RunPasses(w, depth, items, size, passes),
                      (pass: nat) => Batches(w.shuffle(depth, pass, items), size), passes, x)
  {
    var step := (pass: nat, t: Scores) => RunPass(w, depth, items, size, pass, t);
    var batches := (pass: nat) => Batches(w.shuffle(depth, pass, items), size);
    forall p: nat, t: Scores | WorstOnly(t, batches, p, x)
      ensures WorstOnly(step(p, t), batches, p + 1, x)
    {
      var more := UnreadableInPass(w, depth, items, size, p, t, x);
      assert step(p, t) == RunPass(w, depth, items, size, p, t);
      assert batches(p) == Batches(w.shuffle(depth, p, items), size);
      WorstOnlyStep(t, step(p, t), more, batches, p, x);
    }
    IterateWorst(step, batches, passes, x);
    assert RunPasses(w, depth, items, size, passes) == Iterate(step, passes);
  }

  /** Among distinct ids these are exactly its scores, one for every pass. */
  lemma UnseenScores(w: World, depth: nat, items: seq<Item>, size: nat, passes: nat, x: Id)
    requires size >= 1 && w.Fair() && DistinctKeys(items) && !Shows(items, size, x)
    ensures Prior(RunPasses(w, depth, items, size, passes), x)
            == Chain((pass: nat) => WorstInPass(w, depth, items, size, pass, x), passes)
  {
    var step := (pass: nat, t: Scores) => RunPass(w, depth, items, size, pass, t);
    var scores := (pass: nat) => WorstInPass(w, depth, items, size, pass, x);
    forall p: nat, t: Scores
      ensures Extends(t, step(p, t), x, scores(p))
    {
      var more := UnreadableInPass(w, depth, items, size, p, t, x);
    }
    IterateChain(step, scores, passes, x);
    assert RunPasses(w, depth, items, size, passes) == Iterate(step, passes);
  }

  lemma {:induction false} ChainSame(a: nat -> seq<real>, b: nat -> seq<real>, n: nat)
    requires forall k: nat :: a(k) == b(k)
    ensures Chain(a, n) == Chain(b, n)
  {
    if n > 0 {
      ChainSame(a, b, n - 1);
    }
  }

  ghost predicate NothingShown(items: seq<Item>, size: nat) {
    forall x :: !Shows(items, size, x)
  }

  ghost predicate SameAverages(w: World, v: World, depth: nat, items: seq<Item>, size: nat, passes: nat)
    requires size >= 1
  {
    Averages(RunPasses(w, depth, items, size, passes)) == Averages(RunPasses(v, depth, items, size, passes))
  }

  /** Where nothing is shown, the model has no say: the averages are the same for any two
      models and their replies. */
  lemma ModelHasNoSay(w: World, v: World, depth: nat, items: seq<Item>, size: nat, passes: nat)
    requires size >= 1 && w.Fair() && v.Fair() && w.shuffle == v.shuffle
    requires DistinctKeys(items) && NothingShown(items, size)
    ensures SameAverages(w, v, depth, items, size, passes)
  {
    var t, r := RunPasses(w, depth, items, size, passes), RunPasses(v, depth, items, size, passes);
    RunPassesKeys(w, depth, items, size, passes);
    RunPassesKeys(v, depth, items, size, passes);
    assert t.lists.Keys == r.lists.Keys;
    forall x | x in t.lists
      ensures t.lists[x] == r.lists[x]
    {
      UnseenScores(w, depth, items, size, passes, x);
      UnseenScores(v, depth, items, size, passes, x);
      ChainSame((pass: nat) => WorstInPass(w, depth, items, size, pass, x),
                (pass: nat) => WorstInPass(v, depth, items, size, pass, x), passes);
      assert x in Elements(t.order);
    }
  }

  // ------------------------------------------------- and where it has

  function Without<T>(s: seq<T>, i: nat): seq<T>
    requires i < |s|
  {
    s[..i] + s[i + 1..]
  }

  /** Brings one element to the front. */
  function ToFront<T>(s: seq<T>, i: nat): (r: seq<T>)
    requires i < |s|
    ensures multiset(r) == multiset(s) && |r| == |s| && r[0] == s[i]
  {
    assert s == s[..i] + ([s[i]] + s[i + 1..]);
    [s[i]] + Without(s, i)
  }

  /** An order of the items in which the first batch holds both. */
  lemma FirstTogether(items: seq<Item>, size: nat, i: nat, j: nat) returns (order: seq<Item>)
    requires i < |items| && j < |items| && (i == j || size >= 2) && size >= 1
    ensures multiset(order) == multiset(items)
    ensures items[i] in Batches(order, size)[0] && items[j] in Batches(order, size)[0]
    ensures order != []
  {
    order := ToFront(items, i);
    if i != j {
      var k := if j < i then j + 1 else j;
      assert order[k] == items[j];
      order := ToFront(order, k);
      assert order[1] == items[i];
      assert |order| >= 2;
    }
    FrontIsFirst(order, size);
  }

  lemma FrontIsFirst(order: seq<Item>, size: nat)
    requires size >= 1 && order != []
    ensures order[0] in Batches(order, size)[0]
    ensures size >= 2 && |order| >= 2 ==> order[1] in Batches(order, size)[0]
  {
    assert |order| > size ==> Batches(order, size)[0] == order[..size];
  }

  /** What a pass makes of an item of its first batch is decided there. */
  lemma FirstBatchDecides(w: World, depth: nat, items: seq<Item>, size: nat, pass: nat, t: Scores, x: Id)
    requires size >= 1 && w.Fair() && DistinctKeys(items) && items != []
    requires var batches := Batches(w.shuffle(depth, pass, items), size);
             batches != [] && x in KeySet(batches[0])
    ensures var first := Batches(w.shuffle(depth, pass, items), size)[0];
            Prior(RunPass(w, depth, items, size, pass, t), x) == Prior(RecordBatch(w, depth, pass, 0, first, t), x)
  {
    var shuffled := w.shuffle(depth, pass, items);
    var batches := Batches(shuffled, size);
    ShuffleKeepsDistinct(w, depth, pass, items);
    BatchesPartition(shuffled, size);
    assert batches[0..] == batches;
    DistinctSplit(batches[0], Flatten(batches[1..]));
    var u := RecordBatch(w, depth, pass, 0, batches[0], t);
    var more := BatchesShare(w, depth, pass, batches, 1, u, size, x);
    MultiplicityPositive(Flatten(batches[1..]), x);
  }

  /** A form in which the model can write an id so that it is read back. */
  function Written(x: Id): Id {
    match x
    case Str(s) => Str("`" + s + "`")
    case Num(_) => x
  }

  lemma WrittenIsRead(rules: TextRules, x: Id, valid: set<Id>)
    requires x in valid && !rules.space('`')
    ensures Sanitized(rules, [Written(x)], valid) == [x]
  {
    if x.Str? {
      NormalizeRecovers(rules, x.s, valid);
    }
    assert Normalize(rules, Written(x), valid) == x;
    assert [Written(x)][1..] == [];
    assert SanitizedFrom(rules, [], valid, {} + {x}) == [];
  }

  /** An answer with a single id puts its item first. */
  lemma NamedComesFirst(w: World, depth: nat, pass: nat, b: nat, batch: seq<Item>, t: Scores, x: Id)
    requires w.Fair() && !w.rules.space('`') && x in KeySet(batch) && x in IdSet(batch)
    requires w.reply(depth, pass, b, batch) == Answer([Written(x)])
    ensures Prior(RecordBatch(w, depth, pass, b, batch, t), x) == Prior(t, x) + [0.0]
  {
    WrittenIsRead(w.rules, x, IdSet(batch));
    assert [x][1..] == [];
    assert Filter([x], KeySet(batch)) == [x];
    var u, worst := t.AppendPositions([x], 0), |batch| as real;
    var missing := w.enumerate(depth, pass, b, KeySet(batch) - Elements([x]));
    PositionsGain(t, [x], 0);
    PriorAfter(t, u, PositionGain([x], 0), x);
    assert PositionGain([x], 0)[[x][0]] == 0.0;
    assert x in Elements([x]);
    WorstGain(u, missing, worst);
    PriorAfter(u, u.AppendAll(missing, worst), ConstantGain(missing, worst), x);
    assert x !in Elements(missing);
  }

  lemma {:induction false} ChainOfCopies(scores: nat -> seq<real>, x: real, n: nat)
    requires forall p: nat :: scores(p) == [x]
    ensures Chain(scores, n) == Copies(x, n)
  {
    if n > 0 {
      ChainOfCopies(scores, x, n - 1);
    }
  }

  /** A model that scores an id alike in every pass. */
  lemma ConstantScore(w: World, depth: nat, items: seq<Item>, size: nat, passes: nat, x: Id, score: real)
    requires size >= 1 && w.Fair() && passes >= 1 && x in KeySet(items)
    requires forall p: nat, t: Scores :: Extends(t, RunPass(w, depth, items, size, p, t), x, [score])
    ensures x in Averages(RunPasses(w, depth, items, size, passes))
         && Averages(RunPasses(w, depth, items, size, passes))[x] == score
  {
    var step := (pass: nat, t: Scores) => RunPass(w, depth, items, size, pass, t);
    var scores := (pass: nat) => [score];
    forall p: nat, t: Scores
      ensures Extends(t, step(p, t), x, scores(p))
    {
      assert Extends(t, RunPass(w, depth, items, size, p, t), x, [score]);
    }
    IterateChain(step, scores, passes, x);
    ChainOfCopies(scores, score, passes);
    assert RunPasses(w, depth, items, size, passes) == Iterate(step, passes);
    MeanOfCopies(score, passes);
    RunPassesKeys(w, depth, items, size, passes);
    assert x in Elements(RunPasses(w, depth, items, size, passes).order);
  }

  ghost function Shuffling(items: seq<Item>, order: seq<Item>): (nat, nat, seq<Item>) -> seq<Item> {
    (d: nat, p: nat, s: seq<Item>) => if s == items then order else s
  }

  ghost function Replying(rules: TextRules, items: seq<Item>, order: seq<Item>, reply: Reply): World {
    World(rules, Shuffling(items, order),
          (d: nat, p: nat, b: nat, batch: seq<Item>) => reply,
          (d: nat, p: nat, b: nat, ids: set<Id>) => AnyOrder(ids))
  }

  lemma ReplyingIsFair(rules: TextRules, items: seq<Item>, order: seq<Item>, reply: Reply)
    requires multiset(order) == multiset(items)
    ensures Replying(rules, items, order, reply).Fair()
  {
  }

  /** If an item can stand beside its id, two models with the same shuffles give it
      different averages: one that names it and one that fails. */
  lemma ShownMatters(rules: TextRules, depth: nat, items: seq<Item>, size: nat, passes: nat, x: Id)
    returns (w: World, v: World)
    requires size >= 1 && passes >= 1 && !rules.space('`') && DistinctKeys(items) && Shows(items, size, x)
    ensures w.Fair() && v.Fair() && w.shuffle == v.shuffle && w.rules == v.rules == rules
    ensures !SameAverages(w, v, depth, items, size, passes)
  {
    var i, j :| 0 <= i < |items| && 0 <= j < |items| && (i == j || size >= 2)
                && items[i].key == x && items[j].id == x;
    var order := FirstTogether(items, size, i, j);
    w, v := Replying(rules, items, order, Answer([Written(x)])), Replying(rules, items, order, Failed);
    ReplyingIsFair(rules, items, order, Answer([Written(x)]));
    ReplyingIsFair(rules, items, order, Failed);
    var first := Batches(order, size)[0];
    assert x in KeySet(first) && x in IdSet(first) && first != [];
    forall p: nat, t: Scores
      ensures Extends(t, RunPass(w, depth, items, size, p, t), x, [0.0])
    {
      FirstBatchDecides(w, depth, items, size, p, t, x);
      NamedComesFirst(w, depth, p, 0, first, t, x);
    }
    forall p: nat, t: Scores
      ensures Extends(t, RunPass(v, depth, items, size, p, t), x, [|first| as real])
    {
      FirstBatchDecides(v, depth, items, size, p, t, x);
      FirstIsDistinct(order, items, size);
      var more := FailureShare(t, first, x);
      DistinctMultiplicity(first);
      assert more == [|first| as real];
    }
    ConstantScore(w, depth, items, size, passes, x, 0.0);
    ConstantScore(v, depth, items, size, passes, x, |first| as real);
  }

  lemma FirstIsDistinct(order: seq<Item>, items: seq<Item>, size: nat)
    requires size >= 1 && order != [] && multiset(order) == multiset(items) && DistinctKeys(items)
    ensures DistinctKeys(Batches(order, size)[0])
  {
    var batches := Batches(order, size);
    ReorderedDistinct(order, items);
    BatchesPartition(order, size);
    assert Flatten(batches) == batches[0] + Flatten(batches[1..]);
    DistinctSplit(batches[0], Flatten(batches[1..]));
  }

  lemma ReorderedDistinct(order: seq<Item>, items: seq<Item>)
    requires multiset(order) == multiset(items) && DistinctKeys(items)
    ensures DistinctKeys(order)
  {
    var w := Replying(TextRules(c => false, s => None), items, order, Failed);
    ReplyingIsFair(w.rules, items, order, Failed);
    ShuffleKeepsDistinct(w, 0, 0, items);
  }

  /** Two models with the same shuffles always give the same averages exactly where nothing
      is shown. For batches of two or more that is where no value under the id field is
      one under "id"; for single-item batches, where no item has both alike. */
  lemma ModelHasNoSayIff(rules: TextRules, depth: nat, items: seq<Item>, size: nat, passes: nat)
    requires size >= 1 && passes >= 1 && !rules.space('`') && DistinctKeys(items)
    ensures (forall w: World, v: World ::
               w.Fair() && v.Fair() && w.shuffle == v.shuffle && w.rules == rules && v.rules == rules ==>
                 SameAverages(w, v, depth, items, size, passes))
            <==> if size == 1 then forall item :: item in items ==> item.key != item.id
                 else KeySet(items) !! IdSet(items)
  {
    ShownForms(items, size);
    if NothingShown(items, size) {
      forall w: World, v: World | w.Fair() && v.Fair() && w.shuffle == v.shuffle
        ensures SameAverages(w, v, depth, items, size, passes)
      {
        ModelHasNoSay(w, v, depth, items, size, passes);
      }
    } else {
      var x :| Shows(items, size, x);
      var w, v := ShownMatters(rules, depth, items, size, passes, x);
    }
  }

  lemma ShownForms(items: seq<Item>, size: nat)
    requires size >= 1
    ensures NothingShown(items, size) <==>
              if size == 1 then forall item :: item in items ==> item.key != item.id
              else KeySet(items) !! IdSet(items)
  {
    if size == 1 {
      forall i | 0 <= i < |items|
        ensures Shows(items, size, items[i].key) || items[i].key != items[i].id
      {
      }
    } else {
      forall x
        ensures Shows(items, size, x) <==> x in KeySet(items) && x in IdSet(items)
      {
        if x in KeySet(items) && x in IdSet(items) {
          var a :| a in items && a.key == x;
          var b :| b in items && b.id == x;
          var i :| 0 <= i < |items| && items[i] == a;
          var j :| 0 <= j < |items| && items[j] == b;
          assert i == j || size >= 2;
        }
      }
    }
  }
}
