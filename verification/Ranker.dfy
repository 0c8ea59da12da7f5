/** The multi-pass ranking algorithm of allama/ai/ranker.py: shuffle, batch, score,
    average, sort, and rank the top portion again. */
module Ranker {
  import opened Prelude
  import opened Ids
  import opened ScoreBoards

  /** `key` is the item's value under the configured id field, `id` the one under "id"
      that the model is shown. */
  datatype Item = Item(key: Id, id: Id, text: string)

  datatype Reply = Failed | Answer(ids: seq<Id>)

  /** Everything the algorithm does not decide: how the items are shuffled, what the
      model replies to a batch (anything, or failure), and in which order a set is
      enumerated. Calls are told apart by recursion depth, pass and batch number. */
  datatype World = World(
    rules: TextRules,
    shuffle: (nat, nat, seq<Item>) -> seq<Item>,
    reply: (nat, nat, nat, seq<Item>) -> Reply,
    enumerate: (nat, nat, nat, set<Id>) -> seq<Id>)
  {
    /** A shuffle permutes and an enumeration lists every element once; nothing is
        asked of the replies. */
    ghost predicate Fair() {
      && (forall d, p, items :: multiset(shuffle(d, p, items)) == multiset(items))
      && (forall d, p, b, ids :: Elements(enumerate(d, p, b, ids)) == ids
                                 && NoDuplicates(enumerate(d, p, b, ids)))
    }
  }

  ghost function AnyOrder(ids: set<Id>): (r: seq<Id>)
    ensures Elements(r) == ids && NoDuplicates(r)
    decreases |ids|
  {
    if ids == {} then []
    else
      var x :| x in ids;
      var rest := AnyOrder(ids - {x});
      assert forall y :: y in [x] + rest <==> y == x || y in Elements(rest);
      assert x !in Elements(rest);
      [x] + rest
  }

  /** Fairness leaves the model free: any replies whatever belong to a fair world. */
  lemma AnyRepliesAreFair(rules: TextRules, reply: (nat, nat, nat, seq<Item>) -> Reply) returns (w: World)
    ensures w.Fair() && w.reply == reply && w.rules == rules
  {
    w := World(rules,
               (d: nat, p: nat, items: seq<Item>) => items,
               reply,
               (d: nat, p: nat, b: nat, ids: set<Id>) => AnyOrder(ids));
  }

  function Keys(items: seq<Item>): (r: seq<Id>)
    ensures |r| == |items| && forall i :: 0 <= i < |items| ==> r[i] == items[i].key
  {
    seq(|items|, i requires 0 <= i < |items| => items[i].key)
  }

  function KeySet(items: seq<Item>): set<Id> {
    set item | item in items :: item.key
  }

  function IdSet(items: seq<Item>): set<Id> {
    set item | item in items :: item.id
  }

  function Filter(ids: seq<Id>, allowed: set<Id>): (r: seq<Id>)
    ensures forall x :: x in r <==> x in ids && x in allowed
  {
    if ids == [] then []
    else
      assert ids == [ids[0]] + ids[1..];
      (if ids[0] in allowed then [ids[0]] else []) + Filter(ids[1..], allowed)
  }

  // ------------------------------------------------- one batch, one pass, all passes

  function Batches(items: seq<Item>, size: nat): seq<seq<Item>>
    requires size >= 1
  {
    if items == [] then []
    else if |items| <= size then [items]
    else [items[..size]] + Batches(items[size..], size)
  }

  method CreateBatches(items: seq<Item>, size: nat) returns (batches: seq<seq<Item>>)
    requires size >= 1
    ensures batches == Batches(items, size)
  {
    batches := [];
    var i := 0;
    while i < |items|
      invariant 0 <= i
      invariant i <= |items| ==> batches + Batches(items[i..], size) == Batches(items, size)
      invariant i > |items| ==> batches == Batches(items, size)
    {
      var batch := items[i..if i + size <= |items| then i + size else |items|];
      if i + size >= |items| {
        assert batch == items[i..];
      } else {
        assert items[i..][..size] == batch;
        assert items[i..][size..] == items[i + size..];
      }
      batches := batches + [batch];
      i := i + size;
    }
  }

  function RankBatch(w: World, depth: nat, pass: nat, b: nat, batch: seq<Item>): Reply {
    match w.reply(depth, pass, b, batch)
    case Failed => Failed
    case Answer(ids) => Answer(Sanitized(w.rules, ids, IdSet(batch)))
  }

  function RecordBatch(w: World, depth: nat, pass: nat, b: nat, batch: seq<Item>, t: Scores): Scores {
    match RankBatch(w, depth, pass, b, batch)
    case Failed => t.AppendAll(Keys(batch), |batch| as real)
    case Answer(ranked) =>
      var filtered := Filter(ranked, KeySet(batch));
      var missing := w.enumerate(depth, pass, b, KeySet(batch) - Elements(filtered));
      t.AppendPositions(filtered, 0).AppendAll(missing, |batch| as real)
  }

  function RunBatches(w: World, depth: nat, pass: nat, batches: seq<seq<Item>>, b: nat, t: Scores): Scores
    requires b <= |batches|
    decreases |batches| - b
  {
    if b == |batches| then t
    else RunBatches(w, depth, pass, batches, b + 1, RecordBatch(w, depth, pass, b, batches[b], t))
  }

  function RunPass(w: World, depth: nat, items: seq<Item>, size: nat, pass: nat, t: Scores): Scores
    requires size >= 1
  {
    RunBatches(w, depth, pass, Batches(w.shuffle(depth, pass, items), size), 0, t)
  }

  function RunPasses(w: World, depth: nat, items: seq<Item>, size: nat, passes: nat): Scores
    requires size >= 1
  {
    Iterate((pass: nat, t: Scores) => RunPass(w, depth, items, size, pass, t), passes)
  }

  function Iterate(step: (nat, Scores) -> Scores, n: nat): Scores {
    if n == 0 then EMPTY else step(n - 1, Iterate(step, n - 1))
  }

  // ------------------------------------------------- every item is scored, nothing else

  lemma KeySetOf(items: seq<Item>)
    ensures Elements(Keys(items)) == KeySet(items)
  {
    forall x
      ensures x in Elements(Keys(items)) <==> x in KeySet(items)
    {
      if x in KeySet(items) {
        var i :| 0 <= i < |items| && items[i].key == x;
        assert Keys(items)[i] == x;
      }
    }
  }

  lemma RecordBatchKeys(w: World, depth: nat, pass: nat, b: nat, batch: seq<Item>, t: Scores)
    requires w.Fair() && t.Valid()
    ensures ScoresMore(t, RecordBatch(w, depth, pass, b, batch, t), KeySet(batch))
  {
    KeySetOf(batch);
  }

  ghost function KeysOfAll(batches: seq<seq<Item>>): set<Id> {
    set batch, item | batch in batches && item in batch :: item.key
  }

  lemma KeysOfAllCons(first: seq<Item>, rest: seq<seq<Item>>)
    ensures KeysOfAll([first] + rest) == KeySet(first) + KeysOfAll(rest)
  {
    assert forall batch :: batch in [first] + rest <==> batch == first || batch in rest;
  }

  lemma KeysOfNone(batches: seq<seq<Item>>)
    requires batches == []
    ensures KeysOfAll(batches) == {}
  {
  }

  /** `r` has scores for the ids of `t` and those of `ids`. */
  ghost predicate ScoresMore(t: Scores, r: Scores, ids: set<Id>) {
    r.Valid() && Elements(r.order) == Elements(t.order) + ids
  }

  lemma ScoresMoreCompose(t: Scores, r: Scores, s: Scores, first: set<Id>, rest: set<Id>)
    requires ScoresMore(t, r, first) && ScoresMore(r, s, rest)
    ensures ScoresMore(t, s, first + rest)
  {
  }

  lemma BatchThenRest(t: Scores, r: Scores, s: Scores, batches: seq<seq<Item>>, b: nat)
    requires b < |batches|
    requires ScoresMore(t, r, KeySet(batches[b])) && ScoresMore(r, s, KeysOfAll(batches[b + 1..]))
    ensures ScoresMore(t, s, KeysOfAll(batches[b..]))
  {
    assert batches[b..] == [batches[b]] + batches[b + 1..];
    KeysOfAllCons(batches[b], batches[b + 1..]);
    ScoresMoreCompose(t, r, s, KeySet(batches[b]), KeysOfAll(batches[b + 1..]));
  }

  lemma {:induction false} RunBatchesKeys(w: World, depth: nat, pass: nat, batches: seq<seq<Item>>, b: nat, t: Scores)
    requires b <= |batches| && w.Fair() && t.Valid()
    ensures ScoresMore(t, RunBatches(w, depth, pass, batches, b, t), KeysOfAll(batches[b..]))
    decreases |batches| - b
  {
    if b == |batches| {
      KeysOfNone(batches[b..]);
    } else {
      var next := RecordBatch(w, depth, pass, b, batches[b], t);
      RecordBatchKeys(w, depth, pass, b, batches[b], t);
      RunBatchesKeys(w, depth, pass, batches, b + 1, next);
      BatchThenRest(t, next, RunBatches(w, depth, pass, batches, b + 1, next), batches, b);
    }
  }

  ghost function Flatten(batches: seq<seq<Item>>): seq<Item> {
    if batches == [] then [] else batches[0] + Flatten(batches[1..])
  }

  /** Batching partitions the items in order; all batches but the last are full. */
  lemma {:induction false} BatchesPartition(items: seq<Item>, size: nat)
    requires size >= 1
    ensures var bs := Batches(items, size);
            && Flatten(bs) == items
            && (forall i :: 0 <= i < |bs| ==> 1 <= |bs[i]| <= size && (i + 1 < |bs| ==> |bs[i]| == size))
  {
    var bs := Batches(items, size);
    if |items| > size {
      BatchesPartition(items[size..], size);
      assert bs[1..] == Batches(items[size..], size);
      assert items == items[..size] + items[size..];
    } else if items != [] {
      assert bs[1..] == [];
    }
  }

  lemma {:induction false} KeysOfFlatten(batches: seq<seq<Item>>)
    ensures KeySet(Flatten(batches)) == KeysOfAll(batches)
  {
    if batches != [] {
      KeysOfFlatten(batches[1..]);
      var first, rest := batches[0], batches[1..];
      assert batches == [first] + rest;
      KeysOfAllCons(first, rest);
      KeySetAppend(first, Flatten(rest));
    }
  }

  lemma KeySetAppend(a: seq<Item>, b: seq<Item>)
    ensures KeySet(a + b) == KeySet(a) + KeySet(b)
  {
  }

  lemma ShuffleKeepsKeys(w: World, depth: nat, pass: nat, items: seq<Item>)
    requires w.Fair()
    ensures KeySet(w.shuffle(depth, pass, items)) == KeySet(items)
  {
    var s := w.shuffle(depth, pass, items);
    assert forall x :: x in s <==> x in multiset(s);
    assert forall x :: x in items <==> x in multiset(items);
  }

  lemma RunPassKeys(w: World, depth: nat, items: seq<Item>, size: nat, pass: nat, t: Scores)
    requires size >= 1 && w.Fair() && t.Valid()
    ensures ScoresMore(t, RunPass(w, depth, items, size, pass, t), KeySet(items))
  {
    var shuffled := w.shuffle(depth, pass, items);
    ShuffleKeepsKeys(w, depth, pass, items);
    BatchesPartition(shuffled, size);
    var batches := Batches(shuffled, size);
    KeysOfFlatten(batches);
    RunBatchesKeys(w, depth, pass, batches, 0, t);
    assert batches[0..] == batches;
  }

  ghost predicate Scored(t: Scores, ids: set<Id>) {
    t.Valid() && Elements(t.order) == ids
  }

  lemma {:induction false} IterateScores(step: (nat, Scores) -> Scores, n: nat, ids: set<Id>)
    requires forall p: nat, t: Scores :: t.Valid() ==> Scored(step(p, t), Elements(t.order) + ids)
    ensures Scored(Iterate(step, n), if n == 0 then {} else ids)
  {
    if n > 0 {
      IterateScores(step, n - 1, ids);
      assert Elements(Iterate(step, n - 1).order) + ids == ids;
    }
  }

  lemma RunPassesKeys(w: World, depth: nat, items: seq<Item>, size: nat, passes: nat)
    requires size >= 1 && w.Fair()
    ensures Scored(RunPasses(w, depth, items, size, passes), if passes == 0 then {} else KeySet(items))
  {
    var step := (pass: nat, t: Scores) => RunPass(w, depth, items, size, pass, t);
    forall p: nat, t: Scores | t.Valid()
      ensures Scored(step(p, t), Elements(t.order) + KeySet(items))
    {
      RunPassKeys(w, depth, items, size, p, t);
    }
    IterateScores(step, passes, KeySet(items));
    assert RunPasses(w, depth, items, size, passes) == Iterate(step, passes);
  }

  // ------------------------------------------------- sorting and refinement

  /** The ids in order of average score. */
  function SortedIds(w: World, depth: nat, items: seq<Item>, size: nat, passes: nat): (s: seq<Id>)
    requires size >= 1 && w.Fair()
    ensures NoDuplicates(s)
    ensures Elements(s) == if passes == 0 then {} else KeySet(items)
  {
    RunPassesKeys(w, depth, items, size, passes);
    var t := RunPasses(w, depth, items, size, passes);
    SortBySorted(t.order, Averages(t));
    SortBy(t.order, Averages(t))
  }

  /** How many of `n` sorted ids are ranked again; 0 stands for no refinement. */
  function RefineCount(n: nat, ratio: real): (m: nat)
    ensures m == 0 || m < n
  {
    if ratio > 0.0 && n > 1 then
      var top := (n as real * ratio).Floor;
      var count := if top < 1 then 1 else top;
      if count < n then count else 0
    else 0
  }

  function TopItems(items: seq<Item>, top: seq<Id>): (r: seq<Item>)
    ensures forall item :: item in r <==> item in items && item.key in top
  {
    if items == [] then []
    else
      assert items == [items[0]] + items[1..];
      (if items[0].key in top then [items[0]] else []) + TopItems(items[1..], top)
  }

  function DeeperPasses(passes: nat): nat {
    if passes / 2 < 1 then 1 else passes / 2
  }

  /** The refined items hold exactly the top ids, so the next level has strictly fewer
      distinct ids. */
  lemma RefinementShrinks(w: World, depth: nat, items: seq<Item>, size: nat, passes: nat, m: nat)
    requires size >= 1 && w.Fair() && 0 < m < |SortedIds(w, depth, items, size, passes)|
    ensures var s := SortedIds(w, depth, items, size, passes);
            && KeySet(TopItems(items, s[..m])) == Elements(s[..m])
            && KeySet(TopItems(items, s[..m])) < KeySet(items)
  {
    var s := SortedIds(w, depth, items, size, passes);
    assert s[m] in Elements(s);
    forall x
      ensures x in KeySet(TopItems(items, s[..m])) <==> x in Elements(s[..m])
    {
      if x in s[..m] {
        assert x in Elements(s);
        var item :| item in items && item.key == x;
        assert item in TopItems(items, s[..m]);
      }
    }
    assert s[m] !in s[..m];
  }

  function Ranked(w: World, depth: nat, items: seq<Item>, size: nat, passes: nat, ratio: real): seq<Id>
    requires size >= 1 && w.Fair()
    decreases KeySet(items)
  {
    if |items| <= 1 then Keys(items)
    else
      var s := SortedIds(w, depth, items, size, passes);
      var m := RefineCount(|s|, ratio);
      if m == 0 then s
      else
        RefinementShrinks(w, depth, items, size, passes, m);
        Ranked(w, depth + 1, TopItems(items, s[..m]), size, DeeperPasses(passes), ratio) + s[m..]
  }

  method ScoreBatch(w: World, depth: nat, pass: nat, b: nat, batch: seq<Item>, board: ScoreBoard)
    requires w.Fair()
    modifies board
    ensures board.Value() == RecordBatch(w, depth, pass, b, batch, old(board.Value()))
  {
    match w.reply(depth, pass, b, batch)
    case Failed =>
      board.AssignWorstScores(Keys(batch), |batch| as real);
    case Answer(ids) =>
      var ranking := SanitizeIds(w.rules, ids, IdSet(batch));
      var filtered := Filter(ranking, KeySet(batch));
      board.AssignPositions(filtered);
      var missing := KeySet(batch) - Elements(filtered);
      if missing != {} {
        board.AssignWorstScores(w.enumerate(depth, pass, b, missing), |batch| as real);
      } else {
        var none := w.enumerate(depth, pass, b, missing);
        NoElements(none);
      }
  }

  /** Scores one pass; `sent` counts the items put before the model. */
  method ScorePass(w: World, depth: nat, items: seq<Item>, size: nat, pass: nat, board: ScoreBoard)
    returns (ghost sent: nat)
    requires size >= 1 && w.Fair()
    modifies board
    ensures board.Value() == RunPass(w, depth, items, size, pass, old(board.Value()))
    ensures sent == |items|
  {
    var shuffled := w.shuffle(depth, pass, items);
    var batches := CreateBatches(shuffled, size);
    BatchesPartition(shuffled, size);
    sent := 0;
    for b := 0 to |batches|
      invariant RunBatches(w, depth, pass, batches, b, board.Value())
             == RunBatches(w, depth, pass, batches, 0, old(board.Value()))
      invariant sent + |Flatten(batches[b..])| == |shuffled|
    {
      ScoreBatch(w, depth, pass, b, batches[b], board);
      sent := sent + |batches[b]|;
      assert batches[b..][1..] == batches[b + 1..];
    }
    assert |multiset(shuffled)| == |multiset(items)|;
  }

  method ScoreAllPasses(w: World, depth: nat, items: seq<Item>, size: nat, passes: nat)
    returns (board: ScoreBoard, ghost sent: nat)
    requires size >= 1 && w.Fair()
    ensures board.Value() == RunPasses(w, depth, items, size, passes)
    ensures sent == Times(passes, |items|)
  {
    board := new ScoreBoard();
    sent := 0;
    for pass := 0 to passes
      invariant board.Value() == RunPasses(w, depth, items, size, pass)
      invariant sent == Times(pass, |items|)
      invariant fresh(board)
    {
      ghost var placed := ScorePass(w, depth, items, size, pass, board);
      sent := sent + placed;
    }
  }

  method SortBoard(board: ScoreBoard) returns (sorted: seq<Id>)
    requires board.Value().Valid()
    ensures sorted == SortBy(board.order, Averages(board.Value()))
  {
    var averages := board.AverageScores();
    AveragesUnique(board.Value(), averages);
    sorted := SortBy(board.order, averages);
  }

  method MultiPassRank(w: World, depth: nat, items: seq<Item>, size: nat, passes: nat, ratio: real)
    returns (ranked: seq<Id>, ghost sent: nat)
    requires size >= 1 && w.Fair()
    ensures ranked == Ranked(w, depth, items, size, passes, ratio)
    ensures sent == Placements(Levels(w, depth, items, size, passes, ratio))
    decreases KeySet(items)
  {
    if |items| <= 1 {
      return Keys(items), 0;
    }
    var board;
    board, sent := ScoreAllPasses(w, depth, items, size, passes);
    RunPassesKeys(w, depth, items, size, passes);
    var sorted := SortBoard(board);
    assert sorted == SortedIds(w, depth, items, size, passes);
    var m := RefineCount(|sorted|, ratio);
    if m == 0 {
      return sorted, sent;
    }
    RefinementShrinks(w, depth, items, size, passes, m);
    var refined;
    ghost var deeper: nat;
    refined, deeper := MultiPassRank(w, depth + 1, TopItems(items, sorted[..m]), size, DeeperPasses(passes), ratio);
    ranked := refined + sorted[m..];
    sent := sent + deeper;
  }

  // ------------------------------------------------- the work done

  /** One level of the recursion: how many items it ranks, how often. */
  datatype Level = Level(items: nat, passes: nat)

  ghost function Levels(w: World, depth: nat, items: seq<Item>, size: nat, passes: nat, ratio: real): seq<Level>
    requires size >= 1 && w.Fair()
    decreases KeySet(items)
  {
    if |items| <= 1 then []
    else
      var s := SortedIds(w, depth, items, size, passes);
      var m := RefineCount(|s|, ratio);
      if m == 0 then [Level(|items|, passes)]
      else
        RefinementShrinks(w, depth, items, size, passes, m);
        [Level(|items|, passes)]
        + Levels(w, depth + 1, TopItems(items, s[..m]), size, DeeperPasses(passes), ratio)
  }

  /** `k * n`, added up pass by pass. */
  ghost function Times(k: nat, n: nat): nat {
    if k == 0 then 0 else Times(k - 1, n) + n
  }

  /** The number of item placements that a run sends to the model. */
  ghost function Placements(levels: seq<Level>): nat {
    if levels == [] then 0 else Times(levels[0].passes, levels[0].items) + Placements(levels[1..])
  }
}
