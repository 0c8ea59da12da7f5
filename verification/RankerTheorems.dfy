/** What the multi-pass ranker guarantees, whatever the model replies. */
module RankerTheorems {
  import opened Prelude
  import opened Ids
  import opened ScoreBoards
  import opened Ranker

  // ------------------------------------------------- the output is a permutation

  /** Every distinct id is ranked exactly once, however the model behaves; only a run
      with no pass at all can lose items. */
  lemma {:induction false} RankingIsPermutation(w: World, depth: nat, items: seq<Item>, size: nat, passes: nat,
                                                ratio: real)
    requires size >= 1 && w.Fair()
    ensures var r := Ranked(w, depth, items, size, passes, ratio);
            && NoDuplicates(r)
            && Elements(r) <= KeySet(items)
            && (Elements(r) == KeySet(items) <==> passes >= 1 || |items| <= 1)
    decreases KeySet(items)
  {
    if |items| <= 1 {
      KeySetOf(items);
    } else {
      var s := SortedIds(w, depth, items, size, passes);
      var m := RefineCount(|s|, ratio);
      assert items[0].key in KeySet(items);
      if m > 0 {
        RefinementShrinks(w, depth, items, size, passes, m);
        var top := TopItems(items, s[..m]);
        RankingIsPermutation(w, depth + 1, top, size, DeeperPasses(passes), ratio);
        var r := Ranked(w, depth + 1, top, size, DeeperPasses(passes), ratio);
        Recombine(s, m, r);
      }
    }
  }

  lemma Recombine(s: seq<Id>, m: nat, r: seq<Id>)
    requires m <= |s| && NoDuplicates(s) && NoDuplicates(r) && Elements(r) == Elements(s[..m])
    ensures NoDuplicates(r + s[m..]) && Elements(r + s[m..]) == Elements(s)
    ensures |r| == m
  {
    assert s == s[..m] + s[m..];
    assert Elements(s) == Elements(s[..m]) + Elements(s[m..]);
    assert Elements(r + s[m..]) == Elements(r) + Elements(s[m..]);
    forall i, j | 0 <= i < |r| && m <= j < |s|
      ensures r[i] != s[j]
    {
      assert r[i] in Elements(s[..m]);
    }
    ElementsSize(r);
    ElementsSize(s[..m]);
  }

  lemma {:induction false} ElementsSize(s: seq<Id>)
    requires NoDuplicates(s)
    ensures |Elements(s)| == |s|
  {
    if s != [] {
      ElementsSize(s[1..]);
      assert s == [s[0]] + s[1..];
      assert Elements(s) == {s[0]} + Elements(s[1..]);
      assert s[0] !in s[1..];
    }
  }

  /** The average scores of the first level. */
  ghost function AverageOf(w: World, depth: nat, items: seq<Item>, size: nat, passes: nat): map<Id, real>
    requires size >= 1
  {
    Averages(RunPasses(w, depth, items, size, passes))
  }

  lemma SortedIdsByAverage(w: World, depth: nat, items: seq<Item>, size: nat, passes: nat)
    requires size >= 1 && w.Fair()
    ensures SortedBy(SortedIds(w, depth, items, size, passes), AverageOf(w, depth, items, size, passes))
  {
    RunPassesKeys(w, depth, items, size, passes);
    var t := RunPasses(w, depth, items, size, passes);
    SortBySorted(t.order, Averages(t));
  }

  /** The order that a list `r` has when a permutation of the best `m` ids precedes the
      others in score order. */
  ghost predicate BottomInOrder(r: seq<Id>, m: nat, avg: map<Id, real>) {
    && (forall i :: 0 <= i < |r| ==> r[i] in avg)
    && forall i, j :: 0 <= i < j < |r| && m <= j ==> avg[r[i]] <= avg[r[j]]
  }

  lemma PermutedTop(s: seq<Id>, m: nat, r: seq<Id>, avg: map<Id, real>)
    requires SortedBy(s, avg) && m <= |s| && |r| == m && Elements(r) == Elements(s[..m])
    ensures BottomInOrder(r + s[m..], m, avg)
  {
    var x := r + s[m..];
    forall i | 0 <= i < |x|
      ensures exists k :: 0 <= k < |s| && (i < m ==> k < m) && (m <= i ==> k == i) && x[i] == s[k]
    {
      if i < m {
        assert r[i] in Elements(s[..m]);
      } else {
        assert x[i] == s[i];
      }
    }
  }

  /** A refined level hands its top ids, all of them and no others, to the next one. */
  lemma RefinedTop(w: World, depth: nat, items: seq<Item>, size: nat, passes: nat, ratio: real, m: nat)
    requires size >= 1 && w.Fair() && passes >= 1
    requires 0 < m < |SortedIds(w, depth, items, size, passes)|
    ensures var s := SortedIds(w, depth, items, size, passes);
            var r := Ranked(w, depth + 1, TopItems(items, s[..m]), size, DeeperPasses(passes), ratio);
            |r| == m && Elements(r) == Elements(s[..m])
  {
    var s := SortedIds(w, depth, items, size, passes);
    RefinementShrinks(w, depth, items, size, passes, m);
    var top := TopItems(items, s[..m]);
    RankingIsPermutation(w, depth + 1, top, size, DeeperPasses(passes), ratio);
    Recombine(s, m, Ranked(w, depth + 1, top, size, DeeperPasses(passes), ratio));
  }

  /** A ranking is a permutation of its best `m` ids followed by the others. */
  lemma RankedShape(w: World, depth: nat, items: seq<Item>, size: nat, passes: nat, ratio: real) returns (r: seq<Id>)
    requires size >= 1 && w.Fair() && passes >= 1 && |items| > 1
    ensures var s := SortedIds(w, depth, items, size, passes);
            var m := RefineCount(|s|, ratio);
            && |r| == m && Elements(r) == Elements(s[..m])
            && Ranked(w, depth, items, size, passes, ratio) == r + s[m..]
  {
    var s := SortedIds(w, depth, items, size, passes);
    var m := RefineCount(|s|, ratio);
    if m > 0 {
      RefinedTop(w, depth, items, size, passes, ratio, m);
      r := Ranked(w, depth + 1, TopItems(items, s[..m]), size, DeeperPasses(passes), ratio);
    } else {
      r := [];
      assert r + s[0..] == s;
    }
  }

  /** `m` of `n` ids are ranked again: the whole part of `n * ratio`, but at least one, and
      none where that is no fewer than all. */
  ghost predicate RankedAgain(n: nat, ratio: real, m: nat) {
    if n <= 1 || ratio <= 0.0 || n as real * ratio >= n as real then m == 0
    else if n as real * ratio < 1.0 then m == 1
    else m as real <= n as real * ratio < m as real + 1.0
  }

  lemma RefineCountIs(n: nat, ratio: real)
    ensures RankedAgain(n, ratio, RefineCount(n, ratio))
  {
  }

  /** A level with more than one item puts the ids in order of their averages, equal ones
      in the order in which they were first scored, and ranks the first `m` again by the
      same procedure, with the items that carry them in their order and half the passes,
      rounded down but at least one; the others stay behind them. */
  lemma LevelOfRanking(w: World, depth: nat, items: seq<Item>, size: nat, passes: nat, ratio: real)
    returns (s: seq<Id>, m: nat, top: seq<Item>, deeper: nat)
    requires size >= 1 && w.Fair() && |items| > 1
    ensures var t := RunPasses(w, depth, items, size, passes);
            && SortedBy(s, Averages(t)) && multiset(s) == multiset(t.order)
            && forall v :: Ties(s, Averages(t), v) == Ties(t.order, Averages(t), v)
    ensures m <= |s| && RankedAgain(|s|, ratio, m)
    ensures IsSelection(items, Elements(s[..m]), top)
    ensures if passes < 2 then deeper == 1 else 2 * deeper <= passes < 2 * deeper + 2
    ensures Ranked(w, depth, items, size, passes, ratio)
            == if m == 0 then s else Ranked(w, depth + 1, top, size, deeper, ratio) + s[m..]
  {
    var t := RunPasses(w, depth, items, size, passes);
    s := SortedIds(w, depth, items, size, passes);
    RunPassesKeys(w, depth, items, size, passes);
    SortedIdsByAverage(w, depth, items, size, passes);
    forall v
      ensures Ties(s, Averages(t), v) == Ties(t.order, Averages(t), v)
    {
      SortByStable(t.order, Averages(t), v);
    }
    m := RefineCount(|s|, ratio);
    RefineCountIs(|s|, ratio);
    top, deeper := TopItems(items, s[..m]), DeeperPasses(passes);
    TopItemsSelect(items, s[..m]);
    if m > 0 {
      RefinementShrinks(w, depth, items, size, passes, m);
    }
  }

  /** `r` holds the items with one of these ids, in order. */
  ghost predicate IsSelection(items: seq<Item>, ids: set<Id>, r: seq<Item>)
    decreases |items|
  {
    if items == [] then r == []
    else if items[0].key in ids then r != [] && r[0] == items[0] && IsSelection(items[1..], ids, r[1..])
    else IsSelection(items[1..], ids, r)
  }

  lemma {:induction false} TopItemsSelect(items: seq<Item>, top: seq<Id>)
    ensures IsSelection(items, Elements(top), TopItems(items, top))
  {
    if items != [] {
      TopItemsSelect(items[1..], top);
      if items[0].key in top {
        assert TopItems(items, top)[1..] == TopItems(items[1..], top);
      } else {
        assert [] + TopItems(items[1..], top) == TopItems(items[1..], top);
      }
    }
  }

  /** Refinement only permutes the top portion: the top `m` places go to ids whose
      average is at least as good as every other, and the rest stay in score order. */
  lemma RefinementKeepsBottom(w: World, depth: nat, items: seq<Item>, size: nat, passes: nat, ratio: real)
    returns (m: nat)
    requires size >= 1 && w.Fair() && passes >= 1 && |items| > 1
    ensures |Ranked(w, depth, items, size, passes, ratio)| == |KeySet(items)|
    ensures RankedAgain(|KeySet(items)|, ratio, m)
    ensures BottomInOrder(Ranked(w, depth, items, size, passes, ratio), m, AverageOf(w, depth, items, size, passes))
  {
    var r := RankedShape(w, depth, items, size, passes, ratio);
    var s := SortedIds(w, depth, items, size, passes);
    ElementsSize(s);
    m := RefineCount(|s|, ratio);
    RefineCountIs(|s|, ratio);
    SortedIdsByAverage(w, depth, items, size, passes);
    PermutedTop(s, |r|, r, AverageOf(w, depth, items, size, passes));
  }

  // ------------------------------------------------- the work is bounded

  ghost predicate DistinctKeys(items: seq<Item>) {
    NoDuplicates(Keys(items))
  }

  lemma {:induction false} TopItemsDistinct(items: seq<Item>, top: seq<Id>)
    requires DistinctKeys(items)
    ensures DistinctKeys(TopItems(items, top))
  {
    if items != [] {
      assert Keys(items)[1..] == Keys(items[1..]);
      TopItemsDistinct(items[1..], top);
      var r := TopItems(items[1..], top);
      forall i | 0 <= i < |r|
        ensures r[i].key != items[0].key
      {
        assert r[i] in r;
        var k :| 0 <= k < |items[1..]| && items[1..][k] == r[i];
        assert Keys(items)[k + 1] == r[i].key && Keys(items)[0] == items[0].key;
      }
    }
  }

  lemma DistinctCount(items: seq<Item>)
    requires DistinctKeys(items)
    ensures |KeySet(items)| == |items|
  {
    KeySetOf(items);
    ElementsSize(Keys(items));
  }

  /** With distinct keys the next level holds exactly the refined ids. */
  lemma NextLevelSize(w: World, depth: nat, items: seq<Item>, size: nat, passes: nat, m: nat)
    requires size >= 1 && w.Fair() && passes >= 1 && DistinctKeys(items)
    requires 0 < m < |SortedIds(w, depth, items, size, passes)|
    ensures |SortedIds(w, depth, items, size, passes)| == |items|
    ensures var top := TopItems(items, SortedIds(w, depth, items, size, passes)[..m]);
            DistinctKeys(top) && |top| == m
  {
    var s := SortedIds(w, depth, items, size, passes);
    var top := TopItems(items, s[..m]);
    ElementsSize(s);
    DistinctCount(items);
    TopItemsDistinct(items, s[..m]);
    DistinctCount(top);
    RefinementShrinks(w, depth, items, size, passes, m);
    ElementsSize(s[..m]);
  }

  /** A rule for how many of `n` ids are refined. */
  ghost predicate Shrinking(refine: nat -> nat) {
    forall n: nat {:trigger refine(n)} :: refine(n) == 0 || refine(n) < n
  }

  /** The levels of a run on `n` distinct ids depend on nothing but the numbers. */
  ghost function LevelPlan(refine: nat -> nat, n: nat, passes: nat): seq<Level>
    requires Shrinking(refine)
  {
    if n <= 1 then []
    else [Level(n, passes)]
         + if refine(n) == 0 then [] else LevelPlan(refine, refine(n), DeeperPasses(passes))
  }

  lemma SortedCount(w: World, depth: nat, items: seq<Item>, size: nat, passes: nat)
    requires size >= 1 && w.Fair() && passes >= 1 && DistinctKeys(items)
    ensures |SortedIds(w, depth, items, size, passes)| == |items|
  {
    ElementsSize(SortedIds(w, depth, items, size, passes));
    DistinctCount(items);
  }

  lemma {:induction false} LevelsFollowPlan(w: World, depth: nat, items: seq<Item>, size: nat, passes: nat,
                                            ratio: real, refine: nat -> nat)
    requires size >= 1 && w.Fair() && passes >= 1 && DistinctKeys(items)
    requires Shrinking(refine) && forall n: nat :: refine(n) == RefineCount(n, ratio)
    ensures Levels(w, depth, items, size, passes, ratio) == LevelPlan(refine, |items|, passes)
    decreases KeySet(items)
  {
    if |items| > 1 {
      SortedCount(w, depth, items, size, passes);
      var m := refine(|items|);
      if m > 0 {
        var top := TopItems(items, SortedIds(w, depth, items, size, passes)[..m]);
        NextLevelSize(w, depth, items, size, passes, m);
        RefinementShrinks(w, depth, items, size, passes, m);
        LevelsFollowPlan(w, depth + 1, top, size, DeeperPasses(passes), ratio, refine);
        assert Levels(w, depth, items, size, passes, ratio)
            == [Level(|items|, passes)] + Levels(w, depth + 1, top, size, DeeperPasses(passes), ratio);
      }
    }
  }

  /** A bound that pays for a level and for everything below it bounds the whole plan. */
  lemma {:induction false} PlanBound(refine: nat -> nat, bound: (nat, nat) -> real, n: nat, passes: nat)
    requires Shrinking(refine) && passes >= 1
    requires forall p: nat, k: nat {:trigger bound(p, k)} :: 0.0 <= bound(p, k)
    requires forall p: nat, k: nat {:trigger Times(p, k)} :: p >= 1 && k > 1 ==>
               Times(p, k) as real + (if refine(k) <= 1 then 0.0 else bound(DeeperPasses(p), refine(k))) <= bound(p, k)
    ensures Placements(LevelPlan(refine, n, passes)) as real <= bound(passes, n)
  {
    if n > 1 {
      var m := refine(n);
      var plan := LevelPlan(refine, n, passes);
      if m > 0 {
        PlanBound(refine, bound, m, DeeperPasses(passes));
        assert plan[1..] == LevelPlan(refine, m, DeeperPasses(passes));
      } else {
        assert plan[1..] == [];
      }
    }
  }

  lemma {:induction false} TimesIs(k: nat, n: nat)
    ensures Times(k, n) as real == k as real * n as real
  {
    if k > 0 {
      TimesIs(k - 1, n);
      assert k as real == (k - 1) as real + 1.0;
    }
  }

  lemma MulMonotone(a: real, b: real, c: real)
    requires a <= b && c >= 0.0
    ensures a * c <= b * c
  {
  }

  /** The geometric step: `p n + d m / c <= p n / c` when `d <= p`, `m <= n (1 - c)`. */
  lemma GeometricStep(p: real, n: real, d: real, m: real, c: real)
    requires 0.0 <= d <= p && 0.0 <= m <= n * (1.0 - c) && 0.0 <= n && 0.0 < c < 1.0
    ensures p * n + d * m / c <= p * n / c
  {
    MulMonotone(d, p, m);
    MulMonotone(m, n * (1.0 - c), p);
    var q := p * n / c;
    assert q * c == p * n;
    assert p * (n * (1.0 - c)) == p * n - q * c * c;
    assert d * m <= (q - p * n) * c by {
      assert (q - p * n) * c == p * n - p * n * c;
    }
    DivideBound(d * m, q - p * n, c);
  }

  lemma DivideBound(x: real, y: real, c: real)
    requires c > 0.0 && x <= y * c
    ensures x / c <= y
  {
  }

  lemma DivideGrows(x: real, c: real)
    requires x >= 0.0 && 0.0 < c <= 1.0
    ensures 0.0 <= x <= x / c
  {
    MulMonotone(c, 1.0, x);
    var q := x / c;
    assert q * c == x;
  }

  lemma RefineCountBounds(n: nat, ratio: real)
    requires n > 1
    ensures RefineCount(n, ratio) <= 1 || RefineCount(n, ratio) as real <= n as real * ratio
  {
  }

  lemma RefineHalf(n: nat, ratio: real)
    requires n > 1 && ratio <= 0.5
    ensures 2 * RefineCount(n, ratio) <= n
  {
    RefineCountBounds(n, ratio);
    MulMonotone(ratio, 0.5, n as real);
    var m := RefineCount(n, ratio);
    assert m <= 1 || (2 * m) as real <= n as real;
  }

  function Budget(p: nat, n: nat, c: real): real
    requires c > 0.0
  {
    p as real * n as real / c
  }

  lemma BudgetNatural(p: nat, n: nat, c: real)
    requires 0.0 < c <= 1.0
    ensures 0.0 <= p as real * n as real <= Budget(p, n, c)
  {
    MulMonotone(0.0, p as real, n as real);
    assert 0.0 * n as real == 0.0;
    assert 0.0 <= p as real * n as real;
    DivideGrows(p as real * n as real, c);
  }

  lemma BudgetStep(p: nat, n: nat, d: nat, m: nat, c: real)
    requires d <= p && 0.0 < c < 1.0 && m as real <= n as real * (1.0 - c)
    ensures p as real * n as real + Budget(d, m, c) <= Budget(p, n, c)
  {
    GeometricStep(p as real, n as real, d as real, m as real, c);
  }

  /** The budget of a level covers the level and the budget of the next one. */
  lemma BudgetPays(p: nat, n: nat, d: nat, m: nat, c: real)
    requires d <= p && 0.0 < c < 1.0
    requires m <= 1 || m as real <= n as real * (1.0 - c)
    ensures Times(p, n) as real + (if m <= 1 then 0.0 else Budget(d, m, c)) <= Budget(p, n, c)
  {
    TimesIs(p, n);
    if m <= 1 {
      BudgetNatural(p, n, c);
    } else {
      BudgetStep(p, n, d, m, c);
    }
  }

  lemma RefinementWithinBudget(p: nat, n: nat, ratio: real)
    requires p >= 1 && n > 1 && 0.0 < ratio < 1.0
    ensures Times(p, n) as real
            + (if RefineCount(n, ratio) <= 1 then 0.0 else Budget(DeeperPasses(p), RefineCount(n, ratio), 1.0 - ratio))
            <= Budget(p, n, 1.0 - ratio)
  {
    RefineCountBounds(n, ratio);
    assert 1.0 - (1.0 - ratio) == ratio;
    BudgetPays(p, n, DeeperPasses(p), RefineCount(n, ratio), 1.0 - ratio);
  }

  lemma PlacementsBound(w: World, depth: nat, items: seq<Item>, size: nat, passes: nat, ratio: real,
                        bound: (nat, nat) -> real)
    requires size >= 1 && w.Fair() && passes >= 1 && DistinctKeys(items)
    requires forall p: nat, k: nat {:trigger bound(p, k)} :: 0.0 <= bound(p, k)
    requires forall p: nat, k: nat {:trigger Times(p, k)} :: p >= 1 && k > 1 ==>
               Times(p, k) as real
               + (if RefineCount(k, ratio) <= 1 then 0.0 else bound(DeeperPasses(p), RefineCount(k, ratio)))
               <= bound(p, k)
    ensures Placements(Levels(w, depth, items, size, passes, ratio)) as real <= bound(passes, |items|)
  {
    var refine := (n: nat) => RefineCount(n, ratio);
    LevelsFollowPlan(w, depth, items, size, passes, ratio, refine);
    PlanBound(refine, bound, |items|, passes);
  }

  /** For a ratio below 1 the placements over all levels stay within
      `passes * n / (1 - ratio)`, in spite of the floors on both size and passes. */
  lemma WorkBound(w: World, depth: nat, items: seq<Item>, size: nat, passes: nat, ratio: real)
    requires size >= 1 && w.Fair() && passes >= 1 && DistinctKeys(items) && 0.0 < ratio < 1.0
    ensures Placements(Levels(w, depth, items, size, passes, ratio)) as real
            <= Budget(passes, |items|, 1.0 - ratio)
  {
    var bound := (p: nat, n: nat) => Budget(p, n, 1.0 - ratio);
    forall p: nat, n: nat
      ensures 0.0 <= bound(p, n)
    {
      BudgetNatural(p, n, 1.0 - ratio);
    }
    forall p: nat, n: nat | p >= 1 && n > 1
      ensures Times(p, n) as real
              + (if RefineCount(n, ratio) <= 1 then 0.0 else bound(DeeperPasses(p), RefineCount(n, ratio)))
              <= bound(p, n)
    {
      RefinementWithinBudget(p, n, ratio);
    }
    PlacementsBound(w, depth, items, size, passes, ratio, bound);
  }

  function Pow2(k: nat): nat {
    if k == 0 then 1 else 2 * Pow2(k - 1)
  }

  ghost predicate Shallow(levels: nat, items: seq<Item>) {
    && Pow2(levels) <= 2 * |KeySet(items)|
    && (DistinctKeys(items) ==> Pow2(levels) <= |items|)
  }

  lemma ShallowStep(levels: nat, items: seq<Item>, top: seq<Item>)
    requires Shallow(levels, top) && 2 * |KeySet(top)| <= |KeySet(items)|
    requires DistinctKeys(items) ==> DistinctKeys(top)
    ensures Shallow(1 + levels, items)
  {
    if DistinctKeys(items) {
      DistinctCount(items);
      DistinctCount(top);
    }
  }

  lemma ShallowEnd(levels: nat, items: seq<Item>)
    requires items != [] && levels <= 1 && (levels == 1 ==> |items| > 1)
    ensures Shallow(levels, items)
  {
    assert items[0].key in KeySet(items);
    assert Pow2(1) == 2;
  }

  /** A refinement at a ratio up to one half leaves half of the ids or fewer. */
  lemma HalfRefined(w: World, depth: nat, items: seq<Item>, size: nat, passes: nat, ratio: real)
    requires size >= 1 && w.Fair() && passes >= 1 && ratio <= 0.5
    requires RefineCount(|SortedIds(w, depth, items, size, passes)|, ratio) > 0
    ensures var s := SortedIds(w, depth, items, size, passes);
            var top := TopItems(items, s[..RefineCount(|s|, ratio)]);
            && top != [] && KeySet(top) < KeySet(items) && 2 * |KeySet(top)| <= |KeySet(items)|
            && (DistinctKeys(items) ==> DistinctKeys(top))
  {
    var s := SortedIds(w, depth, items, size, passes);
    var m := RefineCount(|s|, ratio);
    RefinementShrinks(w, depth, items, size, passes, m);
    ElementsSize(s);
    ElementsSize(s[..m]);
    RefineHalf(|s|, ratio);
    assert s[0] in Elements(s[..m]) by {
      assert s[..m][0] == s[0];
    }
    if DistinctKeys(items) {
      TopItemsDistinct(items, s[..m]);
    }
  }

  lemma LevelsStep(w: World, depth: nat, items: seq<Item>, size: nat, passes: nat, ratio: real)
    requires size >= 1 && w.Fair() && |items| > 1
    ensures var s := SortedIds(w, depth, items, size, passes);
            var m := RefineCount(|s|, ratio);
            |Levels(w, depth, items, size, passes, ratio)| == 1 +
              if m == 0 then 0
              else |Levels(w, depth + 1, TopItems(items, s[..m]), size, DeeperPasses(passes), ratio)|
  {
    var m := RefineCount(|SortedIds(w, depth, items, size, passes)|, ratio);
    if m > 0 {
      RefinementShrinks(w, depth, items, size, passes, m);
    }
  }

  /** Ratios up to one half give at most `1 + log2 n` levels for `n` different ids, and at
      most `log2 n` where no two items share one. */
  lemma {:induction false} DepthBound(w: World, depth: nat, items: seq<Item>, size: nat, passes: nat, ratio: real)
    requires size >= 1 && w.Fair() && passes >= 1 && items != [] && ratio <= 0.5
    ensures Shallow(|Levels(w, depth, items, size, passes, ratio)|, items)
    decreases KeySet(items)
  {
    if |items| <= 1 {
      ShallowEnd(0, items);
    } else {
      LevelsStep(w, depth, items, size, passes, ratio);
      var s := SortedIds(w, depth, items, size, passes);
      var m := RefineCount(|s|, ratio);
      if m == 0 {
        ShallowEnd(1, items);
      } else {
        var top := TopItems(items, s[..m]);
        HalfRefined(w, depth, items, size, passes, ratio);
        DepthBound(w, depth + 1, top, size, DeeperPasses(passes), ratio);
        ShallowStep(|Levels(w, depth + 1, top, size, DeeperPasses(passes), ratio)|, items, top);
      }
    }
  }
}
