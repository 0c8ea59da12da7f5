/** The score dictionary of the multi-pass ranker: lists of positional scores by id, in
    the order in which the ids were first scored (allama/ai/ranker.py). */
module ScoreBoards {
  import opened Prelude
  import opened Ids

  /** The value of the dictionary: `order` is Python's key order. */
  datatype Scores = Scores(order: seq<Id>, lists: map<Id, seq<real>>) {
    ghost predicate Valid() {
      && NoDuplicates(order)
      && lists.Keys == Elements(order)
      && forall id :: id in lists ==> lists[id] != []
    }

    function Append(id: Id, score: real): (r: Scores)
      ensures Valid() ==> r.Valid()
      ensures Valid() ==> Elements(r.order) == Elements(order) + {id}
    {
      if id in lists then Scores(order, lists[id := lists[id] + [score]])
      else Scores(order + [id], lists[id := [score]])
    }

    /** Every id of `ids` gets the same score. */
    function AppendAll(ids: seq<Id>, score: real): (r: Scores)
      ensures Valid() ==> r.Valid()
      ensures Valid() ==> Elements(r.order) == Elements(order) + Elements(ids)
      decreases |ids|
    {
      if ids == [] then this else Append(ids[0], score).AppendAll(ids[1..], score)
    }

    /** The ids get the positions counted from `position`. */
    function AppendPositions(ids: seq<Id>, position: nat): (r: Scores)
      ensures Valid() ==> r.Valid()
      ensures Valid() ==> Elements(r.order) == Elements(order) + Elements(ids)
      decreases |ids|
    {
      if ids == [] then this
      else Append(ids[0], position as real).AppendPositions(ids[1..], position + 1)
    }
  }

  const EMPTY := Scores([], map[])

  class ScoreBoard {
    var order: seq<Id>
    var lists: map<Id, seq<real>>

    function Value(): Scores
      reads this
    {
      Scores(order, lists)
    }

    constructor ()
      ensures Value() == EMPTY
    {
      order, lists := [], map[];
    }

    method Append(id: Id, score: real)
      modifies this
      ensures Value() == old(Value()).Append(id, score)
    {
      if id !in lists {
        order := order + [id];
        lists := lists[id := []];
      }
      lists := lists[id := lists[id] + [score]];
      assert [] + [score] == [score];
      assert Value().lists == old(Value()).Append(id, score).lists;
    }

    method AssignWorstScores(ids: seq<Id>, worst: real)
      modifies this
      ensures Value() == old(Value()).AppendAll(ids, worst)
    {
      for i := 0 to |ids|
        invariant Value().AppendAll(ids[i..], worst) == old(Value()).AppendAll(ids, worst)
      {
        Append(ids[i], worst);
        assert ids[i..][1..] == ids[i + 1..];
      }
    }

    method AssignPositions(ids: seq<Id>)
      modifies this
      ensures Value() == old(Value()).AppendPositions(ids, 0)
    {
      for i := 0 to |ids|
        invariant Value().AppendPositions(ids[i..], i) == old(Value()).AppendPositions(ids, 0)
      {
        Append(ids[i], i as real);
        assert ids[i..][1..] == ids[i + 1..];
      }
    }

    /** The mean of every list, by id. */
    method AverageScores() returns (averages: map<Id, real>)
      requires Value().Valid()
      ensures averages.Keys == lists.Keys
      ensures forall id :: id in lists ==> averages[id] * |lists[id]| as real == Sum(lists[id])
    {
      averages := map id | id in lists :: Mean(lists[id]);
    }
  }

  function Sum(xs: seq<real>): real {
    if xs == [] then 0.0 else xs[0] + Sum(xs[1..])
  }

  function Mean(xs: seq<real>): real {
    if xs == [] then 0.0 else Sum(xs) / |xs| as real
  }

  function Averages(t: Scores): (m: map<Id, real>)
    ensures m.Keys == t.lists.Keys
  {
    map id | id in t.lists :: Mean(t.lists[id])
  }

  /** No other map has these products. */
  lemma AveragesUnique(t: Scores, m: map<Id, real>)
    requires t.Valid() && m.Keys == t.lists.Keys
    requires forall id :: id in t.lists ==> m[id] * |t.lists[id]| as real == Sum(t.lists[id])
    ensures m == Averages(t)
  {
    forall id | id in m
      ensures m[id] == Averages(t)[id]
    {
      Quotient(m[id], |t.lists[id]|, Sum(t.lists[id]));
    }
  }

  lemma Quotient(x: real, n: nat, sum: real)
    requires n > 0 && x * n as real == sum
    ensures x == sum / n as real
  {
  }

  // ------------------------------------------------- Python's stable sort

  function Insert(x: Id, s: seq<Id>, key: map<Id, real>): (r: seq<Id>)
    requires x in key && forall y :: y in s ==> y in key
    ensures multiset(r) == multiset(s) + multiset{x}
  {
    if s == [] then [x]
    else if key[x] <= key[s[0]] then
      [x] + s
    else
      assert s == [s[0]] + s[1..];
      [s[0]] + Insert(x, s[1..], key)
  }

  function SortBy(s: seq<Id>, key: map<Id, real>): (r: seq<Id>)
    requires forall y :: y in s ==> y in key
    ensures multiset(r) == multiset(s)
  {
    if s == [] then []
    else
      assert s == [s[0]] + s[1..];
      var rest := SortBy(s[1..], key);
      assert forall y :: y in rest ==> y in multiset(rest);
      assert forall y :: y in multiset(s[1..]) ==> y in s[1..];
      Insert(s[0], rest, key)
  }

  ghost predicate SortedBy(s: seq<Id>, key: map<Id, real>) {
    && (forall y :: y in s ==> y in key)
    && forall i, j :: 0 <= i < j < |s| ==> key[s[i]] <= key[s[j]]
  }

  lemma InsertElements(x: Id, s: seq<Id>, key: map<Id, real>)
    requires x in key && forall y :: y in s ==> y in key
    ensures forall y :: y in Insert(x, s, key) <==> y == x || y in s
  {
    var r := Insert(x, s, key);
    forall y ensures y in r <==> y == x || y in s {
      assert y in r <==> y in multiset(r);
      assert y in s <==> y in multiset(s);
    }
  }

  lemma ConsSorted(x: Id, t: seq<Id>, key: map<Id, real>)
    requires x in key && SortedBy(t, key)
    requires forall y :: y in t ==> key[x] <= key[y]
    ensures SortedBy([x] + t, key)
  {
    assert forall j :: 0 <= j < |t| ==> t[j] in t;
  }

  lemma {:induction false} InsertSorted(x: Id, s: seq<Id>, key: map<Id, real>)
    requires x in key && SortedBy(s, key)
    ensures SortedBy(Insert(x, s, key), key)
  {
    if s == [] {
    } else if key[x] <= key[s[0]] {
      ConsSorted(x, s, key);
    } else {
      InsertSorted(x, s[1..], key);
      InsertElements(x, s[1..], key);
      ConsSorted(s[0], Insert(x, s[1..], key), key);
    }
  }

  lemma {:induction false} SortBySorted(s: seq<Id>, key: map<Id, real>)
    requires forall y :: y in s ==> y in key
    ensures SortedBy(SortBy(s, key), key)
    ensures Elements(SortBy(s, key)) == Elements(s)
    ensures NoDuplicates(s) ==> NoDuplicates(SortBy(s, key))
  {
    if s != [] {
      SortBySorted(s[1..], key);
      InsertSorted(s[0], SortBy(s[1..], key), key);
    }
    SameElements(SortBy(s, key), s);
  }

  lemma SameElements(a: seq<Id>, b: seq<Id>)
    requires multiset(a) == multiset(b)
    ensures Elements(a) == Elements(b)
    ensures NoDuplicates(b) ==> NoDuplicates(a)
  {
    assert forall x :: x in a <==> x in multiset(a);
    assert forall x :: x in b <==> x in multiset(b);
    if NoDuplicates(b) {
      MultiplicityOne(b);
      forall i, j | 0 <= i < j < |a|
        ensures a[i] != a[j]
      {
        var x := a[i];
        assert a == a[..j] + a[j..];
        assert x in a[..j];
        assert multiset(a)[x] == multiset(a[..j])[x] + multiset(a[j..])[x];
        assert multiset(b)[x] <= 1;
        assert x !in a[j..];
        assert a[j] in a[j..];
      }
    }
  }

  lemma {:induction false} MultiplicityOne(s: seq<Id>)
    requires NoDuplicates(s)
    ensures forall x :: multiset(s)[x] <= 1
  {
    if s != [] {
      MultiplicityOne(s[1..]);
      assert s == [s[0]] + s[1..];
      assert s[0] !in s[1..];
    }
  }

  function Tie(x: Id, key: map<Id, real>, v: real): seq<Id> {
    if x in key && key[x] == v then [x] else []
  }

  /** The ids of `s` whose key is `v`, in order. */
  function Ties(s: seq<Id>, key: map<Id, real>, v: real): seq<Id> {
    if s == [] then [] else Tie(s[0], key, v) + Ties(s[1..], key, v)
  }

  lemma TiesCons(x: Id, s: seq<Id>, key: map<Id, real>, v: real)
    ensures Ties([x] + s, key, v) == Tie(x, key, v) + Ties(s, key, v)
  {
    assert ([x] + s)[1..] == s;
  }

  lemma {:induction false} InsertStable(x: Id, s: seq<Id>, key: map<Id, real>, v: real)
    requires x in key && forall y :: y in s ==> y in key
    ensures Ties(Insert(x, s, key), key, v) == Tie(x, key, v) + Ties(s, key, v)
  {
    if s == [] || key[x] <= key[s[0]] {
      TiesCons(x, s, key, v);
      assert [x] + s == Insert(x, s, key);
    } else {
      InsertStable(x, s[1..], key, v);
      TiesCons(s[0], Insert(x, s[1..], key), key, v);
      TiesCommute(x, s[0], Ties(s[1..], key, v), key, v);
    }
  }

  /** Two ids with different keys are not both in the tie class of `v`. */
  lemma TiesCommute(x: Id, y: Id, rest: seq<Id>, key: map<Id, real>, v: real)
    requires x in key && y in key && key[x] != key[y]
    ensures Tie(y, key, v) + (Tie(x, key, v) + rest) == Tie(x, key, v) + (Tie(y, key, v) + rest)
  {
    assert [] + rest == rest;
    assert [] + ([x] + rest) == [x] + rest;
    assert [] + ([y] + rest) == [y] + rest;
  }

  /** Ids with equal keys keep their order. */
  lemma {:induction false} SortByStable(s: seq<Id>, key: map<Id, real>, v: real)
    requires forall y :: y in s ==> y in key
    ensures Ties(SortBy(s, key), key, v) == Ties(s, key, v)
  {
    if s != [] {
      SortByStable(s[1..], key, v);
      SortBySorted(s[1..], key);
      assert forall y :: y in SortBy(s[1..], key) ==> y in Elements(SortBy(s[1..], key));
      InsertStable(s[0], SortBy(s[1..], key), key, v);
    }
  }
}
