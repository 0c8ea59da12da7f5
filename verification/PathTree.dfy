/** Nested objects and their leaves: the value side of allama/parse.py. */
module PathTree {
  import opened Prelude

  /** A JSON value; `Scalar` stands for anything that is neither a list nor an object. */
  datatype Json =
    | Scalar(text: string)
    | List(items: seq<Json>)
    | Dict(fields: map<string, Json>)

  type Path = seq<string>

  /** The scalar at the end of a path of keys. */
  ghost function LeafAt(j: Json, p: Path): Option<Json>
    decreases |p|
  {
    if p == [] then if j.Scalar? then Some(j) else None
    else if j.Dict? && p[0] in j.fields then LeafAt(j.fields[p[0]], p[1..])
    else None
  }

  /** A tree of dot-free keys, nonempty inner objects and scalar leaves. */
  ghost predicate Plain(j: Json) {
    match j
    case Scalar(_) => true
    case List(_) => false
    case Dict(fields) => fields != map[] && forall k :: k in fields ==> '.' !in k && Plain(fields[k])
  }

  ghost predicate PlainFields(fields: map<string, Json>) {
    forall k :: k in fields ==> '.' !in k && Plain(fields[k])
  }

  /** Assigning `value` at `path`; None where the source runs into a value that is not
      an object on the way. */
  function InsertAt(fields: map<string, Json>, path: Path, value: Json): Option<map<string, Json>>
    requires path != []
    decreases |path|
  {
    if |path| == 1 then Some(fields[path[0] := value])
    else
      var sub := if path[0] in fields then fields[path[0]] else Dict(map[]);
      if !sub.Dict? then None
      else match InsertAt(sub.fields, path[1..], value)
           case None => None
           case Some(inner) => Some(fields[path[0] := Dict(inner)])
  }

  // ------------------------------------------------- leaves

  lemma {:induction false} PlainHasLeaf(j: Json) returns (p: Path)
    requires Plain(j)
    ensures LeafAt(j, p).Some?
    decreases j
  {
    if j.Scalar? {
      p := [];
    } else {
      var k :| k in j.fields;
      var q := PlainHasLeaf(j.fields[k]);
      p := [k] + q;
      assert p[1..] == q;
    }
  }

  /** No leaf lies below another. */
  lemma {:induction false} LeavesAntichain(j: Json, p: Path, q: Path)
    requires LeafAt(j, p).Some? && LeafAt(j, q).Some? && p <= q
    ensures p == q
    decreases |p|
  {
    if p == [] {
      assert j.Scalar?;
    } else {
      LeavesAntichain(j.fields[p[0]], p[1..], q[1..]);
    }
  }

  ghost predicate SameLeaves(a: Json, b: Json) {
    forall p :: LeafAt(a, p) == LeafAt(b, p)
  }

  lemma SameLeavesBelow(a: map<string, Json>, b: map<string, Json>, k: string)
    requires SameLeaves(Dict(a), Dict(b)) && k in a && k in b
    ensures SameLeaves(a[k], b[k])
  {
    forall p
      ensures LeafAt(a[k], p) == LeafAt(b[k], p)
    {
      var q := [k] + p;
      assert q[1..] == p;
      assert LeafAt(Dict(a), q) == LeafAt(Dict(b), q);
    }
  }

  lemma SameLeavesSameKeys(a: map<string, Json>, b: map<string, Json>, k: string)
    requires SameLeaves(Dict(a), Dict(b)) && PlainFields(a) && k in a
    ensures k in b
  {
    var q := PlainHasLeaf(a[k]);
    assert ([k] + q)[1..] == q;
    assert LeafAt(Dict(a), [k] + q) == LeafAt(Dict(b), [k] + q);
  }

  /** A plain object is determined by its leaves. */
  lemma {:induction false} LeavesDetermine(x: Json, y: Json)
    requires x.Dict? && y.Dict? && PlainFields(x.fields) && PlainFields(y.fields) && SameLeaves(x, y)
    ensures x == y
    decreases x
  {
    var a, b := x.fields, y.fields;
    forall k
      ensures k in a <==> k in b
    {
      if k in a { SameLeavesSameKeys(a, b, k); }
      if k in b { SameLeavesSameKeys(b, a, k); }
    }
    forall k | k in a
      ensures a[k] == b[k]
    {
      SameLeavesBelow(a, b, k);
      assert LeafAt(a[k], []) == LeafAt(b[k], []);
      assert Plain(a[k]) && Plain(b[k]);
      if a[k].Dict? {
        LeavesDetermine(a[k], b[k]);
      }
    }
    assert a == b;
  }

  // ------------------------------------------------- insertion

  /** The path meets only objects on its way and no object at its end. */
  ghost predicate Fits(fields: map<string, Json>, path: Path)
    requires path != []
    decreases |path|
  {
    path[0] in fields ==>
      if |path| == 1 then !fields[path[0]].Dict?
      else fields[path[0]].Dict? && Fits(fields[path[0]].fields, path[1..])
  }

  ghost predicate DotFree(path: Path) {
    forall i :: 0 <= i < |path| ==> '.' !in path[i]
  }

  /** Insertion keeps an object plain and adds no leaf but its own, even where it
      overwrites. */
  lemma {:induction false} InsertKeepsPlain(fields: map<string, Json>, path: Path, value: Json)
    requires path != [] && value.Scalar? && PlainFields(fields) && DotFree(path)
    requires InsertAt(fields, path, value).Some?
    ensures var g := InsertAt(fields, path, value).value;
            && PlainFields(g) && path[0] in g
            && forall q :: LeafAt(Dict(g), q).Some? && q != path ==> LeafAt(Dict(g), q) == LeafAt(Dict(fields), q)
    decreases |path|
  {
    var g := InsertAt(fields, path, value).value;
    if |path| > 1 {
      var sub := if path[0] in fields then fields[path[0]] else Dict(map[]);
      assert path[0] in fields ==> Plain(sub);
      InsertKeepsPlain(sub.fields, path[1..], value);
      forall q | LeafAt(Dict(g), q).Some? && q != path
        ensures LeafAt(Dict(g), q) == LeafAt(Dict(fields), q)
      {
        if q != [] && q[0] == path[0] {
          assert path == [path[0]] + path[1..] && q == [q[0]] + q[1..];
          assert LeafAt(Dict(g), q) == LeafAt(g[path[0]], q[1..]);
          assert LeafAt(sub, q[1..]).Some?;
        }
      }
    } else {
      assert path == [path[0]];
      forall q | LeafAt(Dict(g), q).Some? && q != path
        ensures LeafAt(Dict(g), q) == LeafAt(Dict(fields), q)
      {
        assert q == [q[0]] + q[1..];
      }
    }
  }

  /** A fitting insertion succeeds and changes exactly the leaf at its path. */
  lemma {:induction false} InsertSetsLeaf(fields: map<string, Json>, path: Path, value: Json)
    requires path != [] && value.Scalar? && Fits(fields, path)
    ensures InsertAt(fields, path, value).Some?
    ensures var g := InsertAt(fields, path, value).value;
            forall q :: LeafAt(Dict(g), q) == if q == path then Some(value) else LeafAt(Dict(fields), q)
    decreases |path|
  {
    if |path| > 1 {
      var sub := if path[0] in fields then fields[path[0]] else Dict(map[]);
      InsertSetsLeaf(sub.fields, path[1..], value);
    }
    var g := InsertAt(fields, path, value).value;
    forall q
      ensures LeafAt(Dict(g), q) == if q == path then Some(value) else LeafAt(Dict(fields), q)
    {
      if q != [] && q[0] == path[0] {
        assert path == [path[0]] + path[1..] && q == [q[0]] + q[1..];
        assert LeafAt(Dict(g), q) == LeafAt(g[path[0]], q[1..]);
        if |path| == 1 {
          assert path[1..] == [];
          assert LeafAt(Dict(fields), q) == if q[0] in fields then LeafAt(fields[q[0]], q[1..]) else None;
          assert q[1..] != [] ==> LeafAt(Dict(fields), q) == None;
        }
      }
    }
  }

  lemma KeyHasLeaf(fields: map<string, Json>, k: string)
    requires PlainFields(fields) && k in fields
    ensures exists q :: LeafAt(Dict(fields), q).Some? && [k] <= q
  {
    var p := PlainHasLeaf(fields[k]);
    var q := [k] + p;
    assert q[1..] == p;
    assert LeafAt(Dict(fields), q).Some? && [k] <= q;
  }

  /** In a plain object a path fits unless it is comparable to another leaf's path. */
  lemma {:induction false} IncomparableFits(fields: map<string, Json>, path: Path)
    requires path != [] && PlainFields(fields)
    requires forall q :: LeafAt(Dict(fields), q).Some? ==> !(q <= path) && !(path <= q)
    ensures Fits(fields, path)
    decreases |path|
  {
    if path[0] in fields {
      var sub := fields[path[0]];
      assert Plain(sub);
      if |path| == 1 {
        assert path == [path[0]];
        KeyHasLeaf(fields, path[0]);
      } else {
        assert sub.Scalar? ==> LeafAt(Dict(fields), [path[0]]).Some? by {
          assert [path[0]][1..] == [];
        }
        assert [path[0]] <= path;
        forall q | LeafAt(Dict(sub.fields), q).Some?
          ensures !(q <= path[1..]) && !(path[1..] <= q)
        {
          var r := [path[0]] + q;
          assert r[1..] == q;
          assert LeafAt(Dict(fields), r).Some?;
          assert path == [path[0]] + path[1..];
        }
        IncomparableFits(sub.fields, path[1..]);
      }
    }
  }

  // ------------------------------------------------- insertions of any values

  /** Neither path leads through the other. */
  ghost predicate Apart(p: Path, q: Path) {
    !(p <= q) && !(q <= p)
  }

  lemma TailsApart(p: Path, q: Path)
    requires p != [] && q != [] && p[0] == q[0] && Apart(p, q)
    ensures |p| > 1 && |q| > 1 && Apart(p[1..], q[1..])
  {
    assert p == [p[0]] + p[1..] && q == [q[0]] + q[1..];
  }

  /** What an insertion puts under the first key of its path. */
  function Inserted(child: Option<Json>, rest: Path, value: Json): Option<Json> {
    if rest == [] then Some(value)
    else
      var sub := if child.Some? then child.value else Dict(map[]);
      if !sub.Dict? then None
      else match InsertAt(sub.fields, rest, value)
           case None => None
           case Some(inner) => Some(Dict(inner))
  }

  function Get(fields: map<string, Json>, k: string): Option<Json> {
    if k in fields then Some(fields[k]) else None
  }

  lemma InsertByKey(fields: map<string, Json>, path: Path, value: Json)
    requires path != []
    ensures InsertAt(fields, path, value)
         == match Inserted(Get(fields, path[0]), path[1..], value)
            case None => None
            case Some(child) => Some(fields[path[0] := child])
  {
  }

  function InsertBoth(fields: map<string, Json>, p: Path, v: Json, q: Path, w: Json): Option<map<string, Json>>
    requires p != [] && q != []
  {
    match InsertAt(fields, p, v)
    case None => None
    case Some(next) => InsertAt(next, q, w)
  }

  lemma DifferentKeysCommute(fields: map<string, Json>, p: Path, v: Json, q: Path, w: Json)
    requires p != [] && q != [] && p[0] != q[0]
    ensures InsertBoth(fields, p, v, q, w) == InsertBoth(fields, q, w, p, v)
  {
    InsertByKey(fields, p, v);
    InsertByKey(fields, q, w);
    var a, b := Inserted(Get(fields, p[0]), p[1..], v), Inserted(Get(fields, q[0]), q[1..], w);
    if a.Some? {
      InsertByKey(fields[p[0] := a.value], q, w);
    }
    if b.Some? {
      InsertByKey(fields[q[0] := b.value], p, v);
    }
    if a.Some? && b.Some? {
      assert fields[p[0] := a.value][q[0] := b.value] == fields[q[0] := b.value][p[0] := a.value];
    }
  }

  /** Under one common key both insertions go into the same object. */
  lemma CommonKey(fields: map<string, Json>, p: Path, v: Json, q: Path, w: Json)
    requires |p| > 1 && |q| > 1 && p[0] == q[0]
    ensures var sub := if p[0] in fields then fields[p[0]] else Dict(map[]);
            InsertBoth(fields, p, v, q, w)
            == if !sub.Dict? then None
               else match InsertBoth(sub.fields, p[1..], v, q[1..], w)
                    case None => None
                    case Some(inner) => Some(fields[p[0] := Dict(inner)])
  {
    var sub := if p[0] in fields then fields[p[0]] else Dict(map[]);
    if sub.Dict? && InsertAt(sub.fields, p[1..], v).Some? {
      var inner := InsertAt(sub.fields, p[1..], v).value;
      var next := fields[p[0] := Dict(inner)];
      if InsertAt(inner, q[1..], w).Some? {
        var both := InsertAt(inner, q[1..], w).value;
        assert next[p[0] := Dict(both)] == fields[p[0] := Dict(both)];
      }
    }
  }

  /** Insertions of any values at paths apart from one another commute, failures
      included. */
  lemma {:induction false} InsertionsCommute(fields: map<string, Json>, p: Path, v: Json, q: Path, w: Json)
    requires p != [] && q != [] && Apart(p, q)
    ensures InsertBoth(fields, p, v, q, w) == InsertBoth(fields, q, w, p, v)
    decreases |p|
  {
    if p[0] != q[0] {
      DifferentKeysCommute(fields, p, v, q, w);
    } else {
      TailsApart(p, q);
      CommonKey(fields, p, v, q, w);
      CommonKey(fields, q, w, p, v);
      var sub := if p[0] in fields then fields[p[0]] else Dict(map[]);
      if sub.Dict? {
        InsertionsCommute(sub.fields, p[1..], v, q[1..], w);
      }
    }
  }

  /** What stands at the end of a path of keys, whatever it is. */
  function ValueAt(j: Json, p: Path): Option<Json>
    decreases |p|
  {
    if p == [] then Some(j)
    else if j.Dict? && p[0] in j.fields then ValueAt(j.fields[p[0]], p[1..])
    else None
  }

  /** An insertion puts its value at its path and leaves whatever stands apart from it,
      open ways included. */
  lemma {:induction false} InsertLeavesApart(fields: map<string, Json>, p: Path, v: Json, q: Path, w: Json)
    requires p != [] && q != [] && Apart(p, q) && InsertAt(fields, p, v).Some?
    ensures var next := InsertAt(fields, p, v).value;
            && ValueAt(Dict(next), q) == ValueAt(Dict(fields), q)
            && (InsertAt(fields, q, w).Some? ==> InsertAt(next, q, w).Some?)
    decreases |p|
  {
    InsertByKey(fields, p, v);
    InsertByKey(fields, q, w);
    InsertByKey(InsertAt(fields, p, v).value, q, w);
    if p[0] == q[0] {
      TailsApart(p, q);
      var sub := if p[0] in fields then fields[p[0]] else Dict(map[]);
      InsertLeavesApart(sub.fields, p[1..], v, q[1..], w);
      EmptyHasNoValue(q[1..]);
    }
  }

  lemma EmptyHasNoValue(p: Path)
    requires p != []
    ensures ValueAt(Dict(map[]), p).None?
  {
  }

  lemma {:induction false} InsertPutsValue(fields: map<string, Json>, p: Path, v: Json)
    requires p != [] && InsertAt(fields, p, v).Some?
    ensures ValueAt(Dict(InsertAt(fields, p, v).value), p) == Some(v)
    decreases |p|
  {
    if |p| > 1 {
      var sub := if p[0] in fields then fields[p[0]] else Dict(map[]);
      InsertPutsValue(sub.fields, p[1..], v);
    } else {
      assert p[1..] == [];
    }
  }

  /** After `k` keys of the path stands a value that is no object. */
  ghost predicate Blocked(fields: map<string, Json>, p: Path, k: int) {
    0 < k < |p| && ValueAt(Dict(fields), p[..k]).Some? && !ValueAt(Dict(fields), p[..k]).value.Dict?
  }

  lemma BlockedBelow(fields: map<string, Json>, p: Path, k: int)
    requires |p| > 1
    ensures Blocked(fields, p, k) <==>
              p[0] in fields && if k == 1 then !fields[p[0]].Dict?
                                else fields[p[0]].Dict? && Blocked(fields[p[0]].fields, p[1..], k - 1)
  {
    if 0 < k < |p| {
      assert p[..k][0] == p[0] && p[..k][1..] == p[1..][..k - 1];
      assert ValueAt(Dict(fields), p[..k])
          == if p[0] in fields then ValueAt(fields[p[0]], p[1..][..k - 1]) else None;
    }
  }

  /** An insertion fails exactly where a value that is no object stands on the way. */
  lemma {:induction false} InsertFails(fields: map<string, Json>, p: Path, v: Json)
    requires p != []
    ensures InsertAt(fields, p, v).None? <==> exists k :: Blocked(fields, p, k)
    decreases |p|
  {
    if |p| > 1 {
      forall k
        ensures Blocked(fields, p, k) <==>
                  p[0] in fields && if k == 1 then !fields[p[0]].Dict?
                                    else fields[p[0]].Dict? && Blocked(fields[p[0]].fields, p[1..], k - 1)
      {
        BlockedBelow(fields, p, k);
      }
      if p[0] !in fields {
        InsertIntoEmpty(p[1..], v);
      } else if fields[p[0]].Dict? {
        InsertFails(fields[p[0]].fields, p[1..], v);
        if k :| Blocked(fields[p[0]].fields, p[1..], k) {
          assert Blocked(fields, p, k + 1);
        }
      } else {
        assert Blocked(fields, p, 1);
      }
    }
  }

  lemma {:induction false} InsertIntoEmpty(p: Path, v: Json)
    requires p != []
    ensures InsertAt(map[], p, v).Some?
    decreases |p|
  {
    if |p| > 1 {
      InsertIntoEmpty(p[1..], v);
    }
  }
}
