/** Flattening a nested object into path-value pairs and rebuilding it
    (allama/parse.py). */
module PathCodec {
  import opened Prelude
  import opened Decimal
  import opened PathTree

  // ------------------------------------------------- path strings

  /** Python's `s.split(".")`: never empty. */
  function Split(s: string): (r: Path)
    ensures r != []
  {
    if s == "" then [""]
    else
      var rest := Split(s[1..]);
      if s[0] == '.' then [""] + rest else [[s[0]] + rest[0]] + rest[1..]
  }

  /** The key a traversal gives to `key` below `parent`. */
  function ChildKey(parent: string, key: string): string {
    if parent == "" then key else parent + "." + key
  }

  function JoinFrom(parent: string, path: Path): string
    decreases |path|
  {
    if path == [] then parent else JoinFrom(ChildKey(parent, path[0]), path[1..])
  }

  predicate LeadingDot(s: string) {
    s != "" && s[0] == '.'
  }

  lemma {:induction false} SplitDotFree(s: string)
    ensures DotFree(Split(s))
    ensures LeadingDot(s) <==> Split(s)[0] == "" && |Split(s)| > 1
  {
    if s != "" {
      SplitDotFree(s[1..]);
    }
  }

  /** `parent + "." + s` splits into the parts of both. */
  lemma {:induction false} SplitAppend(a: string, s: string)
    requires '.' !in a
    ensures Split(a) == [a]
    ensures Split(a + "." + s) == [a] + Split(s)
  {
    var t := a + "." + s;
    if a == "" {
      assert t[1..] == s;
    } else {
      SplitAppend(a[1..], s);
      assert t[1..] == a[1..] + "." + s;
      assert a == [a[0]] + a[1..];
    }
  }

  /** The parts of the paths below a parent, once the parent is not empty. */
  function Joined(path: Path): string
    requires path != []
  {
    if |path| == 1 then path[0] else path[0] + "." + Joined(path[1..])
  }

  lemma {:induction false} JoinFromParent(parent: string, path: Path)
    requires parent != "" && path != []
    ensures JoinFrom(parent, path) == parent + "." + Joined(path)
    decreases |path|
  {
    if |path| > 1 {
      JoinFromParent(ChildKey(parent, path[0]), path[1..]);
      assert parent + "." + path[0] + "." + Joined(path[1..]) == parent + "." + Joined(path);
    } else {
      assert JoinFrom(parent + "." + path[0], path[1..]) == parent + "." + path[0];
    }
  }

  lemma {:induction false} SplitJoined(path: Path)
    requires path != [] && DotFree(path)
    ensures Split(Joined(path)) == path
    decreases |path|
  {
    if |path| > 1 {
      SplitJoined(path[1..]);
      SplitAppend(path[0], Joined(path[1..]));
    } else {
      SplitAppend(path[0], "");
    }
  }

  lemma {:induction false} JoinedSplit(s: string)
    ensures Joined(Split(s)) == s
  {
    if s != "" {
      JoinedSplit(s[1..]);
      var rest := Split(s[1..]);
      assert s == [s[0]] + s[1..];
      if s[0] == '.' {
        assert Split(s) == [""] + rest;
        JoinedCons("", rest);
        assert "" + ("." + s[1..]) == "." + s[1..];
      } else {
        JoinedGrows(s[0], rest);
      }
    }
  }

  lemma JoinedCons(key: string, rest: Path)
    requires rest != []
    ensures Joined([key] + rest) == key + ("." + Joined(rest))
  {
    assert ([key] + rest)[1..] == rest;
  }

  lemma JoinedGrows(c: char, path: Path)
    requires path != []
    ensures Joined([[c] + path[0]] + path[1..]) == [c] + Joined(path)
  {
    if |path| > 1 {
      JoinedCons([c] + path[0], path[1..]);
      assert path == [path[0]] + path[1..];
      JoinedCons(path[0], path[1..]);
      Associative([c], path[0], "." + Joined(path[1..]));
    }
  }

  /** A traversal joins a path faithfully when its first key is not empty or its only
      one; otherwise the leading empty keys are lost. */
  lemma JoinRoot(path: Path)
    requires path != [] && DotFree(path)
    ensures path[0] != "" || |path| == 1 ==>
              JoinFrom("", path) == Joined(path) && Split(JoinFrom("", path)) == path
  {
    SplitJoined(path);
    if path[0] != "" && |path| > 1 {
      JoinFromParent(path[0], path[1..]);
    }
  }

  lemma {:induction false} JoinRootNoLeadingDot(path: Path)
    requires DotFree(path)
    ensures !LeadingDot(JoinFrom("", path))
    decreases |path|
  {
    if path != [] {
      if path[0] == "" {
        JoinRootNoLeadingDot(path[1..]);
      } else if |path| > 1 {
        JoinFromParent(path[0], path[1..]);
      }
    }
  }

  // ------------------------------------------------- flattening

  /** The pairs `traverse_leaves` yields; list positions are written in brackets. */
  function Leaves(j: Json, parent: string): set<(string, Json)>
    decreases j
  {
    match j
    case Scalar(_) => {(parent, j)}
    case List(items) =>
      set i, leaf | 0 <= i < |items| && leaf in Leaves(items[i], parent + "[" + Render(i) + "]") :: leaf
    case Dict(fields) =>
      set k, leaf | k in fields && leaf in Leaves(fields[k], ChildKey(parent, k)) :: leaf
  }

  /** A step into a value: to a key of an object or to a position of a list. */
  datatype Step = Key(name: string) | At(index: nat)

  function Child(j: Json, step: Step): Option<Json> {
    match (j, step)
    case (Dict(fields), Key(name)) => if name in fields then Some(fields[name]) else None
    case (List(items), At(index)) => if index < |items| then Some(items[index]) else None
    case _ => None
  }

  ghost function ScalarAt(j: Json, steps: seq<Step>): Option<Json>
    decreases |steps|
  {
    if steps == [] then if j.Scalar? then Some(j) else None
    else match Child(j, steps[0])
         case None => None
         case Some(child) => ScalarAt(child, steps[1..])
  }

  function StepName(parent: string, step: Step): string {
    match step
    case Key(name) => ChildKey(parent, name)
    case At(index) => parent + "[" + Render(index) + "]"
  }

  function Location(parent: string, steps: seq<Step>): string
    decreases |steps|
  {
    if steps == [] then parent else Location(StepName(parent, steps[0]), steps[1..])
  }

  lemma ChildLeaves(j: Json, parent: string, step: Step)
    requires Child(j, step).Some?
    ensures Leaves(Child(j, step).value, StepName(parent, step)) <= Leaves(j, parent)
  {
  }

  lemma LeafOfChild(j: Json, parent: string, leaf: (string, Json)) returns (step: Step)
    requires leaf in Leaves(j, parent) && !j.Scalar?
    ensures Child(j, step).Some? && Child(j, step).value < j
    ensures leaf in Leaves(Child(j, step).value, StepName(parent, step))
  {
    match j
    case List(items) =>
      var i: nat :| i < |items| && leaf in Leaves(items[i], parent + "[" + Render(i) + "]");
      step := At(i);
    case Dict(fields) =>
      var k :| k in fields && leaf in Leaves(fields[k], ChildKey(parent, k));
      step := Key(k);
  }

  lemma {:induction false} ScalarIsYielded(j: Json, parent: string, steps: seq<Step>)
    requires ScalarAt(j, steps).Some?
    ensures (Location(parent, steps), ScalarAt(j, steps).value) in Leaves(j, parent)
    decreases |steps|
  {
    if steps != [] {
      ScalarIsYielded(Child(j, steps[0]).value, StepName(parent, steps[0]), steps[1..]);
      ChildLeaves(j, parent, steps[0]);
    }
  }

  lemma {:induction false} YieldedIsScalar(j: Json, parent: string, leaf: (string, Json)) returns (steps: seq<Step>)
    requires leaf in Leaves(j, parent)
    ensures leaf.0 == Location(parent, steps) && ScalarAt(j, steps) == Some(leaf.1)
    decreases j
  {
    if j.Scalar? {
      steps := [];
    } else {
      var step := LeafOfChild(j, parent, leaf);
      var rest := YieldedIsScalar(Child(j, step).value, StepName(parent, step), leaf);
      steps := [step] + rest;
      assert steps[1..] == rest;
    }
  }

  /** Whatever the value, the pairs yielded are exactly its scalars with their locations. */
  lemma YieldsScalars(j: Json, s: string, v: Json)
    ensures (s, v) in Leaves(j, "") <==> exists steps :: ScalarAt(j, steps) == Some(v) && Location("", steps) == s
  {
    if (s, v) in Leaves(j, "") {
      var steps := YieldedIsScalar(j, "", (s, v));
    }
    if steps :| ScalarAt(j, steps) == Some(v) && Location("", steps) == s {
      ScalarIsYielded(j, "", steps);
    }
  }

  /** How a location grows by one step: a key follows a dot unless it comes first, a list
      position stands in brackets. */
  lemma {:induction false} LocationGrows(parent: string, steps: seq<Step>, step: Step)
    ensures Location(parent, []) == parent
    ensures var here, next := Location(parent, steps), Location(parent, steps + [step]);
            match step
            case Key(name) => next == if here == "" then name else here + "." + name
            case At(index) => next == here + "[" + Render(index) + "]"
    decreases |steps|
  {
    var longer := steps + [step];
    if steps == [] {
      assert longer[1..] == [];
    } else {
      LocationGrows(StepName(parent, steps[0]), steps[1..], step);
      assert longer[1..] == steps[1..] + [step];
    }
  }

  /** Along keys alone, locations are joined paths. */
  lemma {:induction false} LeafIsYielded(j: Json, parent: string, p: Path)
    requires LeafAt(j, p).Some?
    ensures (JoinFrom(parent, p), LeafAt(j, p).value) in Leaves(j, parent)
    decreases |p|
  {
    if p != [] {
      LeafIsYielded(j.fields[p[0]], ChildKey(parent, p[0]), p[1..]);
      ChildLeaves(j, parent, Key(p[0]));
    }
  }

  /** A plain object yields nothing else. */
  lemma {:induction false} YieldedIsLeaf(j: Json, parent: string, s: string, v: Json) returns (p: Path)
    requires Plain(j) || (j.Dict? && PlainFields(j.fields))
    requires (s, v) in Leaves(j, parent)
    ensures LeafAt(j, p) == Some(v) && s == JoinFrom(parent, p)
    decreases j
  {
    if j.Scalar? {
      p := [];
    } else {
      var k :| k in j.fields && (s, v) in Leaves(j.fields[k], ChildKey(parent, k));
      var q := YieldedIsLeaf(j.fields[k], ChildKey(parent, k), s, v);
      p := [k] + q;
      assert p[1..] == q;
    }
  }

  lemma {:induction false} LeafPathsDotFree(j: Json, p: Path)
    requires Plain(j) || (j.Dict? && PlainFields(j.fields))
    requires LeafAt(j, p).Some?
    ensures DotFree(p) && (j.Dict? ==> p != [])
    decreases |p|
  {
    if p != [] {
      LeafPathsDotFree(j.fields[p[0]], p[1..]);
      assert p == [p[0]] + p[1..];
    }
  }

  // ------------------------------------------------- rebuilding

  /** A single-element list stands for its element. */
  function Unwrap(value: Json): Json {
    if value.List? && |value.items| == 1 then value.items[0] else value
  }

  function RebuildFrom(fields: map<string, Json>, flat: seq<(string, Json)>): Option<map<string, Json>>
    decreases |flat|
  {
    if flat == [] then Some(fields)
    else match InsertAt(fields, Split(flat[0].0), Unwrap(flat[0].1))
         case None => None
         case Some(next) => RebuildFrom(next, flat[1..])
  }

  /** The object rebuilt from the pairs of a dictionary in iteration order; None where
      the source raises. */
  function Rebuild(flat: seq<(string, Json)>): Option<map<string, Json>> {
    RebuildFrom(map[], flat)
  }

  /** The items of a dictionary in iteration order. */
  ghost predicate DistinctPaths(flat: seq<(string, Json)>) {
    forall i, j :: 0 <= i < j < |flat| ==> flat[i].0 != flat[j].0
  }

  ghost predicate ScalarValues(flat: seq<(string, Json)>) {
    forall i :: 0 <= i < |flat| ==> flat[i].1.Scalar?
  }

  ghost predicate FlatDict(flat: seq<(string, Json)>) {
    DistinctPaths(flat) && ScalarValues(flat)
  }

  /** No path is another one's ancestor. */
  ghost predicate PrefixFree(flat: seq<(string, Json)>) {
    forall i, j :: 0 <= i < |flat| && 0 <= j < |flat| && i != j ==> !(Split(flat[i].0) <= Split(flat[j].0))
  }

  ghost predicate NoLeadingDots(flat: seq<(string, Json)>) {
    forall i :: 0 <= i < |flat| ==> !LeadingDot(flat[i].0)
  }

  ghost predicate IsPathOf(flat: seq<(string, Json)>, i: int, p: Path) {
    0 <= i < |flat| && Split(flat[i].0) == p
  }

  /** Whatever overwrites what, rebuilding yields a plain object whose leaves carry
      paths of the input. */
  lemma {:induction false} RebuildIsPlain(fields: map<string, Json>, flat: seq<(string, Json)>)
    requires FlatDict(flat) && PlainFields(fields) && RebuildFrom(fields, flat).Some?
    ensures PlainFields(RebuildFrom(fields, flat).value)
    ensures forall p :: LeafAt(Dict(RebuildFrom(fields, flat).value), p).Some? ==>
              LeafAt(Dict(fields), p).Some? || exists i :: IsPathOf(flat, i, p)
    decreases |flat|
  {
    if flat != [] {
      var path := Split(flat[0].0);
      SplitDotFree(flat[0].0);
      var next := InsertAt(fields, path, flat[0].1).value;
      InsertKeepsPlain(fields, path, flat[0].1);
      RebuildIsPlain(next, flat[1..]);
      forall p | LeafAt(Dict(RebuildFrom(fields, flat).value), p).Some?
        ensures LeafAt(Dict(fields), p).Some? || exists i :: IsPathOf(flat, i, p)
      {
        if LeafAt(Dict(next), p).Some? {
          assert p == path ==> IsPathOf(flat, 0, p);
        } else {
          var i :| IsPathOf(flat[1..], i, p);
          assert flat[1..][i] == flat[i + 1];
          assert IsPathOf(flat, i + 1, p);
        }
      }
    }
  }

  /** A prefix-free input rebuilds to the object that has exactly its leaves. */
  lemma {:induction false} RebuildLeaves(fields: map<string, Json>, flat: seq<(string, Json)>)
    requires FlatDict(flat) && PrefixFree(flat) && PlainFields(fields)
    requires forall p, i :: LeafAt(Dict(fields), p).Some? && 0 <= i < |flat| ==>
               !(p <= Split(flat[i].0)) && !(Split(flat[i].0) <= p)
    ensures RebuildFrom(fields, flat).Some?
    ensures forall i :: 0 <= i < |flat| ==>
              LeafAt(Dict(RebuildFrom(fields, flat).value), Split(flat[i].0)) == Some(flat[i].1)
    ensures forall p :: LeafAt(Dict(fields), p).Some? ==>
              LeafAt(Dict(RebuildFrom(fields, flat).value), p) == LeafAt(Dict(fields), p)
    decreases |flat|
  {
    if flat != [] {
      var path := Split(flat[0].0);
      SplitDotFree(flat[0].0);
      IncomparableFits(fields, path);
      InsertSetsLeaf(fields, path, flat[0].1);
      InsertKeepsPlain(fields, path, flat[0].1);
      var next := InsertAt(fields, path, flat[0].1).value;
      RebuildLeaves(next, flat[1..]);
      forall i | 0 <= i < |flat|
        ensures LeafAt(Dict(RebuildFrom(fields, flat).value), Split(flat[i].0)) == Some(flat[i].1)
      {
        if i > 0 {
          assert flat[1..][i - 1] == flat[i];
        }
      }
    }
  }

  // ------------------------------------------------- round trips

  /** Rebuilding and flattening again gives back the pairs. */
  ghost predicate RoundTrips(flat: seq<(string, Json)>) {
    Rebuild(flat).Some? && Leaves(Dict(Rebuild(flat).value), "") == Elements(flat)
  }

  lemma EmptyHasNoLeaf()
    ensures forall p :: LeafAt(Dict(map[]), p).None?
  {
  }

  /** The leaves of the rebuilt object are the pairs of a prefix-free input. */
  lemma RebuiltLeaf(flat: seq<(string, Json)>, p: Path)
    requires FlatDict(flat) && PrefixFree(flat)
    ensures Rebuild(flat).Some? && PlainFields(Rebuild(flat).value)
    ensures var leaf := LeafAt(Dict(Rebuild(flat).value), p);
            && (forall i :: IsPathOf(flat, i, p) ==> leaf == Some(flat[i].1))
            && (leaf.Some? ==> exists i :: IsPathOf(flat, i, p))
  {
    EmptyHasNoLeaf();
    RebuildLeaves(map[], flat);
    RebuildIsPlain(map[], flat);
  }

  lemma JoinOfSplit(s: string)
    requires !LeadingDot(s)
    ensures JoinFrom("", Split(s)) == s
  {
    SplitDotFree(s);
    JoinRoot(Split(s));
    JoinedSplit(s);
  }

  lemma RoundTripHolds(flat: seq<(string, Json)>)
    requires FlatDict(flat) && PrefixFree(flat) && NoLeadingDots(flat)
    ensures RoundTrips(flat)
  {
    RebuiltLeaf(flat, []);
    var g := Dict(Rebuild(flat).value);
    forall s, v
      ensures (s, v) in Leaves(g, "") <==> (s, v) in flat
    {
      if (s, v) in flat {
        var i :| 0 <= i < |flat| && flat[i] == (s, v);
        RebuiltLeaf(flat, Split(s));
        assert IsPathOf(flat, i, Split(s));
        JoinOfSplit(s);
        LeafIsYielded(g, "", Split(s));
      }
      if (s, v) in Leaves(g, "") {
        var p := YieldedIsLeaf(g, "", s, v);
        RebuiltLeaf(flat, p);
        var i :| IsPathOf(flat, i, p);
        JoinOfSplit(flat[i].0);
        assert flat[i] == (s, v);
      }
    }
    forall leaf
      ensures leaf in Leaves(g, "") <==> leaf in Elements(flat)
    {
      assert leaf == (leaf.0, leaf.1);
    }
  }

  /** A pair that survives the round trip names its leaf by its own path. */
  lemma SurvivingPath(flat: seq<(string, Json)>, i: nat)
    requires FlatDict(flat) && RoundTrips(flat) && i < |flat|
    ensures !LeadingDot(flat[i].0)
    ensures NoLeadingDots(flat) ==> LeafAt(Dict(Rebuild(flat).value), Split(flat[i].0)).Some?
  {
    EmptyHasNoLeaf();
    RebuildIsPlain(map[], flat);
    var g, s := Dict(Rebuild(flat).value), flat[i].0;
    assert (s, flat[i].1) in Elements(flat);
    var p := YieldedIsLeaf(g, "", s, flat[i].1);
    LeafPathsDotFree(g, p);
    JoinRootNoLeadingDot(p);
    if NoLeadingDots(flat) {
      var k :| IsPathOf(flat, k, p);
      SplitDotFree(flat[k].0);
      JoinRoot(p);
    }
  }

  /** Only scalars are yielded. */
  lemma SurvivorsAreScalars(flat: seq<(string, Json)>)
    requires RoundTrips(flat)
    ensures ScalarValues(flat)
  {
    forall i | 0 <= i < |flat|
      ensures flat[i].1.Scalar?
    {
      assert flat[i] in Elements(flat);
      var steps := YieldedIsScalar(Dict(Rebuild(flat).value), "", flat[i]);
      ScalarAtIsScalar(Dict(Rebuild(flat).value), steps);
    }
  }

  lemma {:induction false} ScalarAtIsScalar(j: Json, steps: seq<Step>)
    requires ScalarAt(j, steps).Some?
    ensures ScalarAt(j, steps).value.Scalar?
    decreases |steps|
  {
    if steps != [] {
      ScalarAtIsScalar(Child(j, steps[0]).value, steps[1..]);
    }
  }

  lemma SurvivorsArePrefixFree(flat: seq<(string, Json)>)
    requires FlatDict(flat) && RoundTrips(flat)
    ensures PrefixFree(flat) && NoLeadingDots(flat)
  {
    forall i | 0 <= i < |flat|
      ensures !LeadingDot(flat[i].0)
    {
      SurvivingPath(flat, i);
    }
    forall i, j | 0 <= i < |flat| && 0 <= j < |flat| && i != j
      ensures !(Split(flat[i].0) <= Split(flat[j].0))
    {
      SurvivingPath(flat, i);
      SurvivingPath(flat, j);
      if Split(flat[i].0) <= Split(flat[j].0) {
        LeavesAntichain(Dict(Rebuild(flat).value), Split(flat[i].0), Split(flat[j].0));
        JoinedSplit(flat[i].0);
        JoinedSplit(flat[j].0);
      }
    }
  }

  /** Rebuilding then flattening is the identity exactly for the dictionaries whose values
      are scalars and whose paths are no ancestors of one another and have no leading dot. */
  lemma RebuildFlattenRoundTrip(flat: seq<(string, Json)>)
    requires DistinctPaths(flat)
    ensures RoundTrips(flat) <==> ScalarValues(flat) && PrefixFree(flat) && NoLeadingDots(flat)
  {
    if RoundTrips(flat) {
      SurvivorsAreScalars(flat);
      SurvivorsArePrefixFree(flat);
    } else if ScalarValues(flat) && PrefixFree(flat) && NoLeadingDots(flat) {
      RoundTripHolds(flat);
    }
  }

  // ------------------------------------------------- any values, any order

  /** Every path of the input can be inserted on its own. */
  ghost predicate Open(fields: map<string, Json>, flat: seq<(string, Json)>) {
    forall i, v :: 0 <= i < |flat| ==> InsertAt(fields, Split(flat[i].0), v).Some?
  }

  lemma TailPrefixFree(flat: seq<(string, Json)>)
    requires PrefixFree(flat) && flat != []
    ensures PrefixFree(flat[1..])
    ensures forall i :: 0 <= i < |flat[1..]| ==> Apart(Split(flat[0].0), Split(flat[1..][i].0))
  {
    assert forall i :: 0 <= i < |flat[1..]| ==> flat[1..][i] == flat[i + 1];
  }

  lemma TailOpen(fields: map<string, Json>, flat: seq<(string, Json)>, next: map<string, Json>)
    requires Open(fields, flat) && PrefixFree(flat) && flat != []
    requires InsertAt(fields, Split(flat[0].0), Unwrap(flat[0].1)) == Some(next)
    ensures Open(next, flat[1..])
  {
    TailPrefixFree(flat);
    forall i, v | 0 <= i < |flat[1..]|
      ensures InsertAt(next, Split(flat[1..][i].0), v).Some?
    {
      assert flat[1..][i] == flat[i + 1];
      InsertLeavesApart(fields, Split(flat[0].0), Unwrap(flat[0].1), Split(flat[i + 1].0), v);
    }
  }

  /** A prefix-free input with any values rebuilds without error and leaves what stands
      apart from all its paths. */
  lemma {:induction false} RebuildLeavesApart(fields: map<string, Json>, flat: seq<(string, Json)>, p: Path)
    requires Open(fields, flat) && PrefixFree(flat) && p != []
    requires forall i :: 0 <= i < |flat| ==> Apart(Split(flat[i].0), p)
    ensures RebuildFrom(fields, flat).Some?
    ensures ValueAt(Dict(RebuildFrom(fields, flat).value), p) == ValueAt(Dict(fields), p)
    decreases |flat|
  {
    if flat != [] {
      var v := Unwrap(flat[0].1);
      var next := InsertAt(fields, Split(flat[0].0), v).value;
      TailPrefixFree(flat);
      TailOpen(fields, flat, next);
      InsertLeavesApart(fields, Split(flat[0].0), v, p, v);
      assert forall i :: 0 <= i < |flat[1..]| ==> flat[1..][i] == flat[i + 1];
      RebuildLeavesApart(next, flat[1..], p);
    }
  }

  lemma {:induction false} RebuildPuts(fields: map<string, Json>, flat: seq<(string, Json)>, i: nat)
    requires Open(fields, flat) && PrefixFree(flat) && i < |flat|
    ensures RebuildFrom(fields, flat).Some?
    ensures ValueAt(Dict(RebuildFrom(fields, flat).value), Split(flat[i].0)) == Some(Unwrap(flat[i].1))
    decreases |flat|
  {
    var path, v := Split(flat[0].0), Unwrap(flat[0].1);
    var next := InsertAt(fields, path, v).value;
    TailPrefixFree(flat);
    TailOpen(fields, flat, next);
    if i == 0 {
      InsertPutsValue(fields, path, v);
      RebuildLeavesApart(next, flat[1..], path);
    } else {
      RebuildPuts(next, flat[1..], i - 1);
      assert flat[1..][i - 1] == flat[i];
    }
  }

  /** What a value stands for: a list of one element for that element. */
  ghost predicate StandsFor(value: Json, v: Json) {
    match value
    case List(items) => if |items| == 1 then v == items[0] else v == value
    case _ => v == value
  }

  /** A prefix-free input with any values rebuilds without error to an object that holds
      each value at its path. */
  lemma RebuildHoldsValues(flat: seq<(string, Json)>)
    requires PrefixFree(flat)
    ensures Rebuild(flat).Some?
    ensures forall i :: 0 <= i < |flat| ==>
              var held := ValueAt(Dict(Rebuild(flat).value), Split(flat[i].0));
              held.Some? && StandsFor(flat[i].1, held.value)
  {
    forall i, v | 0 <= i < |flat|
      ensures InsertAt(map[], Split(flat[i].0), v).Some?
    {
      InsertIntoEmpty(Split(flat[i].0), v);
    }
    assert Open(map[], flat);
    forall i | 0 <= i < |flat|
      ensures Rebuild(flat).Some?
      ensures ValueAt(Dict(Rebuild(flat).value), Split(flat[i].0)) == Some(Unwrap(flat[i].1))
    {
      RebuildPuts(map[], flat, i);
    }
  }

  function Without(flat: seq<(string, Json)>, i: nat): seq<(string, Json)>
    requires i < |flat|
  {
    flat[..i] + flat[i + 1..]
  }

  /** The insertion loop from wherever it stands. */
  function Then(fields: Option<map<string, Json>>, flat: seq<(string, Json)>): Option<map<string, Json>> {
    match fields
    case None => None
    case Some(f) => RebuildFrom(f, flat)
  }

  lemma ThenCons(fields: map<string, Json>, e: (string, Json), rest: seq<(string, Json)>)
    ensures RebuildFrom(fields, [e] + rest) == Then(InsertAt(fields, Split(e.0), Unwrap(e.1)), rest)
  {
    assert ([e] + rest)[1..] == rest;
  }

  lemma SwapFirstTwo(fields: map<string, Json>, e: (string, Json), d: (string, Json), rest: seq<(string, Json)>)
    requires Apart(Split(e.0), Split(d.0))
    ensures RebuildFrom(fields, [e] + ([d] + rest)) == RebuildFrom(fields, [d] + ([e] + rest))
  {
    var p, v, q, w := Split(e.0), Unwrap(e.1), Split(d.0), Unwrap(d.1);
    InsertionsCommute(fields, p, v, q, w);
    ThenCons(fields, e, [d] + rest);
    ThenCons(fields, d, [e] + rest);
    match InsertAt(fields, p, v)
    case None =>
    case Some(next) => ThenCons(next, d, rest);
    match InsertAt(fields, q, w)
    case None =>
    case Some(next) => ThenCons(next, e, rest);
  }

  /** A pair apart from all before it may as well come first. */
  lemma {:induction false} MoveToFront(fields: map<string, Json>, flat: seq<(string, Json)>, i: nat)
    requires PrefixFree(flat) && i < |flat|
    ensures RebuildFrom(fields, flat) == RebuildFrom(fields, [flat[i]] + Without(flat, i))
    decreases i
  {
    if i == 0 {
      assert flat == [flat[0]] + Without(flat, 0);
    } else {
      var head, tail := flat[0], flat[1..];
      var rest := Without(tail, i - 1);
      TailPrefixFree(flat);
      assert flat == [head] + tail && tail[i - 1] == flat[i];
      assert Without(flat, i) == [head] + rest;
      ThenCons(fields, head, tail);
      ThenCons(fields, head, [flat[i]] + rest);
      var next := InsertAt(fields, Split(head.0), Unwrap(head.1));
      if next.Some? {
        MoveToFront(next.value, tail, i - 1);
      }
      SwapFirstTwo(fields, head, flat[i], rest);
    }
  }

  lemma WithoutKeeps(b: seq<(string, Json)>, i: nat)
    requires PrefixFree(b) && i < |b|
    ensures PrefixFree(Without(b, i)) && Elements(Without(b, i)) == Elements(b) - {b[i]}
  {
    var r := Without(b, i);
    assert forall k :: 0 <= k < |r| ==> r[k] == b[if k < i then k else k + 1];
    forall e
      ensures e in r <==> e in b && e != b[i]
    {
      if e in b && e != b[i] {
        var k :| 0 <= k < |b| && b[k] == e;
        assert r[if k < i then k else k - 1] == e;
      }
    }
  }

  /** For prefix-free inputs with any values the order of the pairs does not matter, from
      any object on, failures included. */
  lemma {:induction false} RebuildFromAnyOrder(fields: map<string, Json>, a: seq<(string, Json)>,
                                               b: seq<(string, Json)>)
    requires PrefixFree(a) && PrefixFree(b) && Elements(a) == Elements(b)
    ensures RebuildFrom(fields, a) == RebuildFrom(fields, b)
    decreases |a|
  {
    if a == [] {
      NoElements(b);
    } else {
      assert a[0] in Elements(b);
      var i :| 0 <= i < |b| && b[i] == a[0];
      MoveToFront(fields, b, i);
      WithoutKeeps(b, i);
      WithoutKeeps(a, 0);
      assert Without(a, 0) == a[1..] && a == [a[0]] + a[1..];
      ThenCons(fields, a[0], a[1..]);
      ThenCons(fields, a[0], Without(b, i));
      var next := InsertAt(fields, Split(a[0].0), Unwrap(a[0].1));
      if next.Some? {
        RebuildFromAnyOrder(next.value, a[1..], Without(b, i));
      }
    }
  }

  lemma RebuildOrderIrrelevant(a: seq<(string, Json)>, b: seq<(string, Json)>)
    requires PrefixFree(a) && PrefixFree(b) && Elements(a) == Elements(b)
    ensures Rebuild(a) == Rebuild(b)
  {
    RebuildFromAnyOrder(map[], a, b);
  }

  /** `flat` is a dictionary of the leaves of an object: every path once, with one of
      the values yielded for it. */
  ghost predicate Flattens(fields: map<string, Json>, flat: seq<(string, Json)>) {
    && (forall i, j :: 0 <= i < j < |flat| ==> flat[i].0 != flat[j].0)
    && (forall i :: 0 <= i < |flat| ==> flat[i] in Leaves(Dict(fields), ""))
    && (forall leaf :: leaf in Leaves(Dict(fields), "") ==> exists i :: 0 <= i < |flat| && flat[i].0 == leaf.0)
  }

  /** The empty key hides a whole object when it stands at the top. */
  ghost predicate HidesKeys(fields: map<string, Json>) {
    "" in fields && fields[""].Dict?
  }

  lemma FlattenedPair(fields: map<string, Json>, flat: seq<(string, Json)>, i: nat) returns (p: Path)
    requires PlainFields(fields) && Flattens(fields, flat) && i < |flat|
    ensures LeafAt(Dict(fields), p) == Some(flat[i].1) && flat[i].0 == JoinFrom("", p)
    ensures flat[i].1.Scalar? && DotFree(p) && p != []
    ensures !HidesKeys(fields) ==> Split(flat[i].0) == p
  {
    p := YieldedIsLeaf(Dict(fields), "", flat[i].0, flat[i].1);
    LeafPathsDotFree(Dict(fields), p);
    LeafIsScalar(Dict(fields), p);
    if !HidesKeys(fields) {
      assert p[0] == "" ==> |p| == 1;
      JoinRoot(p);
    }
  }

  lemma {:induction false} LeafIsScalar(j: Json, p: Path)
    requires LeafAt(j, p).Some?
    ensures LeafAt(j, p).value.Scalar?
    decreases |p|
  {
    if p != [] {
      LeafIsScalar(j.fields[p[0]], p[1..]);
    }
  }

  lemma FlattenedPathsApart(fields: map<string, Json>, flat: seq<(string, Json)>, i: nat, j: nat)
    requires PlainFields(fields) && Flattens(fields, flat) && !HidesKeys(fields)
    requires i < |flat| && j < |flat| && i != j
    ensures !(Split(flat[i].0) <= Split(flat[j].0))
  {
    var p := FlattenedPair(fields, flat, i);
    var q := FlattenedPair(fields, flat, j);
    assert flat[i].0 != flat[j].0;
    assert p != q;
    if p <= q {
      LeavesAntichain(Dict(fields), p, q);
    }
  }

  lemma FlattenedIsPrefixFree(fields: map<string, Json>, flat: seq<(string, Json)>)
    requires PlainFields(fields) && Flattens(fields, flat) && !HidesKeys(fields)
    ensures FlatDict(flat) && PrefixFree(flat)
  {
    forall i | 0 <= i < |flat|
      ensures flat[i].1.Scalar?
    {
      var p := FlattenedPair(fields, flat, i);
    }
    forall i, j | 0 <= i < |flat| && 0 <= j < |flat| && i != j
      ensures !(Split(flat[i].0) <= Split(flat[j].0))
    {
      FlattenedPathsApart(fields, flat, i, j);
    }
  }

  lemma FlattenRebuildHolds(fields: map<string, Json>, flat: seq<(string, Json)>)
    requires PlainFields(fields) && Flattens(fields, flat) && !HidesKeys(fields)
    ensures Rebuild(flat) == Some(fields)
  {
    FlattenedIsPrefixFree(fields, flat);
    RebuiltLeaf(flat, []);
    var x, y := Dict(Rebuild(flat).value), Dict(fields);
    forall p
      ensures LeafAt(x, p) == LeafAt(y, p)
    {
      RebuiltLeaf(flat, p);
      if LeafAt(y, p).Some? {
        var i := LeafIsListed(fields, flat, p);
        var q := FlattenedPair(fields, flat, i);
      } else if i :| IsPathOf(flat, i, p) {
        var q := FlattenedPair(fields, flat, i);
      }
    }
    LeavesDetermine(x, y);
  }

  lemma LeafIsListed(fields: map<string, Json>, flat: seq<(string, Json)>, p: Path) returns (i: nat)
    requires PlainFields(fields) && Flattens(fields, flat) && !HidesKeys(fields) && LeafAt(Dict(fields), p).Some?
    ensures IsPathOf(flat, i, p)
  {
    var leaf := (JoinFrom("", p), LeafAt(Dict(fields), p).value);
    LeafIsYielded(Dict(fields), "", p);
    assert leaf in Leaves(Dict(fields), "");
    i :| i < |flat| && flat[i].0 == leaf.0;
    LeafPathRecovered(fields, p);
  }

  lemma LeafPathRecovered(fields: map<string, Json>, p: Path)
    requires PlainFields(fields) && !HidesKeys(fields) && LeafAt(Dict(fields), p).Some?
    ensures Split(JoinFrom("", p)) == p
  {
    LeafPathsDotFree(Dict(fields), p);
    if p[0] == "" {
      assert LeafAt(fields[""], p[1..]).Some?;
    }
    JoinRoot(p);
  }

  /** No pair of a flattened object has a path with a leading empty key. */
  lemma FlattenedHasNoLeadingDot(fields: map<string, Json>, flat: seq<(string, Json)>, i: nat)
    requires PlainFields(fields) && Flattens(fields, flat) && i < |flat|
    ensures flat[i].1.Scalar? && !LeadingDot(flat[i].0)
  {
    var r := FlattenedPair(fields, flat, i);
    JoinRootNoLeadingDot(r);
  }

  /** An object under an empty top key has a leaf that no rebuilt object can have. */
  lemma HiddenLeafIsLost(fields: map<string, Json>, flat: seq<(string, Json)>)
    requires PlainFields(fields) && Flattens(fields, flat) && HidesKeys(fields)
    ensures Rebuild(flat) != Some(fields)
  {
    forall i | 0 <= i < |flat|
      ensures flat[i].1.Scalar? && !LeadingDot(flat[i].0)
    {
      FlattenedHasNoLeadingDot(fields, flat, i);
    }
    var q := PlainHasLeaf(fields[""]);
    LeafUnderEmptyKey(fields, q);
    if Rebuild(flat).Some? {
      NoLeafUnderEmptyKey(flat, [""] + q);
    }
  }

  lemma LeafUnderEmptyKey(fields: map<string, Json>, q: Path)
    requires HidesKeys(fields) && LeafAt(fields[""], q).Some?
    ensures LeafAt(Dict(fields), [""] + q).Some? && |[""] + q| > 1
  {
    assert ([""] + q)[1..] == q;
  }

  lemma NoLeafUnderEmptyKey(flat: seq<(string, Json)>, p: Path)
    requires FlatDict(flat) && NoLeadingDots(flat) && Rebuild(flat).Some?
    requires |p| > 1 && p[0] == ""
    ensures LeafAt(Dict(Rebuild(flat).value), p).None?
  {
    EmptyHasNoLeaf();
    RebuildIsPlain(map[], flat);
    forall i
      ensures !IsPathOf(flat, i, p)
    {
      if 0 <= i < |flat| {
        SplitDotFree(flat[i].0);
      }
    }
  }

  /** What a flattened object is rebuilt to is plain, whatever the object. */
  lemma RebuiltIsPlain(fields: map<string, Json>, flat: seq<(string, Json)>)
    requires Flattens(fields, flat) && Rebuild(flat).Some?
    ensures PlainFields(Rebuild(flat).value)
  {
    forall i | 0 <= i < |flat|
      ensures flat[i].1.Scalar?
    {
      var steps := YieldedIsScalar(Dict(fields), "", flat[i]);
      ScalarAtIsScalar(Dict(fields), steps);
    }
    RebuildIsPlain(map[], flat);
  }

  /** Flattening then rebuilding is the identity exactly for the objects with dot-free
      keys, nonempty inner objects and no lists that have no object under an empty key at
      the top. */
  lemma FlattenRebuildRoundTrip(fields: map<string, Json>, flat: seq<(string, Json)>)
    requires Flattens(fields, flat)
    ensures Rebuild(flat) == Some(fields) <==> PlainFields(fields) && !HidesKeys(fields)
  {
    if Rebuild(flat) == Some(fields) {
      RebuiltIsPlain(fields, flat);
    }
    if PlainFields(fields) {
      if HidesKeys(fields) {
        HiddenLeafIsLost(fields, flat);
      } else {
        FlattenRebuildHolds(fields, flat);
      }
    }
  }

  /** The pairs "a" and "a.b" cannot both survive: in one order rebuilding fails, in the
      other the later pair replaces the earlier one. */
  lemma AncestorAndDescendant(v: Json, below: Json)
    requires v.Scalar? && below.Scalar?
    ensures Rebuild([("a", v), ("a.b", below)]) == None
    ensures Rebuild([("a.b", below), ("a", v)]) == Some(map["a" := v])
  {
    SplitAppend("a", "b");
    SplitAppend("b", "");
    assert "a" + "." + "b" == "a.b";
    RebuildTwo(("a", v), ("a.b", below));
    RebuildTwo(("a.b", below), ("a", v));
    assert ["a", "b"][1..] == ["b"];
    assert map["a" := Dict(map["b" := below])]["a" := v] == map["a" := v];
  }

  lemma RebuildTwo(first: (string, Json), second: (string, Json))
    requires first.1.Scalar? && second.1.Scalar?
    ensures Rebuild([first, second]) ==
            match InsertAt(map[], Split(first.0), first.1)
            case None => None
            case Some(fields) => InsertAt(fields, Split(second.0), second.1)
  {
    var flat := [first, second];
    assert flat[1..] == [second];
    match InsertAt(map[], Split(first.0), first.1)
    case None =>
    case Some(fields) =>
      assert RebuildFrom(map[], flat) == RebuildFrom(fields, [second]);
      assert [second][1..] == [];
  }
}
