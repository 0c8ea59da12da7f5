/** What an upgrade followed by a downgrade makes of a workflow's graph object. */
module GraphEdges {
  import opened Prelude
  import opened GraphMigration

  /** An edge with its handle normalised: none from a trigger, "success" or "error"
      otherwise, in camel case. */
  function Normal(e: Edge): Edge {
    ToEdge("", ToUpstream(e)).(target := e.target)
  }

  /** Normalising keeps source and target and leaves one handle field. */
  lemma NormalFields(e: Edge)
    ensures var n := Normal(e);
            var source := if e.source.Some? then e.source.value else "";
            var handle := if e.camelHandle.None? || e.camelHandle.value == "" then e.snakeHandle else e.camelHandle;
            && n.source == Some(source) && n.target == e.target && n.snakeHandle == None
            && n.camelHandle == if "trigger-" <= source then None
                                else Some(if handle == Some("error") then "error" else "success")
  {
    EdgeGivesRow(e);
  }

  function NormalAll(edges: seq<Edge>): (r: seq<Edge>)
    ensures |r| == |edges|
  {
    if edges == [] then [] else [Normal(edges[0])] + NormalAll(edges[1..])
  }

  predicate Targets(e: Edge, ids: set<string>) {
    e.target.Some? && e.target.value in ids
  }

  /** The normalised edges into `ids`. */
  function NormalInto(edges: seq<Edge>, ids: set<string>): (r: seq<Edge>)
    ensures |r| <= |edges|
  {
    if edges == [] then []
    else (if Targets(edges[0], ids) then [Normal(edges[0])] else []) + NormalInto(edges[1..], ids)
  }

  lemma {:induction false} NormalIntoAll(edges: seq<Edge>, ids: set<string>)
    ensures |NormalInto(edges, ids)| == |edges| <==> forall i :: 0 <= i < |edges| ==> Targets(edges[i], ids)
    ensures |NormalInto(edges, ids)| == |edges| ==> NormalInto(edges, ids) == NormalAll(edges)
  {
    if edges != [] {
      NormalIntoAll(edges[1..], ids);
      assert forall i :: 0 < i < |edges| ==> edges[i] == edges[1..][i - 1];
    }
  }

  lemma {:induction false} EdgesOfIncoming(edges: seq<Edge>, id: string)
    ensures ToEdges(id, Incoming(edges, id)) == NormalInto(edges, {id})
  {
    if edges != [] {
      EdgesOfIncoming(edges[1..], id);
      if edges[0].target == Some(id) {
        var us := Incoming(edges, id);
        assert us[1..] == Incoming(edges[1..], id);
        assert ToEdge(id, ToUpstream(edges[0])) == Normal(edges[0]);
      } else {
        assert [] + Incoming(edges[1..], id) == Incoming(edges[1..], id);
        assert [] + NormalInto(edges[1..], {id}) == NormalInto(edges[1..], {id});
      }
    }
  }

  lemma {:induction false} SplitTargets(edges: seq<Edge>, id: string, ids: set<string>)
    requires id !in ids
    ensures multiset(NormalInto(edges, ids + {id}))
         == multiset(NormalInto(edges, {id})) + multiset(NormalInto(edges, ids))
  {
    if edges != [] {
      SplitTargets(edges[1..], id, ids);
    }
  }

  /** The upstream rows of an action that took up its edges, if it is live. */
  function LiveIncoming(edges: seq<Edge>, id: string, live: set<string>): seq<Upstream> {
    if id in live then Incoming(edges, id) else []
  }

  lemma EdgesOfRow(edges: seq<Edge>, id: string, live: set<string>)
    ensures ToEdges(id, LiveIncoming(edges, id, live)) == NormalInto(edges, {id} * live)
  {
    if id in live {
      EdgesOfIncoming(edges, id);
      assert {id} * live == {id};
    } else {
      NoTargets(edges);
      assert {id} * live == {};
    }
  }

  lemma SplitLiveTargets(edges: seq<Edge>, id: string, ids: set<string>, live: set<string>)
    requires id !in ids
    ensures multiset(NormalInto(edges, ({id} + ids) * live))
         == multiset(NormalInto(edges, {id} * live)) + multiset(NormalInto(edges, ids * live))
  {
    if id in live {
      assert ({id} + ids) * live == ids * live + {id} && {id} * live == {id};
      SplitTargets(edges, id, ids * live);
    } else {
      assert ({id} + ids) * live == ids * live && {id} * live == {};
      NoTargets(edges);
    }
  }

  lemma ElementsCons(ids: seq<string>)
    requires ids != [] && NoDuplicates(ids)
    ensures Elements(ids) == {ids[0]} + Elements(ids[1..]) && ids[0] !in Elements(ids[1..])
  {
    assert ids == [ids[0]] + ids[1..];
  }

  /** Rows that took up the edges into `live`, and are empty otherwise, give exactly these
      edges, normalised. */
  lemma {:induction false} EdgesOfRows(actions: map<string, Action>, ids: seq<string>, edges: seq<Edge>,
                                       live: set<string>)
    requires NoDuplicates(ids)
    requires forall a :: a in ids ==> a in actions && actions[a].upstream == LiveIncoming(edges, a, live)
    ensures multiset(ActionEdges(actions, ids)) == multiset(NormalInto(edges, Elements(ids) * live))
  {
    if ids == [] {
      NoTargets(edges);
      assert Elements(ids) * live == {};
    } else {
      EdgesOfRows(actions, ids[1..], edges, live);
      EdgesOfRow(edges, ids[0], live);
      ElementsCons(ids);
      SplitLiveTargets(edges, ids[0], Elements(ids[1..]), live);
    }
  }

  lemma {:induction false} NoTargets(edges: seq<Edge>)
    ensures NormalInto(edges, {}) == []
    ensures NormalInto(edges, Elements([])) == []
  {
    if edges != [] {
      NoTargets(edges[1..]);
    }
    assert Elements<string>([]) == {};
  }

  ghost predicate IsUdf(nodes: seq<Node>, i: int, id: string) {
    0 <= i < |nodes| && nodes[i].kind == "udf" && nodes[i].id == id
  }

  ghost predicate HasUdf(nodes: seq<Node>, id: string) {
    exists i :: IsUdf(nodes, i, id)
  }

  /** Of several udf nodes with one id the last one counts. */
  ghost predicate LastUdf(nodes: seq<Node>, i: int, id: string) {
    IsUdf(nodes, i, id) && forall j :: i < j ==> !IsUdf(nodes, j, id)
  }

  lemma LastUdfOfTail(nodes: seq<Node>, i: int, id: string)
    requires LastUdf(nodes, i, id) && i > 0
    ensures LastUdf(nodes[1..], i - 1, id)
  {
    assert forall j :: IsUdf(nodes[1..], j, id) ==> IsUdf(nodes, j + 1, id);
  }

  lemma NoUdfInTail(nodes: seq<Node>, id: string)
    requires nodes != [] && (LastUdf(nodes, 0, id) || !HasUdf(nodes, id))
    ensures !HasUdf(nodes[1..], id)
  {
    assert forall j :: IsUdf(nodes[1..], j, id) ==> IsUdf(nodes, j + 1, id);
  }

  lemma {:induction false} RowWithoutNode(rows: map<string, Action>, nodes: seq<Node>, edges: seq<Edge>, a: string)
    requires a in rows && !HasUdf(nodes, a)
    ensures ApplyNodes(rows, nodes, edges)[a] == rows[a]
    decreases |nodes|
  {
    if nodes != [] {
      NoUdfInTail(nodes, a);
      assert !IsUdf(nodes, 0, a);
      RowWithoutNode(ApplyNode(rows, nodes[0], edges), nodes[1..], edges, a);
    }
  }

  lemma {:induction false} RowOfLastNode(rows: map<string, Action>, nodes: seq<Node>, edges: seq<Edge>,
                                         a: string, i: int)
    requires a in rows && LastUdf(nodes, i, a)
    ensures ApplyNodes(rows, nodes, edges)[a]
         == rows[a].(position := PositionOf(nodes[i]), upstream := Incoming(edges, a))
    decreases |nodes|
  {
    var next := ApplyNode(rows, nodes[0], edges);
    if i == 0 {
      NoUdfInTail(nodes, a);
      RowWithoutNode(next, nodes[1..], edges, a);
    } else {
      LastUdfOfTail(nodes, i, a);
      RowOfLastNode(next, nodes[1..], edges, a, i - 1);
    }
  }

  /** Every udf node reaches its row, the last one of an id with its position, and no
      other row changes. */
  lemma ApplyNodesSpec(rows: map<string, Action>, nodes: seq<Node>, edges: seq<Edge>)
    ensures var r := ApplyNodes(rows, nodes, edges);
            && r.Keys == rows.Keys
            && (forall a, i :: a in rows && LastUdf(nodes, i, a) ==>
                  r[a] == rows[a].(position := PositionOf(nodes[i]), upstream := Incoming(edges, a)))
            && (forall a :: a in rows && !HasUdf(nodes, a) ==> r[a] == rows[a])
  {
    forall a, i | a in rows && LastUdf(nodes, i, a)
      ensures ApplyNodes(rows, nodes, edges)[a]
           == rows[a].(position := PositionOf(nodes[i]), upstream := Incoming(edges, a))
    {
      RowOfLastNode(rows, nodes, edges, a, i);
    }
    forall a | a in rows && !HasUdf(nodes, a)
      ensures ApplyNodes(rows, nodes, edges)[a] == rows[a]
    {
      RowWithoutNode(rows, nodes, edges, a);
    }
  }

  lemma {:induction false} LastUdfExists(nodes: seq<Node>, id: string, i: int) returns (last: int)
    requires IsUdf(nodes, i, id)
    ensures LastUdf(nodes, last, id)
    decreases |nodes| - i
  {
    if j :| i < j && IsUdf(nodes, j, id) {
      last := LastUdfExists(nodes, id, j);
    } else {
      last := i;
    }
  }

  ghost predicate IsTrigger(nodes: seq<Node>, i: int) {
    0 <= i < |nodes| && nodes[i].kind == "trigger"
  }

  /** Of several triggers the last one counts. */
  ghost predicate LastTrigger(nodes: seq<Node>, i: int) {
    IsTrigger(nodes, i) && forall j :: i < j ==> !IsTrigger(nodes, j)
  }

  function FilledIn(view: View): Viewport {
    Viewport(Or(view.x, 0.0), Or(view.y, 0.0), Or(view.zoom, 1.0))
  }

  /** The last trigger sets its position and the viewport; without one the row stays. */
  lemma {:induction false} ApplyTriggersSpec(row: Workflow, nodes: seq<Node>, view: View)
    ensures var r := ApplyTriggers(row, nodes, view);
            && (forall t :: LastTrigger(nodes, t) ==> r == Workflow(PositionOf(nodes[t]), FilledIn(view)))
            && ((forall t :: !IsTrigger(nodes, t)) ==> r == row)
    decreases |nodes|
  {
    if nodes != [] {
      var tail := nodes[1..];
      var next := if IsTrigger(nodes, 0) then Workflow(PositionOf(nodes[0]), FilledIn(view)) else row;
      ApplyTriggersSpec(next, tail, view);
      assert forall j :: IsTrigger(tail, j) ==> IsTrigger(nodes, j + 1);
      forall t | LastTrigger(nodes, t)
        ensures ApplyTriggers(row, nodes, view) == Workflow(PositionOf(nodes[t]), FilledIn(view))
      {
        if t > 0 {
          assert forall j :: t - 1 < j ==> !IsTrigger(tail, j);
          assert LastTrigger(tail, t - 1);
        }
      }
    }
  }

  // ------------------------------------------------- the upgrade of all workflows

  lemma {:induction false} ApplyGraphsAppend(rows: Rows, a: seq<(string, Option<Graph>)>,
                                             b: seq<(string, Option<Graph>)>)
    ensures ApplyGraphs(rows, a + b) == ApplyGraphs(ApplyGraphs(rows, a), b)
    decreases |a|
  {
    if a == [] {
      assert a + b == b;
    } else {
      var next := match a[0].1 case None => rows case Some(g) => ApplyGraph(rows, a[0].0, g);
      ApplyGraphsAppend(next, a[1..], b);
      assert (a + b)[1..] == a[1..] + b;
    }
  }

  /** The object at place `k` has a udf node for `a`. */
  ghost predicate Names(objects: seq<(string, Option<Graph>)>, k: int, a: string) {
    0 <= k < |objects| && objects[k].1.Some? && HasUdf(objects[k].1.value.nodes, a)
  }

  /** Of several objects with a udf node for `a` the last one counts. */
  ghost predicate LastNaming(objects: seq<(string, Option<Graph>)>, q: int, a: string) {
    Names(objects, q, a) && forall k :: q < k ==> !Names(objects, k, a)
  }

  lemma {:induction false} UnnamedActionStays(rows: Rows, objects: seq<(string, Option<Graph>)>, a: string)
    requires a in rows.actions && forall k :: !Names(objects, k, a)
    ensures var r := ApplyGraphs(rows, objects); a in r.actions && r.actions[a] == rows.actions[a]
    decreases |objects|
  {
    if objects != [] {
      assert forall k :: Names(objects[1..], k, a) ==> Names(objects, k + 1, a);
      assert !Names(objects, 0, a);
      match objects[0].1
      case None =>
        UnnamedActionStays(rows, objects[1..], a);
      case Some(g) =>
        RowWithoutNode(rows.actions, g.nodes, g.edges, a);
        UnnamedActionStays(ApplyGraph(rows, objects[0].0, g), objects[1..], a);
    }
  }

  lemma {:induction false} OtherWorkflowStays(rows: Rows, objects: seq<(string, Option<Graph>)>, wf: string)
    requires wf in rows.workflows && forall k :: 0 <= k < |objects| ==> objects[k].0 != wf
    ensures var r := ApplyGraphs(rows, objects); wf in r.workflows && r.workflows[wf] == rows.workflows[wf]
    decreases |objects|
  {
    if objects != [] {
      match objects[0].1
      case None =>
        OtherWorkflowStays(rows, objects[1..], wf);
      case Some(g) =>
        OtherWorkflowStays(ApplyGraph(rows, objects[0].0, g), objects[1..], wf);
    }
  }

  /** No row comes, goes, or changes its title or workflow. */
  lemma {:induction false} ApplyGraphsKeepsNames(rows: Rows, objects: seq<(string, Option<Graph>)>)
    ensures var r := ApplyGraphs(rows, objects);
            && r.workflows.Keys == rows.workflows.Keys && r.actions.Keys == rows.actions.Keys
            && forall a :: a in rows.actions ==>
                 r.actions[a].title == rows.actions[a].title && r.actions[a].workflow == rows.actions[a].workflow
    decreases |objects|
  {
    if objects != [] {
      match objects[0].1
      case None => ApplyGraphsKeepsNames(rows, objects[1..]);
      case Some(g) =>
        ApplyNodesKeepsNames(rows.actions, g.nodes, g.edges);
        ApplyGraphsKeepsNames(ApplyGraph(rows, objects[0].0, g), objects[1..]);
    }
  }

  lemma ApplyNodesKeepsNames(rows: map<string, Action>, nodes: seq<Node>, edges: seq<Edge>)
    ensures forall a :: a in rows ==>
              var r := ApplyNodes(rows, nodes, edges);
              a in r && r[a].title == rows[a].title && r[a].workflow == rows[a].workflow
  {
    ApplyNodesSpec(rows, nodes, edges);
    forall a | a in rows
      ensures HasUdf(nodes, a) ==> exists i :: LastUdf(nodes, i, a)
    {
      if i :| IsUdf(nodes, i, a) {
        var last := LastUdfExists(nodes, a, i);
      }
    }
  }

  /** Applying all objects is applying those before `q`, then that at `q`, then the rest. */
  lemma SplitAt(rows: Rows, objects: seq<(string, Option<Graph>)>, q: nat)
    requires q < |objects| && objects[q].1.Some?
    ensures ApplyGraphs(rows, objects)
         == ApplyGraphs(ApplyGraph(ApplyGraphs(rows, objects[..q]), objects[q].0, objects[q].1.value), objects[q + 1..])
  {
    assert objects == objects[..q] + objects[q..];
    ApplyGraphsAppend(rows, objects[..q], objects[q..]);
    assert objects[q..][1..] == objects[q + 1..];
  }

  /** The position and the upstream rows of an action alone. */
  ghost predicate TakesUp(after: Rows, a: string, g: Graph) {
    && a in after.actions && after.actions[a].upstream == Incoming(g.edges, a)
    && forall i :: LastUdf(g.nodes, i, a) ==> after.actions[a].position == PositionOf(g.nodes[i])
  }

  lemma UpgradeTakesUp(rows: Rows, objects: seq<(string, Option<Graph>)>, q: nat, a: string)
    requires a in rows.actions && LastNaming(objects, q, a)
    ensures TakesUp(ApplyGraphs(rows, objects), a, objects[q].1.value)
    ensures ApplyGraphs(rows, objects).actions[a].title == rows.actions[a].title
    ensures ApplyGraphs(rows, objects).actions[a].workflow == rows.actions[a].workflow
  {
    var g := objects[q].1.value;
    var before := ApplyGraphs(rows, objects[..q]);
    ApplyGraphsKeepsNames(rows, objects[..q]);
    SplitAt(rows, objects, q);
    ApplyNodesSpec(before.actions, g.nodes, g.edges);
    var i :| IsUdf(g.nodes, i, a);
    var last := LastUdfExists(g.nodes, a, i);
    var later := objects[q + 1..];
    assert forall k :: Names(later, k, a) ==> Names(objects, k + q + 1, a);
    UnnamedActionStays(ApplyGraph(before, objects[q].0, g), later, a);
  }

  /** The upgrade of all workflows gives every action row what the last object with a udf
      node for it says, whichever workflow that is of: the position of its last node of
      this id, missing coordinates being 0, and the rows of its edges into the action. */
  lemma UpgradeActionRow(rows: Rows, objects: seq<(string, Option<Graph>)>, q: nat, a: string)
    requires a in rows.actions && LastNaming(objects, q, a)
    ensures var after, g := ApplyGraphs(rows, objects), objects[q].1.value;
            && a in after.actions
            && after.actions[a].title == rows.actions[a].title
            && after.actions[a].workflow == rows.actions[a].workflow
            && RowsInto(g.edges, a, after.actions[a].upstream)
            && forall i :: LastUdf(g.nodes, i, a) ==>
                 var n, p := g.nodes[i], after.actions[a].position;
                 && p.x == (if n.x.Some? then n.x.value else 0.0)
                 && p.y == (if n.y.Some? then n.y.value else 0.0)
  {
    UpgradeTakesUp(rows, objects, q, a);
    IncomingRows(objects[q].1.value.edges, a);
  }

  lemma UpgradeWorkflowRow(rows: Rows, objects: seq<(string, Option<Graph>)>, q: nat)
    requires q < |objects| && objects[q].1.Some? && objects[q].0 in rows.workflows
    requires forall k :: 0 <= k < |objects| && k != q ==> objects[k].0 != objects[q].0
    ensures var r, wf, g := ApplyGraphs(rows, objects), objects[q].0, objects[q].1.value;
            wf in r.workflows && r.workflows[wf] == ApplyTriggers(rows.workflows[wf], g.nodes, g.view)
  {
    OtherWorkflowStays(rows, objects[..q], objects[q].0);
    SplitAt(rows, objects, q);
    OtherWorkflowStays(ApplyGraph(ApplyGraphs(rows, objects[..q]), objects[q].0, objects[q].1.value),
                       objects[q + 1..], objects[q].0);
  }

  /** The upgrade fills the added columns from the last trigger and the viewport of the
      object; where the object has no trigger, and for actions without a node, they stay as
      they were added: everything 0 but for a zoom of 1. */
  lemma UpgradedColumns(rows: Rows, objects: seq<(string, Option<Graph>)>, q: nat)
    requires q < |objects| && objects[q].1.Some? && objects[q].0 in rows.workflows
    requires forall k :: 0 <= k < |objects| && k != q ==> objects[k].0 != objects[q].0
    ensures var after, wf, g := ApplyGraphs(Defaults(rows), objects), objects[q].0, objects[q].1.value;
            && wf in after.workflows
            && var trigger, viewport := after.workflows[wf].trigger, after.workflows[wf].viewport;
            && (forall t :: LastTrigger(g.nodes, t) ==>
                  var n, v := g.nodes[t], g.view;
                  && trigger.x == (if n.x.Some? then n.x.value else 0.0)
                  && trigger.y == (if n.y.Some? then n.y.value else 0.0)
                  && viewport.x == (if v.x.Some? then v.x.value else 0.0)
                  && viewport.y == (if v.y.Some? then v.y.value else 0.0)
                  && viewport.zoom == (if v.zoom.Some? then v.zoom.value else 1.0))
            && ((forall t :: !IsTrigger(g.nodes, t)) ==>
                  trigger == Point(0.0, 0.0) && viewport == Viewport(0.0, 0.0, 1.0))
    ensures var after := ApplyGraphs(Defaults(rows), objects);
            forall a :: a in rows.actions && (forall k :: !Names(objects, k, a)) ==>
              a in after.actions && after.actions[a].position == Point(0.0, 0.0) && after.actions[a].upstream == []
  {
    var g := objects[q].1.value;
    UpgradeWorkflowRow(Defaults(rows), objects, q);
    ApplyTriggersSpec(NEW_WORKFLOW, g.nodes, g.view);
    forall a | a in rows.actions && forall k :: !Names(objects, k, a)
      ensures ApplyGraphs(Defaults(rows), objects).actions.Keys == rows.actions.Keys
      ensures ApplyGraphs(Defaults(rows), objects).actions[a] == Defaults(rows).actions[a]
    {
      ApplyGraphsKeepsNames(Defaults(rows), objects);
      UnnamedActionStays(Defaults(rows), objects, a);
    }
  }

  /** The listed actions with a udf node in the object. */
  ghost function Live(g: Graph, ids: seq<string>): set<string> {
    set a | a in ids && HasUdf(g.nodes, a)
  }

  /** The rows hold what the object `g` of `wf` says about the workflow and its listed
      actions, and the defaults of the new columns where it says nothing. */
  ghost predicate Carries(after: Rows, wf: string, g: Graph, ids: seq<string>) {
    && wf in after.workflows
    && (forall t :: LastTrigger(g.nodes, t) ==>
          after.workflows[wf] == Workflow(PositionOf(g.nodes[t]), FilledIn(g.view)))
    && ((forall t :: !IsTrigger(g.nodes, t)) ==> after.workflows[wf] == NEW_WORKFLOW)
    && forall a :: a in ids ==> TakesUpOrStays(after, a, g)
  }

  /** After the upgrade of all workflows the rows of each carry its own object, as far as
      no later one has udf nodes for its actions and it has them itself if any object
      does. */
  lemma UpgradeCarries(rows: Rows, objects: seq<(string, Option<Graph>)>, q: nat, ids: seq<string>)
    requires q < |objects| && objects[q].1.Some? && objects[q].0 in rows.workflows
    requires forall k :: 0 <= k < |objects| && k != q ==> objects[k].0 != objects[q].0
    requires forall a :: a in ids ==> a in rows.actions
    requires forall a, k :: a in ids && Names(objects, k, a) ==> LastNaming(objects, q, a)
    ensures Carries(ApplyGraphs(Defaults(rows), objects), objects[q].0, objects[q].1.value, ids)
  {
    var g, after := objects[q].1.value, ApplyGraphs(Defaults(rows), objects);
    UpgradeWorkflowRow(Defaults(rows), objects, q);
    ApplyTriggersSpec(NEW_WORKFLOW, g.nodes, g.view);
    forall a | a in ids
      ensures TakesUpOrStays(after, a, g)
    {
      ListedActionRow(rows, objects, q, a);
    }
  }

  /** The row of a listed action holds what the object says, or the defaults. */
  ghost predicate TakesUpOrStays(after: Rows, a: string, g: Graph) {
    if HasUdf(g.nodes, a) then TakesUp(after, a, g)
    else a in after.actions && after.actions[a].position == ORIGIN && after.actions[a].upstream == []
  }

  lemma ListedActionRow(rows: Rows, objects: seq<(string, Option<Graph>)>, q: nat, a: string)
    requires q < |objects| && objects[q].1.Some? && a in rows.actions
    requires forall k :: Names(objects, k, a) ==> LastNaming(objects, q, a)
    ensures TakesUpOrStays(ApplyGraphs(Defaults(rows), objects), a, objects[q].1.value)
  {
    if HasUdf(objects[q].1.value.nodes, a) {
      assert Names(objects, q, a);
      UpgradeTakesUp(Defaults(rows), objects, q, a);
    } else {
      UnnamedActionStays(Defaults(rows), objects, a);
    }
  }

  // ------------------------------------------------- and back

  /** The object that a downgrade right after the upgrade builds. */
  ghost function Back(after: Rows, wf: string, ids: seq<string>): Graph
    requires wf in after.workflows && forall a :: a in ids ==> a in after.actions
  {
    ToGraph(wf, after.workflows[wf], after.actions, ids)
  }

  /** `n` is placed like the last udf node of this id in `nodes`, or at the origin. */
  ghost predicate PlacedLike(nodes: seq<Node>, n: Node, id: string) {
    && (forall i :: LastUdf(nodes, i, id) ==> PositionOf(n) == PositionOf(nodes[i]))
    && (!HasUdf(nodes, id) ==> PositionOf(n) == ORIGIN)
  }

  /** The `k`-th node of `ns` is the udf node of the `k`-th id, at its place. */
  ghost predicate SamePositions(nodes: seq<Node>, ns: seq<Node>, ids: seq<string>) {
    && |ns| == |ids|
    && forall k :: 0 <= k < |ids| ==> IsUdf(ns, k, ids[k]) && PlacedLike(nodes, ns[k], ids[k])
  }

  lemma RowPlacedLike(after: Rows, a: string, g: Graph)
    requires TakesUpOrStays(after, a, g) && a in after.actions
    ensures PlacedLike(g.nodes, ActionNode(a, after.actions[a]), a)
  {
    forall i | LastUdf(g.nodes, i, a)
      ensures PositionOf(ActionNode(a, after.actions[a])) == PositionOf(g.nodes[i])
    {
      assert HasUdf(g.nodes, a);
    }
  }

  lemma UdfAfterTrigger(nodes: seq<Node>, ids: seq<string>, a: string)
    requires |nodes| == |ids| + 1 && nodes[0].kind == "trigger"
    requires forall k :: 0 <= k < |ids| ==> IsUdf(nodes[1..], k, ids[k])
    ensures HasUdf(nodes, a) <==> a in ids
  {
    if i :| IsUdf(nodes, i, a) {
      assert i > 0 && nodes[i] == nodes[1..][i - 1];
      assert IsUdf(nodes[1..], i - 1, ids[i - 1]);
    }
    if k :| 0 <= k < |ids| && ids[k] == a {
      assert IsUdf(nodes[1..], k, ids[k]) && nodes[k + 1] == nodes[1..][k];
      assert IsUdf(nodes, k + 1, a);
    }
  }

  /** Downgrading gives the listed actions back where they were, and a udf node exactly for
      them: one without a listed row is gone, and a row without a node has got one. */
  lemma UpgradeDowngradeNodes(after: Rows, wf: string, g: Graph, ids: seq<string>)
    requires Carries(after, wf, g, ids)
    ensures var h := Back(after, wf, ids);
            && h.nodes != [] && SamePositions(g.nodes, h.nodes[1..], ids)
            && forall a :: HasUdf(h.nodes, a) <==> a in ids
  {
    var h := Back(after, wf, ids);
    assert h.nodes[1..] == ActionNodes(after.actions, ids);
    ActionNodesAre(after.actions, ids);
    forall k | 0 <= k < |ids|
      ensures IsUdf(h.nodes[1..], k, ids[k]) && PlacedLike(g.nodes, h.nodes[1..][k], ids[k])
    {
      RowPlacedLike(after, ids[k], g);
    }
    forall a
      ensures HasUdf(h.nodes, a) <==> a in ids
    {
      UdfAfterTrigger(h.nodes, ids, a);
    }
  }

  lemma {:induction false} LastTriggerExists(nodes: seq<Node>, i: int) returns (last: int)
    requires IsTrigger(nodes, i)
    ensures LastTrigger(nodes, last)
    decreases |nodes| - i
  {
    if j :| i < j && IsTrigger(nodes, j) {
      last := LastTriggerExists(nodes, j);
    } else {
      last := i;
    }
  }

  /** The position of the last trigger comes back. The viewport, with missing fields
      filled in, does so exactly if there is a trigger or it is the default one. */
  lemma UpgradeDowngradeView(after: Rows, wf: string, g: Graph, ids: seq<string>)
    requires Carries(after, wf, g, ids)
    ensures var h := Back(after, wf, ids);
            && LastTrigger(h.nodes, 0)
            && (forall t :: LastTrigger(g.nodes, t) ==> PositionOf(h.nodes[0]) == PositionOf(g.nodes[t]))
            && (FilledIn(h.view) == FilledIn(g.view) <==>
                  (exists t :: IsTrigger(g.nodes, t)) || FilledIn(g.view) == NEW_WORKFLOW.viewport)
  {
    var h := Back(after, wf, ids);
    assert h.nodes[1..] == ActionNodes(after.actions, ids);
    ActionNodesAre(after.actions, ids);
    forall j | 0 < j
      ensures !IsTrigger(h.nodes, j)
    {
      if j < |h.nodes| {
        assert h.nodes[j] == h.nodes[1..][j - 1];
      }
    }
    if t :| IsTrigger(g.nodes, t) {
      var last := LastTriggerExists(g.nodes, t);
    }
  }

  /** The edges that come back are those into listed actions with a udf node, up to order
      and with normalised handles; all of them exactly if every edge ends in one. */
  lemma UpgradeDowngradeEdges(after: Rows, wf: string, g: Graph, ids: seq<string>)
    requires Carries(after, wf, g, ids) && NoDuplicates(ids)
    ensures var h := Back(after, wf, ids);
            && multiset(h.edges) == multiset(NormalInto(g.edges, Live(g, ids)))
            && (multiset(h.edges) == multiset(NormalAll(g.edges)) <==>
                  forall i :: 0 <= i < |g.edges| ==> Targets(g.edges[i], Live(g, ids)))
  {
    var live := Live(g, ids);
    EdgesOfRows(after.actions, ids, g.edges, live);
    assert Elements(ids) * live == live;
    NormalIntoAll(g.edges, live);
    if multiset(NormalInto(g.edges, live)) == multiset(NormalAll(g.edges)) {
      assert |multiset(NormalInto(g.edges, live))| == |multiset(NormalAll(g.edges))|;
    }
  }

  /** What is left of the object `g`: the nodes of the listed actions, the viewport if there
      is a trigger, and the edges into listed actions with a udf node. */
  ghost predicate Survives(g: Graph, h: Graph, ids: seq<string>) {
    && h.nodes != [] && LastTrigger(h.nodes, 0) && SamePositions(g.nodes, h.nodes[1..], ids)
    && (forall a :: HasUdf(h.nodes, a) <==> a in ids)
    && (forall t :: LastTrigger(g.nodes, t) ==> PositionOf(h.nodes[0]) == PositionOf(g.nodes[t]))
    && (FilledIn(h.view) == FilledIn(g.view) <==>
          (exists t :: IsTrigger(g.nodes, t)) || FilledIn(g.view) == NEW_WORKFLOW.viewport)
    && multiset(h.edges) == multiset(NormalInto(g.edges, Live(g, ids)))
    && (multiset(h.edges) == multiset(NormalAll(g.edges)) <==>
          forall i :: 0 <= i < |g.edges| ==> Targets(g.edges[i], Live(g, ids)))
  }

  /** The upgrade of all workflows and the downgrade after it, for the object at place `q`. */
  lemma UpgradeDowngrade(rows: Rows, objects: seq<(string, Option<Graph>)>, q: nat, ids: seq<string>)
    requires q < |objects| && objects[q].1.Some? && objects[q].0 in rows.workflows
    requires forall k :: 0 <= k < |objects| && k != q ==> objects[k].0 != objects[q].0
    requires NoDuplicates(ids) && forall a :: a in ids ==> a in rows.actions
    requires forall a, k :: a in ids && Names(objects, k, a) ==> LastNaming(objects, q, a)
    ensures var after, wf := ApplyGraphs(Defaults(rows), objects), objects[q].0;
            && wf in after.workflows && (forall a :: a in ids ==> a in after.actions)
            && Survives(objects[q].1.value, Back(after, wf, ids), ids)
  {
    UpgradeCarries(rows, objects, q, ids);
    CarriedSurvives(ApplyGraphs(Defaults(rows), objects), objects[q].0, objects[q].1.value, ids);
  }

  lemma CarriedSurvives(after: Rows, wf: string, g: Graph, ids: seq<string>)
    requires Carries(after, wf, g, ids) && NoDuplicates(ids)
    ensures Survives(g, Back(after, wf, ids), ids)
  {
    UpgradeDowngradeNodes(after, wf, g, ids);
    UpgradeDowngradeView(after, wf, g, ids);
    UpgradeDowngradeEdges(after, wf, g, ids);
  }

  /** A whole upgrade and downgrade that loses the only edge of a workflow: one without a
      target, and also one into a listed action without a node. */
  lemma LostEdge(title: string, target: Option<string>) returns (rows: Rows, g: Graph)
    requires target in {None, Some("a")}
    ensures "w" in rows.workflows && ListsActionA(rows) && |g.edges| == 1 && g.edges[0].target == target
    ensures var after := ApplyGraphs(Defaults(rows), [("w", Some(g))]);
            && "w" in after.workflows && "a" in after.actions
            && Back(after, "w", ["a"]).edges == []
  {
    var trigger := Node("trigger-w", "trigger", None, None, None);
    rows := Rows(map["w" := NEW_WORKFLOW], map["a" := Action("w", title, ORIGIN, [])]);
    g := Graph([trigger], [Edge(Some("trigger-w"), target, None, None)], View(None, None, None));
    var objects := [("w", Some(g))];
    UpgradeCarries(rows, objects, 0, ["a"]);
    var after := ApplyGraphs(Defaults(rows), objects);
    AllEdgesLost(after, "w", g, ["a"]);
  }

  lemma AllEdgesLost(after: Rows, wf: string, g: Graph, ids: seq<string>)
    requires Carries(after, wf, g, ids) && NoDuplicates(ids) && Live(g, ids) == {}
    ensures Back(after, wf, ids).edges == []
  {
    UpgradeDowngradeEdges(after, wf, g, ids);
    NoTargets(g.edges);
    assert |multiset(Back(after, wf, ids).edges)| == 0;
  }

  ghost predicate ListsActionA(rows: Rows) {
    rows.actions.Keys == {"a"} && rows.actions["a"].workflow == "w"
  }
}
