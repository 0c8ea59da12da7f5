/** The data steps of alembic/versions/9079ae19374b_add_action_graph_fields.py: the
    workflow graph as one object, and as fields of the workflow and action rows. */
module GraphMigration {
  import opened Prelude

  datatype Point = Point(x: real, y: real)
  datatype Viewport = Viewport(x: real, y: real, zoom: real)

  // The object form. Fields that the code reads with a default are optional.

  datatype Node = Node(id: string, kind: string, x: Option<real>, y: Option<real>, title: Option<string>)

  datatype Edge = Edge(source: Option<string>, target: Option<string>,
                       camelHandle: Option<string>, snakeHandle: Option<string>)

  datatype View = View(x: Option<real>, y: Option<real>, zoom: Option<real>)

  datatype Graph = Graph(nodes: seq<Node>, edges: seq<Edge>, view: View)

  // The row form.

  datatype Upstream = Upstream(sourceId: Option<string>, sourceType: Option<string>, sourceHandle: Option<string>)

  datatype Action = Action(workflow: string, title: string, position: Point, upstream: seq<Upstream>)

  datatype Workflow = Workflow(trigger: Point, viewport: Viewport)

  datatype Rows = Rows(workflows: map<string, Workflow>, actions: map<string, Action>)

  function Or<T>(o: Option<T>, default: T): T {
    match o
    case Some(v) => v
    case None => default
  }

  predicate StartsWith(s: string, prefix: string) {
    |prefix| <= |s| && s[..|prefix|] == prefix
  }

  // ------------------------------------------------- object to rows

  /** `a or b`, where the empty string counts as missing. */
  function FirstNonEmpty(a: Option<string>, b: Option<string>): Option<string> {
    if a.Some? && a.value != "" then a else b
  }

  function HandleOf(e: Edge): string {
    var h := FirstNonEmpty(e.camelHandle, e.snakeHandle);
    if h == Some("success") || h == Some("error") then h.value else "success"
  }

  function ToUpstream(e: Edge): Upstream {
    var source := Or(e.source, "");
    if StartsWith(source, "trigger-") then Upstream(Some(source), Some("trigger"), None)
    else Upstream(Some(source), Some("udf"), Some(HandleOf(e)))
  }

  /** The rows of the edges into `id`, in order. */
  function Incoming(edges: seq<Edge>, id: string): seq<Upstream> {
    if edges == [] then []
    else (if edges[0].target == Some(id) then [ToUpstream(edges[0])] else []) + Incoming(edges[1..], id)
  }

  function PositionOf(n: Node): Point {
    Point(Or(n.x, 0.0), Or(n.y, 0.0))
  }

  /** A trigger node sets its own position and the viewport. */
  function ApplyTriggers(row: Workflow, nodes: seq<Node>, view: View): Workflow
    decreases |nodes|
  {
    if nodes == [] then row
    else ApplyTriggers(
      if nodes[0].kind == "trigger"
      then Workflow(PositionOf(nodes[0]), Viewport(Or(view.x, 0.0), Or(view.y, 0.0), Or(view.zoom, 1.0)))
      else row,
      nodes[1..], view)
  }

  /** A udf node updates the action row of its id, if there is one. */
  function ApplyNode(actions: map<string, Action>, n: Node, edges: seq<Edge>): (r: map<string, Action>)
    ensures r.Keys == actions.Keys
  {
    if n.kind == "udf" && n.id in actions
    then actions[n.id := actions[n.id].(position := PositionOf(n), upstream := Incoming(edges, n.id))]
    else actions
  }

  function ApplyNodes(actions: map<string, Action>, nodes: seq<Node>, edges: seq<Edge>): (r: map<string, Action>)
    ensures r.Keys == actions.Keys
    decreases |nodes|
  {
    if nodes == [] then actions
    else ApplyNodes(ApplyNode(actions, nodes[0], edges), nodes[1..], edges)
  }

  function ApplyGraph(rows: Rows, wf: string, g: Graph): Rows {
    Rows(if wf in rows.workflows
         then rows.workflows[wf := ApplyTriggers(rows.workflows[wf], g.nodes, g.view)]
         else rows.workflows,
         ApplyNodes(rows.actions, g.nodes, g.edges))
  }

  function ApplyGraphs(rows: Rows, objects: seq<(string, Option<Graph>)>): Rows
    decreases |objects|
  {
    if objects == [] then rows
    else ApplyGraphs(
      match objects[0].1
      case None => rows
      case Some(g) => ApplyGraph(rows, objects[0].0, g),
      objects[1..])
  }

  const ORIGIN := Point(0.0, 0.0)
  const NEW_WORKFLOW := Workflow(ORIGIN, Viewport(0.0, 0.0, 1.0))

  /** The new columns as they are added, with their server defaults. */
  function Defaults(rows: Rows): Rows {
    Rows(map w | w in rows.workflows :: NEW_WORKFLOW,
         map a | a in rows.actions :: rows.actions[a].(position := ORIGIN, upstream := []))
  }

  /** The tables while the upgrade runs. */
  class Tables {
    var workflows: map<string, Workflow>
    var actions: map<string, Action>

    function Value(): Rows
      reads this
    {
      Rows(workflows, actions)
    }

    constructor (rows: Rows)
      ensures Value() == rows
    {
      workflows, actions := rows.workflows, rows.actions;
    }

    method MigrateTriggers(wf: string, nodes: seq<Node>, view: View)
      modifies this`workflows
      ensures workflows == if wf in old(workflows)
                           then old(workflows)[wf := ApplyTriggers(old(workflows)[wf], nodes, view)]
                           else old(workflows)
    {
      for i := 0 to |nodes|
        invariant wf !in old(workflows) ==> workflows == old(workflows)
        invariant wf in old(workflows) ==> wf in workflows && workflows == old(workflows)[wf := workflows[wf]]
        invariant wf in old(workflows) ==>
                    ApplyTriggers(workflows[wf], nodes[i..], view) == ApplyTriggers(old(workflows)[wf], nodes, view)
      {
        assert nodes[i..][1..] == nodes[i + 1..];
        if nodes[i].kind == "trigger" && wf in workflows {
          workflows := workflows[wf := Workflow(
            PositionOf(nodes[i]), Viewport(Or(view.x, 0.0), Or(view.y, 0.0), Or(view.zoom, 1.0)))];
        }
      }
    }

    method MigrateActions(nodes: seq<Node>, edges: seq<Edge>)
      modifies this`actions
      ensures actions == ApplyNodes(old(actions), nodes, edges)
    {
      for i := 0 to |nodes|
        invariant ApplyNodes(actions, nodes[i..], edges) == ApplyNodes(old(actions), nodes, edges)
      {
        assert nodes[i..][1..] == nodes[i + 1..];
        if nodes[i].kind != "udf" {
          continue;
        }
        var id := nodes[i].id;
        var upstream := BuildUpstream(edges, id);
        if id in actions {
          actions := actions[id := actions[id].(position := PositionOf(nodes[i]), upstream := upstream)];
        }
      }
    }

    method Upgrade(objects: seq<(string, Option<Graph>)>)
      modifies this
      ensures Value() == ApplyGraphs(old(Value()), objects)
    {
      for i := 0 to |objects|
        invariant ApplyGraphs(Value(), objects[i..]) == ApplyGraphs(old(Value()), objects)
      {
        assert objects[i..][1..] == objects[i + 1..];
        match objects[i].1
        case None =>
        case Some(g) =>
          MigrateTriggers(objects[i].0, g.nodes, g.view);
          MigrateActions(g.nodes, g.edges);
      }
    }
  }

  /** The row that an edge gives, field by field. The handle counts for edges from actions
      only: it is "error" if the camel-case field says so, or the snake-case one where the
      other is missing or empty, and "success" otherwise. */
  ghost predicate IsRowOf(e: Edge, u: Upstream) {
    var source := if e.source.Some? then e.source.value else "";
    var handle := if e.camelHandle.None? || e.camelHandle.value == "" then e.snakeHandle else e.camelHandle;
    && u.sourceId == Some(source)
    && if "trigger-" <= source then u.sourceType == Some("trigger") && u.sourceHandle == None
       else
         && u.sourceType == Some("udf")
         && u.sourceHandle == Some(if handle == Some("error") then "error" else "success")
  }

  lemma EdgeGivesRow(e: Edge)
    ensures IsRowOf(e, ToUpstream(e))
  {
  }

  /** The rows are those of the edges into `id`, one for each, in their order. */
  ghost predicate RowsInto(edges: seq<Edge>, id: string, us: seq<Upstream>)
    decreases |edges|
  {
    if edges == [] then us == []
    else if edges[0].target == Some(id) then us != [] && IsRowOf(edges[0], us[0]) && RowsInto(edges[1..], id, us[1..])
    else RowsInto(edges[1..], id, us)
  }

  lemma {:induction false} IncomingRows(edges: seq<Edge>, id: string)
    ensures RowsInto(edges, id, Incoming(edges, id))
  {
    if edges != [] {
      var rest := Incoming(edges[1..], id);
      IncomingRows(edges[1..], id);
      EdgeGivesRow(edges[0]);
      if edges[0].target == Some(id) {
        assert Incoming(edges, id)[1..] == rest;
      } else {
        assert Incoming(edges, id) == rest;
      }
    }
  }

  method BuildUpstream(edges: seq<Edge>, id: string) returns (upstream: seq<Upstream>)
    ensures upstream == Incoming(edges, id)
    ensures RowsInto(edges, id, upstream)
  {
    IncomingRows(edges, id);
    upstream := [];
    for i := 0 to |edges|
      invariant upstream + Incoming(edges[i..], id) == Incoming(edges, id)
    {
      assert edges[i..][1..] == edges[i + 1..];
      ghost var rest := Incoming(edges[i + 1..], id);
      if edges[i].target == Some(id) {
        assert upstream + ([ToUpstream(edges[i])] + rest) == (upstream + [ToUpstream(edges[i])]) + rest;
        upstream := upstream + [ToUpstream(edges[i])];
      } else {
        assert [] + rest == rest;
      }
    }
  }

  // ------------------------------------------------- rows to object

  function ToEdge(target: string, u: Upstream): Edge {
    Edge(Some(Or(u.sourceId, "")), Some(target),
         if Or(u.sourceType, "udf") != "trigger" then Some(Or(u.sourceHandle, "success")) else None,
         None)
  }

  function ToEdges(target: string, us: seq<Upstream>): seq<Edge> {
    if us == [] then [] else [ToEdge(target, us[0])] + ToEdges(target, us[1..])
  }

  function ActionNode(id: string, a: Action): Node {
    Node(id, "udf", Some(a.position.x), Some(a.position.y), Some(a.title))
  }

  function ActionNodes(actions: map<string, Action>, ids: seq<string>): seq<Node>
    requires forall id :: id in ids ==> id in actions
  {
    if ids == [] then []
    else [ActionNode(ids[0], actions[ids[0]])] + ActionNodes(actions, ids[1..])
  }

  function ActionEdges(actions: map<string, Action>, ids: seq<string>): seq<Edge>
    requires forall id :: id in ids ==> id in actions
  {
    if ids == [] then []
    else ToEdges(ids[0], actions[ids[0]].upstream) + ActionEdges(actions, ids[1..])
  }

  /** The object of workflow `wf`, its actions listed as `ids`. */
  function ToGraph(wf: string, row: Workflow, actions: map<string, Action>, ids: seq<string>): Graph
    requires forall id :: id in ids ==> id in actions
  {
    Graph([Node("trigger-" + wf, "trigger", Some(row.trigger.x), Some(row.trigger.y), None)]
          + ActionNodes(actions, ids),
          ActionEdges(actions, ids),
          View(Some(row.viewport.x), Some(row.viewport.y), Some(row.viewport.zoom)))
  }

  method BuildNodes(actions: map<string, Action>, ids: seq<string>) returns (nodes: seq<Node>)
    requires forall id :: id in ids ==> id in actions
    ensures nodes == ActionNodes(actions, ids)
  {
    nodes := [];
    for i := 0 to |ids|
      invariant nodes + ActionNodes(actions, ids[i..]) == ActionNodes(actions, ids)
    {
      assert ids[i..][1..] == ids[i + 1..];
      var n := ActionNode(ids[i], actions[ids[i]]);
      Associative(nodes, [n], ActionNodes(actions, ids[i + 1..]));
      nodes := nodes + [n];
    }
  }

  method AppendEdges(edges: seq<Edge>, id: string, upstream: seq<Upstream>) returns (r: seq<Edge>)
    ensures r == edges + ToEdges(id, upstream)
  {
    r := edges;
    for k := 0 to |upstream|
      invariant r + ToEdges(id, upstream[k..]) == edges + ToEdges(id, upstream)
    {
      assert upstream[k..][1..] == upstream[k + 1..];
      Associative(r, [ToEdge(id, upstream[k])], ToEdges(id, upstream[k + 1..]));
      r := r + [ToEdge(id, upstream[k])];
    }
  }

  method BuildEdges(actions: map<string, Action>, ids: seq<string>) returns (edges: seq<Edge>)
    requires forall id :: id in ids ==> id in actions
    ensures edges == ActionEdges(actions, ids)
  {
    edges := [];
    for i := 0 to |ids|
      invariant edges + ActionEdges(actions, ids[i..]) == ActionEdges(actions, ids)
    {
      assert ids[i..][1..] == ids[i + 1..];
      var upstream := actions[ids[i]].upstream;
      Associative(edges, ToEdges(ids[i], upstream), ActionEdges(actions, ids[i + 1..]));
      edges := AppendEdges(edges, ids[i], upstream);
    }
  }

  lemma {:induction false} ActionNodesAre(actions: map<string, Action>, ids: seq<string>)
    requires forall id :: id in ids ==> id in actions
    ensures |ActionNodes(actions, ids)| == |ids|
    ensures forall k :: 0 <= k < |ids| ==> ActionNodes(actions, ids)[k] == ActionNode(ids[k], actions[ids[k]])
  {
    if ids != [] {
      ActionNodesAre(actions, ids[1..]);
    }
  }

  /** The edge that a row of action `target` gives, field by field. */
  ghost predicate IsEdgeOf(target: string, u: Upstream, e: Edge) {
    && e.source == Some(if u.sourceId.Some? then u.sourceId.value else "")
    && e.target == Some(target) && e.snakeHandle == None
    && e.camelHandle == if u.sourceType == Some("trigger") then None
                        else Some(if u.sourceHandle.Some? then u.sourceHandle.value else "success")
  }

  /** The edges are those of the rows, action by action and row by row. */
  ghost predicate EdgesFrom(actions: map<string, Action>, ids: seq<string>, edges: seq<Edge>)
    requires forall id :: id in ids ==> id in actions
    decreases |ids|
  {
    if ids == [] then edges == []
    else
      var us := actions[ids[0]].upstream;
      && |us| <= |edges|
      && (forall j :: 0 <= j < |us| ==> IsEdgeOf(ids[0], us[j], edges[j]))
      && EdgesFrom(actions, ids[1..], edges[|us|..])
  }

  lemma {:induction false} ToEdgesAre(target: string, us: seq<Upstream>)
    ensures |ToEdges(target, us)| == |us|
    ensures forall j :: 0 <= j < |us| ==> IsEdgeOf(target, us[j], ToEdges(target, us)[j])
  {
    if us != [] {
      ToEdgesAre(target, us[1..]);
    }
  }

  lemma {:induction false} ActionEdgesFrom(actions: map<string, Action>, ids: seq<string>)
    requires forall id :: id in ids ==> id in actions
    ensures EdgesFrom(actions, ids, ActionEdges(actions, ids))
  {
    if ids != [] {
      var us := actions[ids[0]].upstream;
      ToEdgesAre(ids[0], us);
      ActionEdgesFrom(actions, ids[1..]);
      assert ActionEdges(actions, ids)[|us|..] == ActionEdges(actions, ids[1..]);
    }
  }

  method DowngradeGraph(wf: string, row: Workflow, actions: map<string, Action>, ids: seq<string>) returns (g: Graph)
    requires forall id :: id in ids ==> id in actions
    ensures g == ToGraph(wf, row, actions, ids)
    ensures |g.nodes| == |ids| + 1
    ensures g.nodes[0] == Node("trigger-" + wf, "trigger", Some(row.trigger.x), Some(row.trigger.y), None)
    ensures forall k :: 0 <= k < |ids| ==>
              var a := actions[ids[k]];
              g.nodes[k + 1] == Node(ids[k], "udf", Some(a.position.x), Some(a.position.y), Some(a.title))
    ensures EdgesFrom(actions, ids, g.edges)
    ensures g.view == View(Some(row.viewport.x), Some(row.viewport.y), Some(row.viewport.zoom))
  {
    ActionNodesAre(actions, ids);
    ActionEdgesFrom(actions, ids);
    var nodes := BuildNodes(actions, ids);
    var edges := BuildEdges(actions, ids);
    g := Graph([Node("trigger-" + wf, "trigger", Some(row.trigger.x), Some(row.trigger.y), None)] + nodes,
               edges,
               View(Some(row.viewport.x), Some(row.viewport.y), Some(row.viewport.zoom)));
  }
}
