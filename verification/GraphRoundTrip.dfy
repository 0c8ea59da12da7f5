/** What the two directions of the graph migration preserve. */
module GraphRoundTrip {
  import opened Prelude
  import opened GraphMigration

  // ------------------------------------------------- rows to object and back

  /** A row of `upstream_edges` as the upgrade writes it. */
  ghost predicate Canonical(u: Upstream) {
    && u.sourceId.Some?
    && if StartsWith(u.sourceId.value, "trigger-")
       then u.sourceType == Some("trigger") && u.sourceHandle == None
       else u.sourceType == Some("udf") && (u.sourceHandle == Some("success") || u.sourceHandle == Some("error"))
  }

  /** A row of `upstream_edges` after a downgrade and an upgrade. */
  ghost function Rewritten(u: Upstream): Upstream {
    ToUpstream(ToEdge("", u))
  }

  lemma RewrittenCanonical(u: Upstream)
    ensures Canonical(Rewritten(u))
    ensures Rewritten(u) == u <==> Canonical(u)
    ensures forall t :: ToUpstream(ToEdge(t, u)) == Rewritten(u)
  {
  }

  ghost function RewrittenAll(us: seq<Upstream>): (r: seq<Upstream>)
    ensures |r| == |us|
    ensures forall i :: 0 <= i < |us| ==> r[i] == Rewritten(us[i])
  {
    if us == [] then [] else [Rewritten(us[0])] + RewrittenAll(us[1..])
  }

  lemma {:induction false} IncomingAppend(a: seq<Edge>, b: seq<Edge>, id: string)
    ensures Incoming(a + b, id) == Incoming(a, id) + Incoming(b, id)
  {
    if a == [] {
      assert a + b == b;
      assert [] + Incoming(b, id) == Incoming(b, id);
    } else {
      IncomingAppend(a[1..], b, id);
      assert (a + b)[1..] == a[1..] + b;
      var head := if a[0].target == Some(id) then [ToUpstream(a[0])] else [];
      Associative(head, Incoming(a[1..], id), Incoming(b, id));
    }
  }

  lemma {:induction false} IncomingOfEdges(target: string, us: seq<Upstream>, id: string)
    ensures Incoming(ToEdges(target, us), id) == if id == target then RewrittenAll(us) else []
  {
    if us != [] {
      IncomingOfEdges(target, us[1..], id);
      RewrittenCanonical(us[0]);
      assert ToEdges(target, us)[1..] == ToEdges(target, us[1..]);
    }
  }

  lemma {:induction false} IncomingOfActions(actions: map<string, Action>, ids: seq<string>, id: string)
    requires NoDuplicates(ids) && forall a :: a in ids ==> a in actions
    ensures Incoming(ActionEdges(actions, ids), id) == if id in ids then RewrittenAll(actions[id].upstream) else []
  {
    if ids != [] {
      IncomingOfActions(actions, ids[1..], id);
      IncomingOfEdges(ids[0], actions[ids[0]].upstream, id);
      IncomingAppend(ToEdges(ids[0], actions[ids[0]].upstream), ActionEdges(actions, ids[1..]), id);
      assert ids[0] !in ids[1..];
    }
  }

  lemma {:induction false} NoTriggersAmongActions(row: Workflow, actions: map<string, Action>, ids: seq<string>,
                                                  view: View)
    requires forall a :: a in ids ==> a in actions
    ensures ApplyTriggers(row, ActionNodes(actions, ids), view) == row
  {
    if ids != [] {
      NoTriggersAmongActions(row, actions, ids[1..], view);
      assert ActionNodes(actions, ids)[1..] == ActionNodes(actions, ids[1..]);
    }
  }

  /** The action nodes update exactly the rows of their ids. */
  lemma {:induction false} ApplyActionNodes(rows: map<string, Action>, actions: map<string, Action>, ids: seq<string>,
                                            edges: seq<Edge>)
    requires NoDuplicates(ids) && forall a :: a in ids ==> a in actions && a in rows
    ensures var r := ApplyNodes(rows, ActionNodes(actions, ids), edges);
            && r.Keys == rows.Keys
            && forall a :: a in rows ==>
                 r[a] == if a in ids then rows[a].(position := actions[a].position, upstream := Incoming(edges, a))
                        else rows[a]
  {
    if ids != [] {
      var nodes := ActionNodes(actions, ids);
      assert nodes[1..] == ActionNodes(actions, ids[1..]);
      assert ids[0] !in ids[1..];
      ApplyActionNodes(ApplyNode(rows, nodes[0], edges), actions, ids[1..], edges);
    }
  }

  /** `ids` lists the actions of workflow `wf`, in any order. */
  ghost predicate ListsActions(rows: Rows, wf: string, ids: seq<string>) {
    NoDuplicates(ids) && forall a :: a in ids <==> a in rows.actions && rows.actions[a].workflow == wf
  }

  /** Every action belongs to a stored workflow, and the listings name its actions. */
  ghost predicate Consistent(rows: Rows, listing: string -> seq<string>) {
    && (forall a :: a in rows.actions ==> rows.actions[a].workflow in rows.workflows)
    && (forall w :: w in rows.workflows ==> ListsActions(rows, w, listing(w)))
  }

  function Objects(rows: Rows, order: seq<string>, listing: string -> seq<string>): seq<(string, Option<Graph>)>
    requires forall w :: w in order ==> w in rows.workflows && forall a :: a in listing(w) ==> a in rows.actions
  {
    if order == [] then []
    else [(order[0], Some(ToGraph(order[0], rows.workflows[order[0]], rows.actions, listing(order[0]))))]
         + Objects(rows, order[1..], listing)
  }

  /** The downgrade of all workflows. */
  method Downgrade(rows: Rows, order: seq<string>, listing: string -> seq<string>)
    returns (objects: seq<(string, Option<Graph>)>)
    requires forall w :: w in order ==> w in rows.workflows && forall a :: a in listing(w) ==> a in rows.actions
    ensures objects == Objects(rows, order, listing)
  {
    objects := [];
    for i := 0 to |order|
      invariant objects + Objects(rows, order[i..], listing) == Objects(rows, order, listing)
    {
      assert order[i..][1..] == order[i + 1..];
      var g := DowngradeGraph(order[i], rows.workflows[order[i]], rows.actions, listing(order[i]));
      Associative(objects, [(order[i], Some(g))], Objects(rows, order[i + 1..], listing));
      objects := objects + [(order[i], Some(g))];
    }
  }

  ghost function RestoredAction(act: Action, done: set<string>): Action {
    if act.workflow in done then act.(upstream := RewrittenAll(act.upstream))
    else act.(position := ORIGIN, upstream := [])
  }

  ghost function RestoredWorkflow(w: string, row: Workflow, done: set<string>): Workflow {
    if w in done then row else NEW_WORKFLOW
  }

  /** The rows in the middle of an upgrade: the workflows in `done` have their values
      back, the others still hold the defaults. */
  ghost function Restored(rows: Rows, done: set<string>): Rows {
    Rows(map w | w in rows.workflows :: RestoredWorkflow(w, rows.workflows[w], done),
         map a | a in rows.actions :: RestoredAction(rows.actions[a], done))
  }

  lemma RestoreTriggers(row: Workflow, w: string, rows: Rows, ids: seq<string>)
    requires w in rows.workflows && forall a :: a in ids ==> a in rows.actions
    ensures var g := ToGraph(w, rows.workflows[w], rows.actions, ids);
            ApplyTriggers(row, g.nodes, g.view) == rows.workflows[w]
  {
    var g := ToGraph(w, rows.workflows[w], rows.actions, ids);
    assert g.nodes[1..] == ActionNodes(rows.actions, ids);
    NoTriggersAmongActions(rows.workflows[w], rows.actions, ids, g.view);
  }

  lemma RestoreActions(rows: Rows, w: string, ids: seq<string>, done: set<string>)
    requires w in rows.workflows && ListsActions(rows, w, ids)
    ensures var g := ToGraph(w, rows.workflows[w], rows.actions, ids);
            ApplyNodes(Restored(rows, done).actions, g.nodes, g.edges) == Restored(rows, done + {w}).actions
  {
    var before := Restored(rows, done).actions;
    var g := ToGraph(w, rows.workflows[w], rows.actions, ids);
    assert g.nodes[1..] == ActionNodes(rows.actions, ids);
    ApplyActionNodes(before, rows.actions, ids, g.edges);
    var after := ApplyNodes(before, g.nodes, g.edges);
    assert after == ApplyNodes(before, ActionNodes(rows.actions, ids), g.edges);
    forall a | a in rows.actions
      ensures after[a] == RestoredAction(rows.actions[a], done + {w})
    {
      IncomingOfActions(rows.actions, ids, a);
    }
  }

  lemma RestoreOne(rows: Rows, listing: string -> seq<string>, w: string, done: set<string>)
    requires Consistent(rows, listing) && w in rows.workflows
    ensures ApplyGraph(Restored(rows, done), w, ToGraph(w, rows.workflows[w], rows.actions, listing(w)))
         == Restored(rows, done + {w})
  {
    RestoreTriggers(Restored(rows, done).workflows[w], w, rows, listing(w));
    RestoreActions(rows, w, listing(w), done);
    assert Restored(rows, done).workflows[w := rows.workflows[w]] == Restored(rows, done + {w}).workflows;
  }

  lemma {:induction false} RestoreAll(rows: Rows, order: seq<string>, listing: string -> seq<string>, done: set<string>)
    requires Consistent(rows, listing) && forall w :: w in order ==> w in rows.workflows
    ensures ApplyGraphs(Restored(rows, done), Objects(rows, order, listing))
         == Restored(rows, done + Elements(order))
    decreases |order|
  {
    if order == [] {
      assert done + Elements(order) == done;
    } else {
      var w, rest := order[0], order[1..];
      RestoreOne(rows, listing, w, done);
      RestoreAll(rows, rest, listing, done + {w});
      ObjectsStep(rows, order, listing, Restored(rows, done));
      ElementsStep(order, done);
    }
  }

  lemma ElementsStep(order: seq<string>, done: set<string>)
    requires order != []
    ensures done + {order[0]} + Elements(order[1..]) == done + Elements(order)
  {
    assert order == [order[0]] + order[1..];
  }

  lemma ObjectsStep(rows: Rows, order: seq<string>, listing: string -> seq<string>, state: Rows)
    requires order != []
    requires forall w :: w in order ==> w in rows.workflows && forall a :: a in listing(w) ==> a in rows.actions
    ensures var w := order[0];
            var g := ToGraph(w, rows.workflows[w], rows.actions, listing(w));
            ApplyGraphs(state, Objects(rows, order, listing))
            == ApplyGraphs(ApplyGraph(state, w, g), Objects(rows, order[1..], listing))
  {
    assert Objects(rows, order, listing)[1..] == Objects(rows, order[1..], listing);
  }

  ghost predicate CanonicalRows(rows: Rows) {
    forall a, i :: a in rows.actions && 0 <= i < |rows.actions[a].upstream| ==> Canonical(rows.actions[a].upstream[i])
  }

  lemma RewrittenAllCanonical(us: seq<Upstream>)
    ensures forall i :: 0 <= i < |us| ==> Canonical(RewrittenAll(us)[i])
    ensures RewrittenAll(us) == us <==> forall i :: 0 <= i < |us| ==> Canonical(us[i])
  {
    forall i | 0 <= i < |us|
      ensures Canonical(RewrittenAll(us)[i])
      ensures RewrittenAll(us)[i] == us[i] <==> Canonical(us[i])
    {
      RewrittenCanonical(us[i]);
    }
  }

  lemma RestoredCanonical(rows: Rows, all: set<string>)
    requires all == rows.workflows.Keys && forall a :: a in rows.actions ==> rows.actions[a].workflow in all
    ensures CanonicalRows(Restored(rows, all))
    ensures Restored(rows, all) == rows <==> CanonicalRows(rows)
  {
    var r := Restored(rows, all);
    forall a | a in rows.actions
      ensures r.actions[a].upstream == RewrittenAll(rows.actions[a].upstream)
      ensures forall i :: 0 <= i < |r.actions[a].upstream| ==> Canonical(r.actions[a].upstream[i])
      ensures r.actions[a] == rows.actions[a] <==>
                forall i :: 0 <= i < |rows.actions[a].upstream| ==> Canonical(rows.actions[a].upstream[i])
    {
      RewrittenAllCanonical(rows.actions[a].upstream);
    }
    assert r.workflows == rows.workflows;
    assert r == rows <==> forall a :: a in rows.actions ==> r.actions[a] == rows.actions[a] by {
      if forall a :: a in rows.actions ==> r.actions[a] == rows.actions[a] {
        assert r.actions == rows.actions;
      }
    }
  }

  /** A row without a handle, which the downgrade reads as "success", comes back with one. */
  lemma MissingHandleIsFilledIn(source: string)
    requires !StartsWith(source, "trigger-")
    ensures var u := Upstream(Some(source), Some("udf"), None);
            !Canonical(u) && Rewritten(u) == Upstream(Some(source), Some("udf"), Some("success"))
  {
  }

  /** Downgrading and upgrading again restores the trigger positions, viewports, action
      positions and upstream lists of all workflows, in any order of processing, exactly
      when every upstream row is canonical; otherwise the rows come back canonical. */
  lemma DowngradeUpgradeRoundTrip(rows: Rows, order: seq<string>, listing: string -> seq<string>)
    requires Consistent(rows, listing) && Elements(order) == rows.workflows.Keys
    requires forall w :: w in order ==> w in rows.workflows
    ensures var r := ApplyGraphs(Defaults(rows), Objects(rows, order, listing));
            && r == Restored(rows, rows.workflows.Keys)
            && CanonicalRows(r)
            && (r == rows <==> CanonicalRows(rows))
  {
    RestoreAll(rows, order, listing, {});
    RestoredNothing(rows);
    assert {} + Elements(order) == rows.workflows.Keys;
    RestoredCanonical(rows, rows.workflows.Keys);
  }

  lemma RestoredNothing(rows: Rows)
    ensures Restored(rows, {}) == Defaults(rows)
  {
  }
}
