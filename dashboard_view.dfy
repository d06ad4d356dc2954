/**
 * The client-side view of the dashboard tree: the view state (tree or list
 * view, selected node, expanded nodes, zoom, pan), the node currently
 * selected, and the search filter over the loaded structure's nodes.
 */
module DashboardView {
  import opened Common
  import opened DashboardSchema

  datatype View = Tree | List

  /** The view state; `zoom` is carried along untouched by the operations here. */
  datatype ViewState = ViewState(
    currentView: View, selectedNodeId: Option<string>, expandedNodes: set<string>,
    zoom: real, pan: Point)

  const InitialView := ViewState(Tree, None, {"main"}, 1.0, Point(0, 0))

  /** `setCurrentView`: the view becomes `v`, nothing else changes. */
  function SetCurrentView(s: ViewState, v: View): (r: ViewState)
    ensures r.currentView == v && r.(currentView := s.currentView) == s
  {
    s.(currentView := v)
  }

  /** `setPan`: the pan becomes `pan`, nothing else changes. */
  function SetPan(s: ViewState, pan: Point): (r: ViewState)
    ensures r.pan == pan && r.(pan := s.pan) == s
  {
    s.(pan := pan)
  }

  /** `toggleNodeExpansion`: copy the set, then delete the id if it is there, else add it. */
  function ToggleNodeExpansion(s: ViewState, id: string): (r: ViewState)
    ensures id in r.expandedNodes <==> id !in s.expandedNodes
    ensures forall other | other != id :: other in r.expandedNodes <==> other in s.expandedNodes
    ensures r.(expandedNodes := s.expandedNodes) == s
  {
    var expanded := if id in s.expandedNodes then s.expandedNodes - {id} else s.expandedNodes + {id};
    s.(expandedNodes := expanded)
  }

  /** Toggling the same node twice restores the view state. */
  lemma ToggleTwice(s: ViewState, id: string)
    ensures ToggleNodeExpansion(ToggleNodeExpansion(s, id), id) == s
  {
    var r := ToggleNodeExpansion(ToggleNodeExpansion(s, id), id);
    assert r.expandedNodes == s.expandedNodes;
  }

  /** Each setter changes its own field only, so the two commute and repeating one is idle. */
  lemma SettersAreIndependent(s: ViewState, v: View, pan: Point)
    ensures SetPan(SetCurrentView(s, v), pan) == SetCurrentView(SetPan(s, pan), v)
    ensures SetCurrentView(s, v).(currentView := s.currentView) == s && SetCurrentView(s, v).currentView == v
    ensures SetPan(s, pan).(pan := s.pan) == s && SetPan(s, pan).pan == pan
    ensures SetCurrentView(SetCurrentView(s, v), v) == SetCurrentView(s, v)
  {
  }

  /** `selectedNode`: nothing without a structure or a (non-empty) selected id, else the stored node if any. */
  function SelectedNode(structure: Option<Structure>, s: ViewState): (r: Option<Node>)
    ensures r.Some? <==> structure.Some? && Truthy(s.selectedNodeId) && s.selectedNodeId.value in structure.value.nodes
    ensures r.Some? ==> r.value == structure.value.nodes[s.selectedNodeId.value]
  {
    if structure.None? || !Truthy(s.selectedNodeId) then None
    else if s.selectedNodeId.value in structure.value.nodes then Some(structure.value.nodes[s.selectedNodeId.value])
    else None
  }

  /** Some tag of `tags`, lower-cased, contains `q`. */
  predicate SomeTagContains(tags: seq<string>, q: string) {
    exists i | 0 <= i < |tags| :: Contains(ToLower(tags[i]), q)
  }

  /** The search test against the lower-cased query `q`: name, description or some tag contains it. */
  predicate Matches(n: Node, q: string) {
    || Contains(ToLower(n.name), q)
    || (n.description.Some? && Contains(ToLower(n.description.value), q))
    || SomeTagContains(n.metadata.tags, q)
  }

  /** `order` lists every key of `nodes` once: the iteration order of `Object.values`. */
  predicate Enumerates(order: seq<string>, nodes: map<string, Node>) {
    Distinct(order) && (forall i | 0 <= i < |order| :: order[i] in nodes) && (forall k | k in nodes :: k in order)
  }

  /**
   * The record the search loop fills: the matching nodes visited in
   * `order`, each stored under its own `id` (a later one replaces an earlier
   * one with the same id).
   */
  function Collected(nodes: map<string, Node>, q: string, order: seq<string>): (r: map<string, Node>)
    requires forall i | 0 <= i < |order| :: order[i] in nodes
    decreases |order|
    ensures forall k | k in r :: r[k].id == k && Matches(r[k], q)
  {
    if order == [] then map[]
    else
      var m := Collected(nodes, q, order[..|order| - 1]);
      var n := nodes[order[|order| - 1]];
      if Matches(n, q) then m[n.id := n] else m
  }

  /**
   * Every collected node matches and is stored under its id, comes from the
   * map, and every matching node visited has its id collected.
   */
  lemma {:induction false} CollectedSound(nodes: map<string, Node>, q: string, order: seq<string>)
    requires forall i | 0 <= i < |order| :: order[i] in nodes
    decreases |order|
    ensures var m := Collected(nodes, q, order);
      && (forall id | id in m :: m[id].id == id && Matches(m[id], q)
                                  && exists i | 0 <= i < |order| :: nodes[order[i]] == m[id])
      && (forall i | 0 <= i < |order| && Matches(nodes[order[i]], q) :: nodes[order[i]].id in m)
  {
    if order != [] {
      var init := order[..|order| - 1];
      CollectedSound(nodes, q, init);
      var m := Collected(nodes, q, order);
      forall id | id in m
        ensures exists i | 0 <= i < |order| :: nodes[order[i]] == m[id]
      {
        if m[id] != nodes[order[|order| - 1]] {
          var i :| 0 <= i < |init| && nodes[init[i]] == m[id];
          assert order[i] == init[i];
        }
      }
      forall i | 0 <= i < |order| && Matches(nodes[order[i]], q)
        ensures nodes[order[i]].id in m
      {
        if i < |init| {
          assert init[i] == order[i];
        }
      }
    }
  }

  /**
   * When every node is stored under its own id, the search result is the
   * sub-map of the matching nodes, whatever the iteration order.
   */
  lemma {:induction false} CollectedKeyed(nodes: map<string, Node>, q: string, order: seq<string>)
    requires Enumerates(order, nodes)
    requires forall k | k in nodes :: nodes[k].id == k
    ensures Collected(nodes, q, order) == map k | k in nodes && Matches(nodes[k], q) :: nodes[k]
  {
    var m := Collected(nodes, q, order);
    CollectedSound(nodes, q, order);
    forall k | k in nodes && Matches(nodes[k], q) ensures k in m && m[k] == nodes[k] {
      assert k in order;
      var i :| 0 <= i < |order| && order[i] == k;
      assert nodes[order[i]].id == k;
      var j :| 0 <= j < |order| && nodes[order[j]] == m[k];
      assert nodes[order[j]].id == k;
    }
    forall k | k in m ensures k in nodes && Matches(nodes[k], q) {
      var j :| 0 <= j < |order| && nodes[order[j]] == m[k];
      assert order[j] == k;
    }
  }

  /**
   * `filteredNodes`: no structure gives `{}`, a blank query the whole map,
   * otherwise the loop over the nodes collects the matches of the
   * lower-cased (untrimmed) query.
   */
  method FilteredNodes(structure: Option<Structure>, query: string, order: seq<string>)
      returns (r: map<string, Node>)
    requires structure.Some? ==> Enumerates(order, structure.value.nodes)
    ensures structure.None? ==> r == map[]
    ensures structure.Some? && IsBlank(query) ==> r == structure.value.nodes
    ensures structure.Some? && !IsBlank(query) ==> r == Collected(structure.value.nodes, ToLower(query), order)
  {
    if structure.None? || IsBlank(query) {
      return if structure.Some? then structure.value.nodes else map[];
    }
    var nodes := structure.value.nodes;
    var q := ToLower(query);
    r := map[];
    for i := 0 to |order|
      invariant r == Collected(nodes, q, order[..i])
    {
      assert order[..i + 1][..i] == order[..i];
      var node := nodes[order[i]];
      if Matches(node, q) {
        r := r[node.id := node];
      }
    }
    assert order[..|order|] == order;
  }
}
