/** The scenario viewer: the hierarchy maps it reads from the fetched
    objects, the nodes and edges it hands to the engine at first, the
    colours it assigns, and the expand and collapse transitions. */
module Viewer {
  import opened Wrappers
  import opened Seqs
  import opened Attributes
  import opened Graph
  import opened Multimap
  import opened DatabaseService
  import opened Hierarchy
  import opened Colors
  import opened Clusters
  import opened Handler
  import opened DotWriter

  /** The configured node property clusters are formed by. */
  const GroupingAttribute := "institution"

  /** The configured `showNodes`: every node is shown at first. */
  const ShowNodes := true

  /** What ends a handler early. The source throws a `TypeError` in each of
      these cases, which rejects the handler's promise with the work done
      so far kept. */
  datatype ViewError =
    | NotIterable        // `for...of` or `forEach` over `undefined`
    | MissingNode        // a property read on a node the index lacks
    | MissingEdge        // a property read on an edge the index lacks
    | Engine(handlerError: HandlerError)
    | Unresolved(symbolError: SymbolError)
    | Diverged           // an ancestor walk of expand that never ends

  // ---------------------------------------------------------------------
  // The node and edge indexes

  /** `new Map(nodeData.map(n => [n.id, n]))`: a later node with the same
      id replaces an earlier one. */
  function NodeIndex(ns: seq<D3Node>): (m: map<Id, D3Node>)
    ensures forall k :: k in m ==> m[k].id == k
    ensures forall k :: k in m <==> k in Ids(ns)
  {
    if ns == [] then map[]
    else
      var n := ns[|ns| - 1];
      assert ns == ns[..|ns| - 1] + [n];
      IdsAppend(ns[..|ns| - 1], n);
      NodeIndex(ns[..|ns| - 1])[n.id := n]
  }

  /** `new Map(edgeData.map(e => [e.id, e]))`. */
  function EdgeIndex(es: seq<D3Edge>): (m: map<Id, D3Edge>)
    ensures forall k :: k in m ==> m[k].id == k
    ensures forall i :: 0 <= i < |es| ==> es[i].id in m
  {
    if es == [] then map[]
    else
      var e := es[|es| - 1];
      var prev := EdgeIndex(es[..|es| - 1]);
      assert forall i :: 0 <= i < |es| - 1 ==> es[..|es| - 1][i] == es[i];
      prev[e.id := e]
  }

  // ---------------------------------------------------------------------
  // The nodes handed to the engine

  /** `node.labels[0]`: `undefined` for a node without labels. */
  function FirstLabel(n: D3Node): Value {
    if n.labels == [] then Undefined else Str(n.labels[0])
  }

  /** The label shown: `nameShort` when the properties have it, `name`
      otherwise. */
  function DisplayName(n: D3Node): Value {
    if HasKey(n.properties, "nameShort") then Lookup(n.properties, "nameShort") else Lookup(n.properties, "name")
  }

  /** The node's grouping value, the name of its cluster. */
  function GroupOf(n: D3Node): Value {
    Lookup(n.properties, GroupingAttribute)
  }

  /** The engine node built for a data node, with its image and colour. */
  function MakeNode(n: D3Node, image: Value, color: string): Node {
    Node(n.id, FirstLabel(n), "parent" in n.labels, "origin" in n.labels,
      [("id", Str(n.id)), ("label", DisplayName(n)), ("image", image), ("nodeColor", Str(color))])
  }

  /** Whether a cluster receives the node at first: the node belongs to
      its group and, with every node shown, is not a parent, or, with the
      hierarchy collapsed, is no one's child. */
  predicate Selected(n: D3Node, clusterName: Value, showAllNodes: bool, childParentMap: map<Id, Id>) {
    GroupOf(n) == clusterName &&
    if showAllNodes then "parent" !in n.labels else n.id !in childParentMap
  }

  /** The nodes a cluster receives at first, in data order. */
  function Chosen(nodeData: seq<D3Node>, clusterName: Value, showAllNodes: bool, childParentMap: map<Id, Id>): seq<D3Node> {
    if nodeData == [] then []
    else
      var n := nodeData[|nodeData| - 1];
      Chosen(nodeData[..|nodeData| - 1], clusterName, showAllNodes, childParentMap)
        + (if Selected(n, clusterName, showAllNodes, childParentMap) then [n] else [])
  }

  /** A cluster receives exactly the nodes of the data that are selected
      for it. */
  lemma {:induction false} ChosenMembers(nodeData: seq<D3Node>, clusterName: Value, showAllNodes: bool, childParentMap: map<Id, Id>, n: D3Node)
    ensures n in Chosen(nodeData, clusterName, showAllNodes, childParentMap) <==>
      n in nodeData && Selected(n, clusterName, showAllNodes, childParentMap)
  {
    if nodeData != [] {
      var init := nodeData[..|nodeData| - 1];
      ChosenMembers(init, clusterName, showAllNodes, childParentMap, n);
      assert nodeData == init + [nodeData[|nodeData| - 1]];
    }
  }

  lemma ChosenStep(nodeData: seq<D3Node>, clusterName: Value, showAllNodes: bool, childParentMap: map<Id, Id>, i: nat)
    requires i < |nodeData|
    ensures Chosen(nodeData[..i + 1], clusterName, showAllNodes, childParentMap) ==
      Chosen(nodeData[..i], clusterName, showAllNodes, childParentMap)
        + (if Selected(nodeData[i], clusterName, showAllNodes, childParentMap) then [nodeData[i]] else [])
  {
    assert nodeData[..i + 1][..i] == nodeData[..i];
  }

  /** The engine node carries the data node's id, its first label as
      type, and whether it is a parent or an origin. */
  predicate BuiltFrom(m: Node, n: D3Node) {
    m.id == n.id && m.kind == FirstLabel(n)
    && m.parent == ("parent" in n.labels) && m.origin == ("origin" in n.labels)
  }

  /** The engine nodes built for a list of data nodes, each coloured in
      turn, and the palette after. */
  function BuildNodes(p: Palette, ns: seq<D3Node>, images: Value -> Value): (r: (seq<Node>, Palette))
    ensures |r.0| == |ns|
  {
    if ns == [] then ([], p)
    else
      var prev := BuildNodes(p, ns[..|ns| - 1], images);
      var n := ns[|ns| - 1];
      var colored := AssignColor(prev.1, ColorKey(NodeColor(n)));
      (prev.0 + [MakeNode(n, images(FirstLabel(n)), colored.0)], colored.1)
  }

  /** Building keeps the palette what is left of the configured set. */
  lemma {:induction false} BuildNodesRest(p: Palette, ns: seq<D3Node>, images: Value -> Value)
    requires IsRest(p)
    ensures IsRest(BuildNodes(p, ns, images).1)
  {
    if ns != [] {
      BuildNodesRest(p, ns[..|ns| - 1], images);
      ColorFromSet(BuildNodes(p, ns[..|ns| - 1], images).1, ColorKey(NodeColor(ns[|ns| - 1])));
    }
  }

  lemma BuildNodesStep(p: Palette, ns: seq<D3Node>, n: D3Node, images: Value -> Value)
    ensures BuildNodes(p, ns + [n], images) ==
      var colored := AssignColor(BuildNodes(p, ns, images).1, ColorKey(NodeColor(n)));
      (BuildNodes(p, ns, images).0 + [MakeNode(n, images(FirstLabel(n)), colored.0)], colored.1)
  {
    assert (ns + [n])[..|ns|] == ns;
  }

  lemma MakeNodeBuilt(n: D3Node, image: Value, color: string)
    ensures BuiltFrom(MakeNode(n, image, color), n)
  {
  }

  /** The built node at place `i` comes from the data node there. */
  lemma {:induction false} BuiltAt(p: Palette, ns: seq<D3Node>, images: Value -> Value, i: nat)
    requires i < |ns|
    ensures BuiltFrom(BuildNodes(p, ns, images).0[i], ns[i])
  {
    var init, n := ns[..|ns| - 1], ns[|ns| - 1];
    var prev := BuildNodes(p, init, images);
    var colored := AssignColor(prev.1, ColorKey(NodeColor(n)));
    var built := prev.0 + [MakeNode(n, images(FirstLabel(n)), colored.0)];
    assert BuildNodes(p, ns, images).0 == built;
    if i < |init| {
      BuiltAt(p, init, images, i);
      assert built[i] == prev.0[i] && ns[i] == init[i];
    } else {
      assert i == |init|;
      MakeNodeBuilt(n, images(FirstLabel(n)), colored.0);
    }
  }

  /** Each built node comes from the data node at its place. */
  lemma BuildNodesFrom(p: Palette, ns: seq<D3Node>, images: Value -> Value)
    ensures forall i :: 0 <= i < |ns| ==> BuiltFrom(BuildNodes(p, ns, images).0[i], ns[i])
  {
    forall i | 0 <= i < |ns| {
      BuiltAt(p, ns, images, i);
    }
  }

  /** The built nodes carry the data nodes' ids, in order. */
  lemma BuiltIds(p: Palette, ns: seq<D3Node>, images: Value -> Value)
    ensures NodeIds(BuildNodes(p, ns, images).0) == Ids(ns)
  {
    var built := BuildNodes(p, ns, images).0;
    BuildNodesFrom(p, ns, images);
    assert forall j :: 0 <= j < |ns| ==> NodeIds(built)[j] == Ids(ns)[j];
  }

  /** The unique grouping values, `[...new Set(nodeData.map(...))]`, in
      order of first appearance: one cluster each. */
  function UniqueGroups(nodeData: seq<D3Node>): seq<Value> {
    Dedup(seq(|nodeData|, i requires 0 <= i < |nodeData| => GroupOf(nodeData[i])))
  }

  /** Every node's group has exactly one cluster. */
  lemma GroupsOnce(nodeData: seq<D3Node>, k: nat) returns (i: nat)
    requires k < |nodeData|
    ensures i < |UniqueGroups(nodeData)| && UniqueGroups(nodeData)[i] == GroupOf(nodeData[k])
    ensures forall j :: 0 <= j < |UniqueGroups(nodeData)| && UniqueGroups(nodeData)[j] == GroupOf(nodeData[k]) ==> j == i
  {
    var values := seq(|nodeData|, i requires 0 <= i < |nodeData| => GroupOf(nodeData[i]));
    assert values[k] == GroupOf(nodeData[k]);
    var gs := UniqueGroups(nodeData);
    assert GroupOf(nodeData[k]) in gs;
    i :| 0 <= i < |gs| && gs[i] == GroupOf(nodeData[k]);
  }

  /** Resolution without a throw keeps every node's id. */
  lemma ResolvedIds(ns: seq<Node>)
    requires ResolveAll(ns).1.None?
    ensures NodeIds(ResolveAll(ns).0) == NodeIds(ns)
  {
    var r := ResolveAll(ns).0;
    forall i | 0 <= i < |r|
      ensures r[i].id == ns[i].id
    {
      ResolveWithResolves(AddSymbol, ns, i);
    }
  }

  // ---------------------------------------------------------------------
  // Expand

  /** The listed children the node index knows, in list order. */
  function Present(children: seq<Id>, nodeMap: map<Id, D3Node>): seq<Id> {
    if children == [] then []
    else
      var c := children[|children| - 1];
      Present(children[..|children| - 1], nodeMap) + (if c in nodeMap then [c] else [])
  }

  /** Expand adds exactly the listed children the node index knows. */
  lemma {:induction false} PresentMembers(children: seq<Id>, nodeMap: map<Id, D3Node>, c: Id)
    ensures c in Present(children, nodeMap) <==> c in children && c in nodeMap
  {
    if children != [] {
      var init := children[..|children| - 1];
      PresentMembers(init, nodeMap, c);
      assert children == init + [children[|children| - 1]];
    }
  }

  lemma PresentStep(children: seq<Id>, nodeMap: map<Id, D3Node>, i: nat)
    requires i < |children|
    ensures Present(children[..i + 1], nodeMap) ==
      Present(children[..i], nodeMap) + (if children[i] in nodeMap then [children[i]] else [])
  {
    assert children[..i + 1][..i] == children[..i];
  }

  /** The clusters' views, the palette and the registries after adding,
      in turn, each listed id the node index knows: its data node, with its
      image and the colour it is assigned, goes to the first cluster named
      after its group, and is recorded when it resolves. */
  function Additions(cs: seq<Cluster>, vs: seq<ClusterView>, p: Palette, reg: Registry, ids: seq<Id>,
                     nodeMap: map<Id, D3Node>, images: Value -> Value): (r: (seq<ClusterView>, Palette, Registry))
    ensures |r.0| == |vs|
  {
    if ids == [] then (vs, p, reg)
    else
      var prev := Additions(cs, vs, p, reg, ids[..|ids| - 1], nodeMap, images);
      var c := ids[|ids| - 1];
      if c !in nodeMap then prev
      else
        var n := nodeMap[c];
        var colored := AssignColor(prev.1, ColorKey(NodeColor(n)));
        var node := MakeNode(n, images(FirstLabel(n)), colored.0);
        var k := ClusterIndexByName(cs, GroupOf(n));
        (AddedAt(prev.0, k, node), colored.1, RecordedAt(prev.2, k, node))
  }

  lemma AdditionsStep(cs: seq<Cluster>, vs: seq<ClusterView>, p: Palette, reg: Registry, ids: seq<Id>,
                      nodeMap: map<Id, D3Node>, images: Value -> Value, i: nat)
    requires i < |ids|
    ensures Additions(cs, vs, p, reg, ids[..i + 1], nodeMap, images) ==
      var prev := Additions(cs, vs, p, reg, ids[..i], nodeMap, images);
      if ids[i] !in nodeMap then prev
      else
        var n := nodeMap[ids[i]];
        var colored := AssignColor(prev.1, ColorKey(NodeColor(n)));
        var node := MakeNode(n, images(FirstLabel(n)), colored.0);
        var k := ClusterIndexByName(cs, GroupOf(n));
        (AddedAt(prev.0, k, node), colored.1, RecordedAt(prev.2, k, node))
  {
    assert ids[..i + 1][..i] == ids[..i];
  }

  /** Additions only append: every cluster keeps its name, settings and
      nodes, and each node appended to a cluster is a listed id the node
      index knows whose group names that cluster first. */
  lemma {:induction false} AdditionsGrow(cs: seq<Cluster>, vs: seq<ClusterView>, p: Palette, reg: Registry, ids: seq<Id>,
                                         nodeMap: map<Id, D3Node>, images: Value -> Value, j: nat)
    requires forall k :: k in nodeMap ==> nodeMap[k].id == k
    requires j < |vs|
    ensures var r := Additions(cs, vs, p, reg, ids, nodeMap, images).0[j];
      && r.name == vs[j].name && r.clusterSetting == vs[j].clusterSetting && r.nodeSettings == vs[j].nodeSettings
      && |vs[j].nodes| <= |r.nodes| && r.nodes[..|vs[j].nodes|] == vs[j].nodes
      && forall m :: |vs[j].nodes| <= m < |r.nodes| ==>
           r.nodes[m].id in ids && r.nodes[m].id in nodeMap
           && ClusterIndexByName(cs, GroupOf(nodeMap[r.nodes[m].id])) == Some(j)
  {
    if ids != [] {
      var init := ids[..|ids| - 1];
      var c := ids[|ids| - 1];
      AdditionsGrow(cs, vs, p, reg, init, nodeMap, images, j);
      var prev := Additions(cs, vs, p, reg, init, nodeMap, images);
      var before := prev.0[j];
      var after := Additions(cs, vs, p, reg, ids, nodeMap, images).0[j];
      forall m | |vs[j].nodes| <= m < |before.nodes| ensures before.nodes[m].id in ids {
        assert before.nodes[m].id in init;
      }
      if c in nodeMap {
        var n := nodeMap[c];
        var node := MakeNode(n, images(FirstLabel(n)), AssignColor(prev.1, ColorKey(NodeColor(n))).0);
        var k := ClusterIndexByName(cs, GroupOf(n));
        if k == Some(j) && AddSymbol(node).Ok? {
          assert after.nodes == before.nodes + [AddSymbol(node).value];
          assert after.nodes[..|before.nodes|] == before.nodes;
          assert AddSymbol(node).value.id == c;
        } else {
          assert after == before;
        }
      }
    }
  }

  /** `nodesToAdd.includes(childParentMap.get(x))`. */
  predicate ParentAdded(childParentMap: map<Id, Id>, x: Id, added: seq<Id>) {
    x in childParentMap && childParentMap[x] in added
  }

  /** Whether expand re-adds the data edge: it is not an `includes` edge,
      and one of its ends or the parent of one is among the added nodes. */
  predicate Touches(e: D3Edge, added: seq<Id>, childParentMap: map<Id, Id>) {
    e.labels != "includes" &&
    (ParentAdded(childParentMap, e.source, added) || ParentAdded(childParentMap, e.target, added)
     || e.target in added || e.source in added)
  }

  /** An end of a re-added edge: a visible end moves to its parent when
      the parent was just added; an invisible one climbs to its nearest
      visible ancestor, within `fuel` steps. */
  function ExpandEndpoint(x: Id, added: seq<Id>, nodesIds: seq<Id>, childParentMap: map<Id, Id>, fuel: nat): Option<Id> {
    if x in nodesIds then Some(if ParentAdded(childParentMap, x, added) then childParentMap[x] else x)
    else Climb(nodesIds, childParentMap, Str(x), fuel)
  }

  /** The settings of an engine edge for a data edge. */
  function EdgeSettings(e: D3Edge): Attrs {
    [("type", Str(e.labels)), ("id", Str(e.id))]
  }

  /** The edge expand adds for a data edge; `None` when a walk does not
      end. */
  function ExpandEdge(e: D3Edge, added: seq<Id>, nodesIds: seq<Id>, childParentMap: map<Id, Id>, fuel: nat): Option<Edge> {
    var source := ExpandEndpoint(e.source, added, nodesIds, childParentMap, fuel);
    var target := ExpandEndpoint(e.target, added, nodesIds, childParentMap, fuel);
    if source.Some? && target.Some? then Some(Edge(Str(source.value), Str(target.value), EdgeSettings(e))) else None
  }

  /** The edges expand adds, in data order; `None` once a walk does not
      end. */
  function ExpandEdges(edgeData: seq<D3Edge>, added: seq<Id>, nodesIds: seq<Id>, childParentMap: map<Id, Id>, fuel: nat): Option<seq<Edge>> {
    if edgeData == [] then Some([])
    else
      var prev := ExpandEdges(edgeData[..|edgeData| - 1], added, nodesIds, childParentMap, fuel);
      var e := edgeData[|edgeData| - 1];
      if prev.None? then None
      else if !Touches(e, added, childParentMap) then prev
      else
        match ExpandEdge(e, added, nodesIds, childParentMap, fuel)
        case None => None
        case Some(edge) => Some(prev.value + [edge])
  }

  lemma ExpandEdgesStep(edgeData: seq<D3Edge>, added: seq<Id>, nodesIds: seq<Id>, childParentMap: map<Id, Id>, fuel: nat, i: nat)
    requires i < |edgeData|
    ensures ExpandEdges(edgeData[..i + 1], added, nodesIds, childParentMap, fuel) ==
      var prev := ExpandEdges(edgeData[..i], added, nodesIds, childParentMap, fuel);
      if prev.None? then None
      else if !Touches(edgeData[i], added, childParentMap) then prev
      else
        match ExpandEdge(edgeData[i], added, nodesIds, childParentMap, fuel)
        case None => None
        case Some(edge) => Some(prev.value + [edge])
  {
    assert edgeData[..i + 1][..i] == edgeData[..i];
  }

  /** A walk that does not end anywhere leaves expand without edges. */
  lemma {:induction false} ExpandEdgesStuck(edgeData: seq<D3Edge>, added: seq<Id>, nodesIds: seq<Id>, childParentMap: map<Id, Id>, fuel: nat, k: nat)
    requires k <= |edgeData| && ExpandEdges(edgeData[..k], added, nodesIds, childParentMap, fuel).None?
    ensures ExpandEdges(edgeData, added, nodesIds, childParentMap, fuel).None?
    decreases |edgeData|
  {
    if k == |edgeData| {
      assert edgeData[..k] == edgeData;
    } else {
      var init := edgeData[..|edgeData| - 1];
      assert init[..k] == edgeData[..k];
      ExpandEdgesStuck(init, added, nodesIds, childParentMap, fuel, k);
    }
  }

  /** Expand without edges is the source's endless loop: some re-added
      edge has an end none of whose ancestors, however far up, is
      visible. */
  lemma {:induction false} ExpandEdgesDiverge(edgeData: seq<D3Edge>, added: seq<Id>, nodesIds: seq<Id>, childParentMap: map<Id, Id>)
    returns (i: nat, x: Id)
    requires ExpandEdges(edgeData, added, nodesIds, childParentMap, |childParentMap| + 1).None?
    ensures i < |edgeData| && Touches(edgeData[i], added, childParentMap)
    ensures x == edgeData[i].source || x == edgeData[i].target
    ensures forall k :: !Visible(nodesIds, Ancestor(childParentMap, Str(x), k))
    decreases |edgeData|
  {
    var fuel := |childParentMap| + 1;
    var init := edgeData[..|edgeData| - 1];
    var e := edgeData[|edgeData| - 1];
    if ExpandEdges(init, added, nodesIds, childParentMap, fuel).None? {
      i, x := ExpandEdgesDiverge(init, added, nodesIds, childParentMap);
      assert init[i] == edgeData[i];
    } else {
      i := |edgeData| - 1;
      x := if ExpandEndpoint(e.source, added, nodesIds, childParentMap, fuel).None? then e.source else e.target;
      forall k ensures !Visible(nodesIds, Ancestor(childParentMap, Str(x), k)) {
        ClimbForever(nodesIds, childParentMap, Str(x), k);
      }
    }
  }

  /** An end that exists is visible, provided the added nodes are. */
  lemma ExpandEndpointVisible(x: Id, added: seq<Id>, nodesIds: seq<Id>, childParentMap: map<Id, Id>, fuel: nat)
    requires forall c :: c in added ==> c in nodesIds
    requires ExpandEndpoint(x, added, nodesIds, childParentMap, fuel).Some?
    ensures ExpandEndpoint(x, added, nodesIds, childParentMap, fuel).value in nodesIds
  {
    if x !in nodesIds {
      var _ := ClimbEnds(nodesIds, childParentMap, Str(x), fuel);
    }
  }

  /** Every edge expand adds has both ends among the visible nodes. */
  lemma {:induction false} ExpandEdgesVisible(edgeData: seq<D3Edge>, added: seq<Id>, nodesIds: seq<Id>, childParentMap: map<Id, Id>, fuel: nat)
    requires forall c :: c in added ==> c in nodesIds
    requires ExpandEdges(edgeData, added, nodesIds, childParentMap, fuel).Some?
    ensures forall e :: e in ExpandEdges(edgeData, added, nodesIds, childParentMap, fuel).value ==>
      Visible(nodesIds, e.source) && Visible(nodesIds, e.target)
  {
    if edgeData != [] {
      var init := edgeData[..|edgeData| - 1];
      var e := edgeData[|edgeData| - 1];
      ExpandEdgesVisible(init, added, nodesIds, childParentMap, fuel);
      if Touches(e, added, childParentMap) {
        ExpandEndpointVisible(e.source, added, nodesIds, childParentMap, fuel);
        ExpandEndpointVisible(e.target, added, nodesIds, childParentMap, fuel);
      }
    }
  }

  // ---------------------------------------------------------------------
  // Collapse

  /** The engine's edges after `removeEdgeByNode` for each id in turn,
      and the ids of the edges removed, in removal order. */
  function StripAll(es: seq<Edge>, ids: seq<Id>): (r: (seq<Edge>, seq<Value>)) {
    if ids == [] then (es, [])
    else
      var prev := StripAll(es, ids[..|ids| - 1]);
      var c := ids[|ids| - 1];
      (EdgesAvoiding(prev.0, c), prev.1 + EdgeIdsTouching(prev.0, c))
  }

  /** Whether the edge touches none of the ids. */
  predicate AvoidsAll(e: Edge, ids: seq<Id>) {
    forall c :: c in ids ==> e.source != Str(c) && e.target != Str(c)
  }

  /** Collapse keeps exactly the edges touching none of the removed ids. */
  lemma {:induction false} StripAllKeeps(es: seq<Edge>, ids: seq<Id>, e: Edge)
    ensures e in StripAll(es, ids).0 <==> e in es && AvoidsAll(e, ids)
  {
    if ids != [] {
      var init := ids[..|ids| - 1];
      var last := ids[|ids| - 1];
      StripAllKeeps(es, init, e);
      assert StripAll(es, ids).0 == EdgesAvoiding(StripAll(es, init).0, last);
      if !AvoidsAll(e, ids) {
        var c :| c in ids && !(e.source != Str(c) && e.target != Str(c));
        var k :| 0 <= k < |ids| && ids[k] == c;
        assert k < |init| ==> init[k] == c;
      } else {
        assert last in ids;
        forall c | c in init
          ensures e.source != Str(c) && e.target != Str(c)
        {
          var k :| 0 <= k < |init| && init[k] == c;
          assert ids[k] == c;
        }
      }
    }
  }

  /** Every edge collapse drops is reported once. */
  lemma {:induction false} StripAllCounts(es: seq<Edge>, ids: seq<Id>)
    ensures |StripAll(es, ids).0| + |StripAll(es, ids).1| == |es|
  {
    if ids != [] {
      var init := ids[..|ids| - 1];
      StripAllCounts(es, init);
      RemoveEdgesPartition(StripAll(es, init).0, ids[|ids| - 1]);
    }
  }

  lemma StripAllStep(es: seq<Edge>, ids: seq<Id>, i: nat)
    requires i < |ids|
    ensures StripAll(es, ids[..i + 1]) ==
      (EdgesAvoiding(StripAll(es, ids[..i]).0, ids[i]), StripAll(es, ids[..i]).1 + EdgeIdsTouching(StripAll(es, ids[..i]).0, ids[i]))
  {
    assert ids[..i + 1][..i] == ids[..i];
  }

  /** The registries after `removeNode` for each id in turn. */
  function ForgetAll(reg: Registry, ids: seq<Id>): Registry {
    if ids == [] then reg
    else Forgotten(ForgetAll(reg, ids[..|ids| - 1]), ids[|ids| - 1])
  }

  /** The clusters after `removeNode` for each id in turn. */
  function ForgetViews(vs: seq<ClusterView>, ids: seq<Id>): (r: seq<ClusterView>)
    ensures |r| == |vs|
  {
    if ids == [] then vs
    else
      var prev := ForgetViews(vs, ids[..|ids| - 1]);
      var c := ids[|ids| - 1];
      WithoutNodeAll(prev, c)
  }

  /** The clusters after `removeNode`: each drops its first node with the
      id. */
  function WithoutNodeAll(vs: seq<ClusterView>, id: Id): (r: seq<ClusterView>)
    ensures |r| == |vs| && forall j :: 0 <= j < |vs| ==> r[j] == WithoutNode(vs[j], id)
  {
    seq(|vs|, j requires 0 <= j < |vs| => WithoutNode(vs[j], id))
  }

  lemma ForgetStep(reg: Registry, vs: seq<ClusterView>, ids: seq<Id>, i: nat)
    requires i < |ids|
    ensures ForgetAll(reg, ids[..i + 1]) == Forgotten(ForgetAll(reg, ids[..i]), ids[i])
    ensures forall j :: 0 <= j < |vs| ==> ForgetViews(vs, ids[..i + 1])[j] == WithoutNode(ForgetViews(vs, ids[..i])[j], ids[i])
  {
    assert ids[..i + 1][..i] == ids[..i];
  }

  /** An end of a re-added edge: a removed id becomes the parent, and an
      invisible end climbs at most ten parent steps. */
  function CollapseEndpoint(x: Id, children: seq<Id>, parentID: Id, nodesIds: seq<Id>, childParentMap: map<Id, Id>): Value {
    CappedClimb(nodesIds, childParentMap, Str(MovedToParent(x, children, parentID)), 0)
  }

  /** A removed id stands for the parent. */
  function MovedToParent(x: Id, children: seq<Id>, parentID: Id): Id {
    if x in children then parentID else x
  }

  /** The edge collapse adds back for a removed data edge. */
  function CollapseEdge(e: D3Edge, children: seq<Id>, parentID: Id, nodesIds: seq<Id>, childParentMap: map<Id, Id>): Edge {
    Edge(CollapseEndpoint(e.source, children, parentID, nodesIds, childParentMap),
         CollapseEndpoint(e.target, children, parentID, nodesIds, childParentMap),
         EdgeSettings(e))
  }

  /** The edges collapse adds back, one per removed edge id, in removal
      order; an id the edge index lacks ends collapse. */
  function CollapseEdges(ids: seq<Value>, edgeMap: map<Id, D3Edge>, children: seq<Id>, parentID: Id,
                         nodesIds: seq<Id>, childParentMap: map<Id, Id>): Result<seq<Edge>, ViewError>
  {
    if ids == [] then Ok([])
    else
      var init := ids[..|ids| - 1];
      var id := ids[|ids| - 1];
      match CollapseEdges(init, edgeMap, children, parentID, nodesIds, childParentMap)
      case Err(e) => Err(e)
      case Ok(prev) =>
        if id.Str? && id.text in edgeMap then
          Ok(prev + [CollapseEdge(edgeMap[id.text], children, parentID, nodesIds, childParentMap)])
        else Err(MissingEdge)
  }

  /** Collapse adds back an edge per removed id, in order, exactly when the
      edge index holds every id; otherwise it ends with `MissingEdge`. */
  lemma {:induction false} CollapseEdgesShape(ids: seq<Value>, edgeMap: map<Id, D3Edge>, children: seq<Id>, parentID: Id,
                                              nodesIds: seq<Id>, childParentMap: map<Id, Id>)
    ensures var r := CollapseEdges(ids, edgeMap, children, parentID, nodesIds, childParentMap);
      && (r.Ok? <==> forall i :: 0 <= i < |ids| ==> ids[i].Str? && ids[i].text in edgeMap)
      && (r.Err? ==> r.error == MissingEdge)
      && (r.Ok? ==> |r.value| == |ids| && forall i :: 0 <= i < |ids| ==>
           r.value[i] == CollapseEdge(edgeMap[ids[i].text], children, parentID, nodesIds, childParentMap))
  {
    if ids != [] {
      var init := ids[..|ids| - 1];
      assert forall i :: 0 <= i < |init| ==> init[i] == ids[i];
      CollapseEdgesShape(init, edgeMap, children, parentID, nodesIds, childParentMap);
    }
  }

  lemma CollapseEdgesStep(ids: seq<Value>, edgeMap: map<Id, D3Edge>, children: seq<Id>, parentID: Id,
                          nodesIds: seq<Id>, childParentMap: map<Id, Id>, i: nat)
    requires i < |ids| && ids[i].Str? && ids[i].text in edgeMap
    requires CollapseEdges(ids[..i], edgeMap, children, parentID, nodesIds, childParentMap).Ok?
    ensures CollapseEdges(ids[..i + 1], edgeMap, children, parentID, nodesIds, childParentMap) ==
      Ok(CollapseEdges(ids[..i], edgeMap, children, parentID, nodesIds, childParentMap).value
         + [CollapseEdge(edgeMap[ids[i].text], children, parentID, nodesIds, childParentMap)])
  {
    assert ids[..i + 1][..i] == ids[..i];
  }

  /** A removed end becomes the parent once the parent is visible; any
      end stops at its first visible ancestor within ten steps, or after
      ten steps at whatever it reached. */
  lemma CollapseEndpointEnds(x: Id, children: seq<Id>, parentID: Id, nodesIds: seq<Id>, childParentMap: map<Id, Id>) returns (k: nat)
    ensures x in children && parentID in nodesIds ==> CollapseEndpoint(x, children, parentID, nodesIds, childParentMap) == Str(parentID)
    ensures k <= 10
    ensures CollapseEndpoint(x, children, parentID, nodesIds, childParentMap) ==
      Ancestor(childParentMap, Str(MovedToParent(x, children, parentID)), k)
    ensures Visible(nodesIds, CollapseEndpoint(x, children, parentID, nodesIds, childParentMap)) || k == 10
    ensures forall j :: 0 <= j < k ==> !Visible(nodesIds, Ancestor(childParentMap, Str(MovedToParent(x, children, parentID)), j))
  {
    k := CappedClimbEnds(nodesIds, childParentMap, Str(MovedToParent(x, children, parentID)), 0);
  }

  /** The body of `getColor` on the queue and the assigned colours. */
  method NextColor(colorSet: seq<string>, groupColors: map<string, string>, key: string)
    returns (color: string, colorSet': seq<string>, groupColors': map<string, string>)
    ensures (color, Palette(colorSet', groupColors')) == AssignColor(Palette(colorSet, groupColors), key)
  {
    colorSet', groupColors' := colorSet, groupColors;
    if colorSet' == [] {
      colorSet' := ColorSet;
    }
    if key in groupColors' {
      color := groupColors'[key];
    } else {
      groupColors' := groupColors'[key := colorSet'[0]];
      colorSet' := colorSet'[1..];
      color := groupColors'[key];
    }
  }

  /** The cluster carries the name and holds nodes with exactly these
      ids, in order. */
  predicate Holds(c: ClusterView, name: Value, ids: seq<Id>) {
    c.name == name && NodeIds(c.nodes) == ids
  }

  /** The settings `setScenarioData` gives a group's cluster: its colour
      and a rounded, dashed, bold border. */
  function GroupSettings(groupColor: string): Attrs {
    [("color", Str(groupColor)), ("style", Str("rounded, dashed, bold"))]
  }

  /** The node settings of a group's cluster: scaled images. */
  const ScaledImages: Attrs := [("imagescale", Str("true"))]

  /** One group's pass of `setScenarioData` from palette `p`: the cluster
      it sets, the palette its `getColor` calls leave (the group's colour
      first, then each selected node's), and the error that makes
      `setNodes` throw, if any. */
  function GroupCluster(p: Palette, clusterName: Value, nodeData: seq<D3Node>, showAllNodes: bool,
                        childParentMap: map<Id, Id>, images: Value -> Value): (ClusterView, Palette, Option<SymbolError>)
  {
    var colored := AssignColor(p, ColorKey(Group(clusterName)));
    var built := BuildNodes(colored.1, Chosen(nodeData, clusterName, showAllNodes, childParentMap), images);
    var resolved := ResolveAll(built.0);
    (ClusterView(clusterName, GroupSettings(colored.0), ScaledImages, resolved.0), built.1, resolved.1)
  }

  /** One group's pass, as a function of the palette and the group. */
  type GroupPass = (Palette, Value) -> (ClusterView, Palette, Option<SymbolError>)

  /** The clusters a loop of `pass` sets for the groups in turn, the
      palette it leaves, and whether a group threw, which ends the loop
      with that group's palette kept but its cluster not set. */
  function FillWith(pass: GroupPass, p: Palette, groups: seq<Value>): (seq<ClusterView>, Palette, bool)
    decreases |groups|
  {
    if groups == [] then ([], p, false)
    else
      var prev := FillWith(pass, p, groups[..|groups| - 1]);
      if prev.2 then prev
      else
        var g := pass(prev.1, groups[|groups| - 1]);
        if g.2.Some? then (prev.0, g.1, true) else (prev.0 + [g.0], g.1, false)
  }

  lemma FillWithStep(pass: GroupPass, p: Palette, groups: seq<Value>, i: nat)
    requires i < |groups|
    ensures var prev := FillWith(pass, p, groups[..i]);
      var g := pass(prev.1, groups[i]);
      FillWith(pass, p, groups[..i + 1]) ==
        if prev.2 then prev
        else if g.2.Some? then (prev.0, g.1, true)
        else (prev.0 + [g.0], g.1, false)
  {
    assert groups[..i + 1][..i] == groups[..i];
  }

  /** Once a group throws, the later groups change nothing. */
  lemma {:induction false} FillWithStopped(pass: GroupPass, p: Palette, groups: seq<Value>, k: nat, m: nat)
    requires k <= m <= |groups| && FillWith(pass, p, groups[..k]).2
    ensures FillWith(pass, p, groups[..m]) == FillWith(pass, p, groups[..k])
    decreases m
  {
    if m > k {
      FillWithStopped(pass, p, groups, k, m - 1);
      FillWithStep(pass, p, groups, m - 1);
    }
  }

  /** A loop whose first `k` groups end in a throw ends as it stood then. */
  lemma FillWithDone(pass: GroupPass, p: Palette, groups: seq<Value>, k: nat)
    requires k <= |groups| && FillWith(pass, p, groups[..k]).2
    ensures FillWith(pass, p, groups) == FillWith(pass, p, groups[..k])
  {
    FillWithStopped(pass, p, groups, k, |groups|);
    assert groups[..|groups|] == groups;
  }

  /** When every pass that does not throw sets a cluster holding `ids` of
      its group, cluster `j` holds those of group `j`; the loop stops short
      of the last group exactly when a group throws. */
  lemma {:induction false} FillWithShape(pass: GroupPass, p: Palette, groups: seq<Value>, ids: Value -> seq<Id>)
    requires forall q, g :: pass(q, g).2.None? ==> Holds(pass(q, g).0, g, ids(g))
    ensures var f := FillWith(pass, p, groups);
      |f.0| <= |groups| && (f.2 <==> |f.0| < |groups|)
      && forall j :: 0 <= j < |f.0| ==> Holds(f.0[j], groups[j], ids(groups[j]))
    decreases |groups|
  {
    if groups != [] {
      var n := |groups| - 1;
      var init := groups[..n];
      FillWithShape(pass, p, init, ids);
      var prev := FillWith(pass, p, init);
      var f := FillWith(pass, p, groups);
      var g := pass(prev.1, groups[n]);
      if prev.2 || g.2.Some? {
        assert f.0 == prev.0;
      } else {
        assert f.0 == prev.0 + [g.0];
      }
      forall j | 0 <= j < |f.0|
        ensures Holds(f.0[j], groups[j], ids(groups[j]))
      {
        if j < |prev.0| {
          assert f.0[j] == prev.0[j] && init[j] == groups[j];
        } else {
          assert !prev.2 && g.2.None? && j == n && f.0[j] == g.0;
        }
      }
    }
  }

  /** `setScenarioData`'s pass over one group. */
  function GroupPassOf(nodeData: seq<D3Node>, showAllNodes: bool, childParentMap: map<Id, Id>, images: Value -> Value): GroupPass {
    (q, g) => GroupCluster(q, g, nodeData, showAllNodes, childParentMap, images)
  }

  /** The clusters `setScenarioData` sets for the groups in turn from
      palette `p`, the palette it leaves, and whether a group threw. */
  function Filled(p: Palette, groups: seq<Value>, nodeData: seq<D3Node>, showAllNodes: bool,
                  childParentMap: map<Id, Id>, images: Value -> Value): (seq<ClusterView>, Palette, bool)
  {
    FillWith(GroupPassOf(nodeData, showAllNodes, childParentMap, images), p, groups)
  }

  /** Once a group throws, `setScenarioData` sets nothing more. */
  lemma FilledDone(p: Palette, groups: seq<Value>, nodeData: seq<D3Node>, showAllNodes: bool,
                   childParentMap: map<Id, Id>, images: Value -> Value, k: nat)
    requires k <= |groups| && Filled(p, groups[..k], nodeData, showAllNodes, childParentMap, images).2
    ensures Filled(p, groups, nodeData, showAllNodes, childParentMap, images) == Filled(p, groups[..k], nodeData, showAllNodes, childParentMap, images)
  {
    FillWithDone(GroupPassOf(nodeData, showAllNodes, childParentMap, images), p, groups, k);
  }

  /** A group's cluster, when it is set, carries the group's name and
      exactly the ids of the nodes the group selects. */
  lemma GroupClusterHolds(p: Palette, clusterName: Value, nodeData: seq<D3Node>, showAllNodes: bool,
                          childParentMap: map<Id, Id>, images: Value -> Value)
    requires GroupCluster(p, clusterName, nodeData, showAllNodes, childParentMap, images).2.None?
    ensures Holds(GroupCluster(p, clusterName, nodeData, showAllNodes, childParentMap, images).0,
                  clusterName, Ids(Chosen(nodeData, clusterName, showAllNodes, childParentMap)))
  {
    var colored := AssignColor(p, ColorKey(Group(clusterName)));
    var chosen := Chosen(nodeData, clusterName, showAllNodes, childParentMap);
    BuiltIds(colored.1, chosen, images);
    ResolvedIds(BuildNodes(colored.1, chosen, images).0);
  }

  /** Cluster `j` is set for group `j`, holding exactly the ids the group
      selects; the loop stops short of the last group exactly when a
      group throws. */
  lemma FilledShape(p: Palette, groups: seq<Value>, nodeData: seq<D3Node>, showAllNodes: bool,
                    childParentMap: map<Id, Id>, images: Value -> Value)
    ensures var f := Filled(p, groups, nodeData, showAllNodes, childParentMap, images);
      |f.0| <= |groups| && (f.2 <==> |f.0| < |groups|)
      && forall j :: 0 <= j < |f.0| ==> Holds(f.0[j], groups[j], Ids(Chosen(nodeData, groups[j], showAllNodes, childParentMap)))
  {
    var pass := GroupPassOf(nodeData, showAllNodes, childParentMap, images);
    var ids := g => Ids(Chosen(nodeData, g, showAllNodes, childParentMap));
    forall q, g | pass(q, g).2.None?
      ensures Holds(pass(q, g).0, g, ids(g))
    {
      GroupClusterHolds(q, g, nodeData, showAllNodes, childParentMap, images);
    }
    FillWithShape(pass, p, groups, ids);
  }

  /** The ids the clusters receive at first, group after group. */
  function ChosenIds(nodeData: seq<D3Node>, groups: seq<Value>, showAllNodes: bool, childParentMap: map<Id, Id>): seq<Id>
  {
    if groups == [] then []
    else
      ChosenIds(nodeData, groups[..|groups| - 1], showAllNodes, childParentMap)
      + Ids(Chosen(nodeData, groups[|groups| - 1], showAllNodes, childParentMap))
  }

  lemma ChosenIdsStep(nodeData: seq<D3Node>, groups: seq<Value>, showAllNodes: bool, childParentMap: map<Id, Id>, i: nat)
    requires i < |groups|
    ensures ChosenIds(nodeData, groups[..i + 1], showAllNodes, childParentMap) ==
      ChosenIds(nodeData, groups[..i], showAllNodes, childParentMap) + Ids(Chosen(nodeData, groups[i], showAllNodes, childParentMap))
  {
    assert groups[..i + 1][..i] == groups[..i];
  }

  /** An id is received exactly when a data node with that id belongs to
      one of the groups and is selected for it. */
  lemma {:induction false} ChosenIdsMembers(nodeData: seq<D3Node>, groups: seq<Value>, showAllNodes: bool,
                                            childParentMap: map<Id, Id>, x: Id)
    ensures x in ChosenIds(nodeData, groups, showAllNodes, childParentMap) <==>
      exists n :: n in nodeData && n.id == x && GroupOf(n) in groups && Selected(n, GroupOf(n), showAllNodes, childParentMap)
    decreases |groups|
  {
    if groups != [] {
      var init, g := groups[..|groups| - 1], groups[|groups| - 1];
      assert groups == init + [g];
      ChosenIdsMembers(nodeData, init, showAllNodes, childParentMap, x);
      var chosen := Chosen(nodeData, g, showAllNodes, childParentMap);
      if x in Ids(chosen) {
        var i :| 0 <= i < |chosen| && Ids(chosen)[i] == x;
        ChosenMembers(nodeData, g, showAllNodes, childParentMap, chosen[i]);
      }
      forall n | n in nodeData && n.id == x && GroupOf(n) == g && Selected(n, g, showAllNodes, childParentMap)
        ensures x in Ids(chosen)
      {
        ChosenMembers(nodeData, g, showAllNodes, childParentMap, n);
        var i :| 0 <= i < |chosen| && chosen[i] == n;
        assert Ids(chosen)[i] == x;
      }
    }
  }

  /** Once a scenario is loaded the engine holds exactly the data nodes
      the display mode selects: every node but the parents when all nodes
      are shown, and every node but the children when the hierarchy is
      collapsed. */
  lemma LoadedIds(nodeData: seq<D3Node>, showAllNodes: bool, childParentMap: map<Id, Id>, x: Id)
    ensures x in ChosenIds(nodeData, UniqueGroups(nodeData), showAllNodes, childParentMap) <==>
      exists n :: n in nodeData && n.id == x && if showAllNodes then "parent" !in n.labels else n.id !in childParentMap
  {
    ChosenIdsMembers(nodeData, UniqueGroups(nodeData), showAllNodes, childParentMap, x);
    forall n | n in nodeData
      ensures GroupOf(n) in UniqueGroups(nodeData)
    {
      var k :| 0 <= k < |nodeData| && nodeData[k] == n;
      var _ := GroupsOnce(nodeData, k);
    }
  }

  /** The registries after `setCluster` for each cluster in turn. */
  function RecordedViews(reg: Registry, vs: seq<ClusterView>): Registry {
    if vs == [] then reg
    else Recorded(RecordedViews(reg, vs[..|vs| - 1]), vs[|vs| - 1].nodes)
  }

  /** Clusters that received, group after group, the selected ids record
      exactly those ids, in that order. */
  lemma {:induction false} RecordedChosen(reg: Registry, vs: seq<ClusterView>, nodeData: seq<D3Node>, groups: seq<Value>,
                                          showAllNodes: bool, childParentMap: map<Id, Id>)
    requires |vs| <= |groups|
    requires forall j :: 0 <= j < |vs| ==> Holds(vs[j], groups[j], Ids(Chosen(nodeData, groups[j], showAllNodes, childParentMap)))
    ensures RecordedViews(reg, vs).nodesIds == reg.nodesIds + ChosenIds(nodeData, groups[..|vs|], showAllNodes, childParentMap)
    decreases |vs|
  {
    if vs != [] {
      var n := |vs| - 1;
      assert forall j :: 0 <= j < n ==> vs[..n][j] == vs[j];
      RecordedChosen(reg, vs[..n], nodeData, groups, showAllNodes, childParentMap);
      ChosenIdsStep(nodeData, groups, showAllNodes, childParentMap, n);
      AppendAssoc(reg.nodesIds, ChosenIds(nodeData, groups[..n], showAllNodes, childParentMap),
                  Ids(Chosen(nodeData, groups[n], showAllNodes, childParentMap)));
    }
  }

  /** The cluster `setScenarioData` builds for a group: named after it,
      with scaled node images, the group's colour and a rounded, dashed,
      bold border, holding the nodes that resolve. */
  method NewCluster(clusterName: Value, groupColor: string, clusterNodes: seq<Node>)
    returns (a: Cluster, failed: Option<SymbolError>)
    ensures fresh(a) && View(a) == ClusterView(clusterName, GroupSettings(groupColor), ScaledImages, ResolveAll(clusterNodes).0)
    ensures failed == ResolveAll(clusterNodes).1
  {
    a := new Cluster(clusterName);
    a.SetNodeSettings(ScaledImages);
    a.SetClusterSettings(GroupSettings(groupColor));
    GroupSettingsMerged(groupColor);
    failed := a.SetNodes(clusterNodes);
  }

  /** Merged into a new cluster's empty settings, the group's settings
      come out as given. */
  lemma GroupSettingsMerged(groupColor: string)
    ensures Merge([], ScaledImages) == ScaledImages
    ensures Merge([], GroupSettings(groupColor)) == GroupSettings(groupColor)
  {
    var s := GroupSettings(groupColor);
    assert s[..1] == [s[0]] && s[..1][..0] == [];
    assert Merge([], s[..1]) == [s[0]];
    assert "color"[0] != "style"[0];
    assert Assign([s[0]], s[1].0, s[1].1) == [s[0]] + Assign([], s[1].0, s[1].1);
    assert ScaledImages[..0] == [];
  }

  // ---------------------------------------------------------------------
  // The viewer's state

  /** The viewer's data and hierarchy maps. */
  datatype ViewData = ViewData(
    showAllNodes: bool, nodeData: seq<D3Node>, edgeData: seq<D3Edge>,
    nodeMap: map<Id, D3Node>, edgeMap: map<Id, D3Edge>,
    childRootMap: map<Id, Id>, parentChildMap: map<Id, seq<Id>>,
    childParentMap: map<Id, Id>, parentDirectChildMap: map<Id, seq<Id>>)

  /** The four hierarchy maps `setScenarioData` fills. */
  datatype HierarchyMaps = HierarchyMaps(
    parentChildMap: map<Id, seq<Id>>, childRootMap: map<Id, Id>,
    childParentMap: map<Id, Id>, parentDirectChildMap: map<Id, seq<Id>>)

  /** `h` is `h0` after `setScenarioData`'s reads: each map is read from
      the fetched data only while it is empty, and kept otherwise. The
      roots are the keys of the parent→children object that no entry lists
      as a descendant; `childRootMap` is read from the roots of a read
      `parentChildMap` only (with a kept one, the roots stay empty). */
  ghost predicate HierarchyRead(h0: HierarchyMaps, h: HierarchyMaps, parentChildObject: ParentEntries,
                                childrenOf: Id -> seq<Id>, allParents: seq<(Id, Id)>)
  {
    (if h0.parentChildMap == map[] then
       (forall k :: k in h.parentChildMap <==> k in EntryKeys(parentChildObject))
       && forall i :: 0 <= i < |parentChildObject| ==> h.parentChildMap[parentChildObject[i].0] == parentChildObject[i].1
     else h.parentChildMap == h0.parentChildMap)
    && h.childRootMap == (if h0.childRootMap != map[] then h0.childRootMap
                          else ChildRoots(if h0.parentChildMap == map[] then Unlisted(EntryKeys(parentChildObject), AllListed(parentChildObject)) else [],
                                          childrenOf))
    && (if h0.childParentMap == map[] then
          h.childParentMap == MapOf(allParents) && IsGrouping(h.parentDirectChildMap, Swap(allParents))
        else h.childParentMap == h0.childParentMap && h.parentDirectChildMap == h0.parentDirectChildMap)
  }

  /** The hierarchy maps of `setScenarioData`, each read only while it
      is empty. An empty child→parent map comes with an empty inverse. */
  method BuildHierarchy(h0: HierarchyMaps, parentChildObject: ParentEntries, childrenOf: Id -> seq<Id>, allParents: seq<(Id, Id)>)
    returns (h: HierarchyMaps)
    requires NoDuplicates(EntryKeys(parentChildObject)) && NoDuplicates(Firsts(allParents))
    requires h0.childParentMap == map[] ==> h0.parentDirectChildMap == map[]
    ensures HierarchyRead(h0, h, parentChildObject, childrenOf, allParents)
    ensures h.childParentMap == map[] ==> h.parentDirectChildMap == map[]
  {
    var pcm, rootNodes := h0.parentChildMap, [];
    if pcm == map[] {
      pcm, rootNodes := ReadParentChildMap(parentChildObject);
    }
    var crm := h0.childRootMap;
    if crm == map[] {
      crm := MapChildrenToRoots(rootNodes, childrenOf);
    }
    var up, down := h0.childParentMap, h0.parentDirectChildMap;
    if up == map[] {
      up, down := ReadChildParentMap(allParents);
    }
    h := HierarchyMaps(pcm, crm, up, down);
  }

  /** `parentChildMap` read from the fetched object, and the roots: the
      keys listed as no one's descendant. */
  method ReadParentChildMap(parentChildObject: ParentEntries) returns (m: map<Id, seq<Id>>, roots: seq<Id>)
    requires NoDuplicates(EntryKeys(parentChildObject))
    ensures forall k :: k in m <==> k in EntryKeys(parentChildObject)
    ensures forall i :: 0 <= i < |parentChildObject| ==> m[parentChildObject[i].0] == parentChildObject[i].1
    ensures roots == Unlisted(EntryKeys(parentChildObject), AllListed(parentChildObject))
  {
    var rootNodes, childNodes;
    m, rootNodes, childNodes := ReadParentChild(parentChildObject);
    UnlistedSameMembers(rootNodes, childNodes, AllListed(parentChildObject));
    roots := PruneRoots(rootNodes, childNodes);
  }

  /** `childParentMap` read from the fetched list of pairs, and its
      inverse; the inverse is empty exactly when the map is. */
  method ReadChildParentMap(allParents: seq<(Id, Id)>) returns (up: map<Id, Id>, down: map<Id, seq<Id>>)
    ensures up == MapOf(allParents) && IsGrouping(down, Swap(allParents))
    ensures up == map[] <==> down == map[]
  {
    up := MapOf(allParents);
    down := InvertParents(allParents);
    EmptyParents(allParents, down);
  }

  class ScenarioViewer {
    const handler: DotHandler
    var showAllNodes: bool
    var nodeData: seq<D3Node>
    var edgeData: seq<D3Edge>
    var nodeMap: map<Id, D3Node>
    var edgeMap: map<Id, D3Edge>
    var childRootMap: map<Id, Id>
    var parentChildMap: map<Id, seq<Id>>
    var childParentMap: map<Id, Id>
    var parentDirectChildMap: map<Id, seq<Id>>
    var currentColorSet: seq<string>
    var currentGroupColors: map<string, string>

    /** The engine is consistent, the node index maps each id to a node
        with that id, the inverted map is only filled with the map it
        inverts, and the colour queue is what is left of the configured
        set. */
    ghost predicate Valid()
      reads this, handler
    {
      handler.Valid() && Consistent()
    }

    /** The viewer's own invariant: the node index is keyed by id, the
        parent→children map is read together with the child→parent map,
        and the colour queue is what is left of the configured set. */
    ghost predicate Consistent()
      reads this
    {
      (forall k :: k in nodeMap ==> nodeMap[k].id == k)
      && (childParentMap == map[] ==> parentDirectChildMap == map[])
      && IsRest(ColorState())
    }

    /** What filling the clusters leaves alone: the viewer's data and maps,
        and the engine's edges, settings and DOT text. */
    ghost function Kept(): (ViewData, seq<Edge>, (Attrs, Attrs, Attrs, Option<string>))
      reads this, handler
    {
      (Data(), handler.edges, handler.SettingsAndDot())
    }

    /** The fetched data and its indexes, which only the constructor sets. */
    ghost function Fetched(): (bool, seq<D3Node>, seq<D3Edge>, map<Id, D3Node>, map<Id, D3Edge>)
      reads this
    {
      (showAllNodes, nodeData, edgeData, nodeMap, edgeMap)
    }

    ghost function Data(): ViewData
      reads this
    {
      ViewData(showAllNodes, nodeData, edgeData, nodeMap, edgeMap, childRootMap, parentChildMap, childParentMap, parentDirectChildMap)
    }

    /** The hierarchy maps, as a value. */
    function Maps(): HierarchyMaps
      reads this
    {
      HierarchyMaps(parentChildMap, childRootMap, childParentMap, parentDirectChildMap)
    }

    function ColorState(): Palette
      reads this
    {
      Palette(currentColorSet, currentGroupColors)
    }

    /** A viewer over fetched scenario data, with the configured colours
        and empty hierarchy maps. */
    constructor (handler: DotHandler, nodeData: seq<D3Node>, edgeData: seq<D3Edge>)
      requires handler.Valid()
      ensures Valid() && this.handler == handler
      ensures showAllNodes == ShowNodes && this.nodeData == nodeData && this.edgeData == edgeData
      ensures nodeMap == NodeIndex(nodeData) && edgeMap == EdgeIndex(edgeData)
      ensures childRootMap == map[] && parentChildMap == map[] && childParentMap == map[] && parentDirectChildMap == map[]
      ensures ColorState() == Palette(ColorSet, GroupColors)
    {
      this.handler := handler;
      showAllNodes := ShowNodes;
      this.nodeData, this.edgeData := nodeData, edgeData;
      nodeMap, edgeMap := NodeIndex(nodeData), EdgeIndex(edgeData);
      childRootMap, parentChildMap, childParentMap, parentDirectChildMap := map[], map[], map[], map[];
      currentColorSet, currentGroupColors := ColorSet, GroupColors;
      assert ColorSet[0..] == ColorSet;
    }

    /** `isChild`: the node has a parent, that is, looking it up in
        `childParentMap` yields an id rather than `undefined`. */
    predicate IsChild(nodeId: Id): (r: bool)
      reads this
      ensures r <==> ParentOf(childParentMap, Str(nodeId)).Str?
    {
      nodeId in childParentMap
    }

    /** `getColor`: the colour of the subject's key, assigned from the
        queue when the key has none yet. */
    method GetColor(subject: ColorSubject) returns (color: string)
      requires Valid()
      modifies this
      ensures Valid() && Data() == old(Data())
      ensures (color, ColorState()) == AssignColor(old(ColorState()), ColorKey(subject))
    {
      var key := ColorKey(subject);
      ColorFromSet(ColorState(), key);
      var queue;
      color, queue, currentGroupColors := NextColor(currentColorSet, currentGroupColors, key);
      currentColorSet := queue;
    }

    // -------------------------------------------------------------------
    // setScenarioData

    /** `setScenarioData`: the engine is emptied, the hierarchy maps are
        read from the fetched objects where they are still empty, one
        cluster per group is filled with its selected nodes, and the data
        edges are handed over. */
    method SetScenarioData(parentChildObject: ParentEntries, childrenOf: Id -> seq<Id>, allParents: seq<(Id, Id)>,
                           images: Value -> Value) returns (r: Result<(), ViewError>)
      requires Valid()
      requires NoDuplicates(EntryKeys(parentChildObject)) && NoDuplicates(Firsts(allParents))
      modifies this, handler
      ensures Valid()
      ensures showAllNodes == old(showAllNodes) && nodeData == old(nodeData) && edgeData == old(edgeData)
      ensures nodeMap == old(nodeMap) && edgeMap == old(edgeMap)
      ensures HierarchyRead(old(Maps()), Maps(), parentChildObject, childrenOf, allParents)
      ensures handler.SettingsAndDot() == old(handler.SettingsAndDot())
      ensures var f := Filled(old(ColorState()), UniqueGroups(nodeData), nodeData, showAllNodes, childParentMap, images);
        Views(handler.clusters) == f.0 && ColorState() == f.1 && (r.Err? <==> f.2)
      ensures handler.Registers() == RecordedViews(Registry([], [], old(handler.savedImages)), Views(handler.clusters))
      ensures |handler.clusters| <= |UniqueGroups(nodeData)|
      ensures r.Ok? <==> |handler.clusters| == |UniqueGroups(nodeData)|
      ensures forall i :: 0 <= i < |handler.clusters| ==>
        Holds(View(handler.clusters[i]), UniqueGroups(nodeData)[i], Ids(Chosen(nodeData, UniqueGroups(nodeData)[i], showAllNodes, childParentMap)))
      ensures r.Ok? ==> handler.nodesIds == ChosenIds(nodeData, UniqueGroups(nodeData), showAllNodes, childParentMap)
      ensures r.Ok? ==> handler.edges == InitialEdges(edgeData, showAllNodes, childRootMap)
      ensures r.Err? ==> handler.edges == []
    {
      ResetEngine();
      var h := BuildHierarchy(Maps(), parentChildObject, childrenOf, allParents);
      StoreMaps(h);
      r := LoadClusters(images);
      assert [] + ChosenIds(nodeData, UniqueGroups(nodeData), showAllNodes, childParentMap)
        == ChosenIds(nodeData, UniqueGroups(nodeData), showAllNodes, childParentMap);
    }

    /** The rest of `setScenarioData` once the engine is empty and the
        maps are read: the clusters are filled, then the data edges are
        handed over unless a cluster throws. */
    method LoadClusters(images: Value -> Value) returns (r: Result<(), ViewError>)
      requires Valid() && handler.clusters == [] && handler.edges == []
      modifies this, handler
      ensures Valid() && Data() == old(Data())
      ensures handler.SettingsAndDot() == old(handler.SettingsAndDot())
      ensures var f := Filled(old(ColorState()), UniqueGroups(nodeData), nodeData, showAllNodes, childParentMap, images);
        Views(handler.clusters) == f.0 && ColorState() == f.1 && (r.Err? <==> f.2)
      ensures handler.Registers() == RecordedViews(old(handler.Registers()), Views(handler.clusters))
      ensures |handler.clusters| <= |UniqueGroups(nodeData)|
      ensures r.Ok? <==> |handler.clusters| == |UniqueGroups(nodeData)|
      ensures forall i :: 0 <= i < |handler.clusters| ==>
        Holds(View(handler.clusters[i]), UniqueGroups(nodeData)[i], Ids(Chosen(nodeData, UniqueGroups(nodeData)[i], showAllNodes, childParentMap)))
      ensures r.Ok? ==> handler.nodesIds == old(handler.nodesIds) + ChosenIds(nodeData, UniqueGroups(nodeData), showAllNodes, childParentMap)
      ensures r.Ok? ==> handler.edges == InitialEdges(edgeData, showAllNodes, childRootMap)
      ensures r.Err? ==> handler.edges == []
    {
      r := FillGroups(images);
      if r.Err? {
        return;
      }
      assert UniqueGroups(nodeData)[..|handler.clusters|] == UniqueGroups(nodeData);
      SetInitialEdges();
    }

    /** `resetClusters` and `resetEdges` on the engine. */
    method ResetEngine()
      requires Valid()
      modifies handler
      ensures Valid() && handler.clusters == [] && handler.edges == []
      ensures handler.Registers() == Registry([], [], old(handler.savedImages))
      ensures handler.SettingsAndDot() == old(handler.SettingsAndDot())
    {
      handler.ResetClusters();
      handler.ResetEdges();
    }

    /** The engine's edges set to the data edges between visible ends. */
    method SetInitialEdges()
      requires Valid()
      modifies handler
      ensures Valid() && handler.clusters == old(handler.clusters) && Views(handler.clusters) == old(Views(handler.clusters))
      ensures handler.Registers() == old(handler.Registers()) && handler.SettingsAndDot() == old(handler.SettingsAndDot())
      ensures handler.edges == InitialEdges(edgeData, showAllNodes, childRootMap)
    {
      var clusterEdges := SelectEdges(edgeData, showAllNodes, childRootMap);
      handler.SetEdges(clusterEdges);
    }

    /** The hierarchy maps, stored. */
    method StoreMaps(h: HierarchyMaps)
      requires Valid() && (h.childParentMap == map[] ==> h.parentDirectChildMap == map[])
      modifies this
      ensures Valid() && Maps() == h
      ensures Fetched() == old(Fetched()) && ColorState() == old(ColorState())
    {
      parentChildMap, childRootMap, childParentMap, parentDirectChildMap := h.parentChildMap, h.childRootMap, h.childParentMap, h.parentDirectChildMap;
    }

    /** The clusters of `setScenarioData`, one per group in order, each
        receiving the nodes its group selects; a throw ends the loop
        before the cluster that threw is set. */
    method FillGroups(images: Value -> Value) returns (r: Result<(), ViewError>)
      requires Valid() && handler.clusters == []
      modifies this, handler
      ensures Valid() && Data() == old(Data())
      ensures handler.edges == old(handler.edges) && handler.SettingsAndDot() == old(handler.SettingsAndDot())
      ensures var f := Filled(old(ColorState()), UniqueGroups(nodeData), nodeData, showAllNodes, childParentMap, images);
        Views(handler.clusters) == f.0 && ColorState() == f.1 && (r.Err? <==> f.2)
      ensures handler.Registers() == RecordedViews(old(handler.Registers()), Views(handler.clusters))
      ensures |handler.clusters| <= |UniqueGroups(nodeData)|
      ensures r.Ok? <==> |handler.clusters| == |UniqueGroups(nodeData)|
      ensures forall i :: 0 <= i < |handler.clusters| ==>
        Holds(View(handler.clusters[i]), UniqueGroups(nodeData)[i], Ids(Chosen(nodeData, UniqueGroups(nodeData)[i], showAllNodes, childParentMap)))
      ensures handler.nodesIds ==
        old(handler.nodesIds) + ChosenIds(nodeData, UniqueGroups(nodeData)[..|handler.clusters|], showAllNodes, childParentMap)
    {
      var uniqueGroups := UniqueGroups(nodeData);
      ghost var reg, p := handler.Registers(), ColorState();
      r := FillClusters(uniqueGroups, images);
      FilledShape(p, uniqueGroups, nodeData, showAllNodes, childParentMap, images);
      RecordedChosen(reg, Views(handler.clusters), nodeData, uniqueGroups, showAllNodes, childParentMap);
    }

    /** One cluster per group, in order; a throw while resolving a
        cluster's nodes ends the loop before that cluster is set. */
    method FillClusters(uniqueGroups: seq<Value>, images: Value -> Value) returns (r: Result<(), ViewError>)
      requires Valid() && handler.clusters == []
      modifies this, handler
      ensures Valid() && Kept() == old(Kept())
      ensures var f := Filled(old(ColorState()), uniqueGroups, nodeData, showAllNodes, childParentMap, images);
        Views(handler.clusters) == f.0 && ColorState() == f.1 && (r.Err? <==> f.2)
      ensures handler.Registers() == RecordedViews(old(handler.Registers()), Views(handler.clusters))
    {
      ghost var reg, p := handler.Registers(), ColorState();
      var i := 0;
      while i < |uniqueGroups|
        invariant 0 <= i <= |uniqueGroups|
        invariant Valid() && Kept() == old(Kept())
        invariant |handler.clusters| == i
        invariant var f := Filled(p, uniqueGroups[..i], nodeData, showAllNodes, childParentMap, images);
          Views(handler.clusters) == f.0 && ColorState() == f.1 && !f.2
        invariant handler.Registers() == RecordedViews(reg, Views(handler.clusters))
      {
        r := FillNext(uniqueGroups, i, images, reg, p);
        if r.Err? {
          FilledDone(p, uniqueGroups, nodeData, showAllNodes, childParentMap, images, i + 1);
          return;
        }
        i := i + 1;
      }
      assert uniqueGroups[..i] == uniqueGroups;
      r := Ok(());
    }

    /** One pass of that loop: the next group's cluster joins those set. */
    method FillNext(uniqueGroups: seq<Value>, i: nat, images: Value -> Value, ghost reg: Registry, ghost p: Palette)
      returns (r: Result<(), ViewError>)
      requires Valid() && i < |uniqueGroups| && |handler.clusters| == i
      requires var f := Filled(p, uniqueGroups[..i], nodeData, showAllNodes, childParentMap, images);
        Views(handler.clusters) == f.0 && ColorState() == f.1 && !f.2
      requires handler.Registers() == RecordedViews(reg, Views(handler.clusters))
      modifies this, handler
      ensures Valid() && Kept() == old(Kept())
      ensures var f := Filled(p, uniqueGroups[..i + 1], nodeData, showAllNodes, childParentMap, images);
        Views(handler.clusters) == f.0 && ColorState() == f.1 && (r.Err? <==> f.2)
      ensures handler.Registers() == RecordedViews(reg, Views(handler.clusters))
      ensures r.Ok? ==> |handler.clusters| == i + 1
    {
      ghost var vs := Views(handler.clusters);
      FillWithStep(GroupPassOf(nodeData, showAllNodes, childParentMap, images), p, uniqueGroups, i);
      r := FillCluster(uniqueGroups[i], images);
      if r.Ok? {
        assert (vs + [View(handler.clusters[i])])[..i] == vs;
      }
    }

    /** One cluster of `setScenarioData`: it is named after the group and
        coloured, receives the group's selected nodes, and is handed to
        the engine unless resolving them throws. */
    method FillCluster(clusterName: Value, images: Value -> Value) returns (r: Result<(), ViewError>)
      requires Valid()
      modifies this, handler
      ensures Valid() && Kept() == old(Kept())
      ensures var g := GroupCluster(old(ColorState()), clusterName, nodeData, showAllNodes, childParentMap, images);
        && ColorState() == g.1
        && (r.Err? <==> g.2.Some?)
        && (r.Err? ==> r == Err(Unresolved(g.2.value)) && handler.clusters == old(handler.clusters)
                       && Views(handler.clusters) == old(Views(handler.clusters)) && handler.Registers() == old(handler.Registers()))
        && (r.Ok? ==> |handler.clusters| == |old(handler.clusters)| + 1
                      && Views(handler.clusters) == old(Views(handler.clusters)) + [g.0]
                      && handler.Registers() == Recorded(old(handler.Registers()), g.0.nodes))
    {
      var a, failed := GroupClusterOf(clusterName, images);
      if failed.Some? {
        return Err(Unresolved(failed.value));
      }
      AddCluster(a);
      r := Ok(());
    }

    /** A group's cluster, built but not yet handed to the engine: its
        colour, its selected nodes, and the first symbol error resolving
        them meets. */
    method GroupClusterOf(clusterName: Value, images: Value -> Value) returns (a: Cluster, failed: Option<SymbolError>)
      requires Valid()
      modifies this
      ensures Valid() && Kept() == old(Kept()) && fresh(a)
      ensures handler.clusters == old(handler.clusters) && Views(handler.clusters) == old(Views(handler.clusters))
      ensures handler.Registers() == old(handler.Registers())
      ensures var g := GroupCluster(old(ColorState()), clusterName, nodeData, showAllNodes, childParentMap, images);
        View(a) == g.0 && ColorState() == g.1 && failed == g.2
    {
      ghost var vs := Views(handler.clusters);
      var groupColor, clusterNodes := ColoredNodes(clusterName, images);
      a, failed := NewCluster(clusterName, groupColor, clusterNodes);
      assert Views(handler.clusters) == vs;
    }

    /** The group's colour and its selected nodes, as the palette
        assigns them. */
    method ColoredNodes(clusterName: Value, images: Value -> Value) returns (groupColor: string, clusterNodes: seq<Node>)
      requires Valid()
      modifies this
      ensures Valid() && Data() == old(Data())
      ensures var g := GroupCluster(old(ColorState()), clusterName, nodeData, showAllNodes, childParentMap, images);
        g == (ClusterView(clusterName, GroupSettings(groupColor), ScaledImages, ResolveAll(clusterNodes).0),
              ColorState(), ResolveAll(clusterNodes).1)
    {
      groupColor := GetColor(Group(clusterName));
      clusterNodes := SelectNodes(clusterName, images);
    }

    /** `handler.setCluster`, for a cluster the engine does not hold yet. */
    method AddCluster(a: Cluster)
      requires Valid() && a !in handler.clusters
      modifies handler
      ensures Valid()
      ensures handler.clusters == old(handler.clusters) + [a] && Views(handler.clusters) == old(Views(handler.clusters)) + [View(a)]
      ensures handler.Registers() == Recorded(old(handler.Registers()), a.nodes)
      ensures handler.edges == old(handler.edges) && handler.SettingsAndDot() == old(handler.SettingsAndDot())
    {
      handler.SetCluster(a);
      ViewsAppend(old(handler.clusters), a);
    }

    /** The inner loop of `setScenarioData` over the data nodes: each
        selected node is built with its image and colour. */
    method SelectNodes(clusterName: Value, images: Value -> Value) returns (clusterNodes: seq<Node>)
      requires Valid()
      modifies this
      ensures Valid() && Data() == old(Data())
      ensures (clusterNodes, ColorState()) ==
        BuildNodes(old(ColorState()), Chosen(nodeData, clusterName, showAllNodes, childParentMap), images)
      ensures NodeIds(clusterNodes) == Ids(Chosen(nodeData, clusterName, showAllNodes, childParentMap))
    {
      clusterNodes := [];
      ghost var p := ColorState();
      var i := 0;
      while i < |nodeData|
        invariant 0 <= i <= |nodeData|
        invariant Valid() && Data() == old(Data())
        invariant (clusterNodes, ColorState()) == BuildNodes(p, Chosen(nodeData[..i], clusterName, showAllNodes, childParentMap), images)
      {
        ghost var chosen := Chosen(nodeData[..i], clusterName, showAllNodes, childParentMap);
        ChosenStep(nodeData, clusterName, showAllNodes, childParentMap, i);
        var built := SelectNode(nodeData[i], clusterName, images);
        if Selected(nodeData[i], clusterName, showAllNodes, childParentMap) {
          BuildNodesStep(p, chosen, nodeData[i], images);
          assert Chosen(nodeData[..i + 1], clusterName, showAllNodes, childParentMap) == chosen + [nodeData[i]];
        } else {
          assert Chosen(nodeData[..i + 1], clusterName, showAllNodes, childParentMap) == chosen;
          assert built == [];
          assert clusterNodes + built == clusterNodes;
        }
        clusterNodes := clusterNodes + built;
        i := i + 1;
      }
      assert nodeData[..i] == nodeData;
      BuiltIds(p, Chosen(nodeData, clusterName, showAllNodes, childParentMap), images);
    }

    /** One pass of that loop: a selected node is built with its image
        and the colour it is assigned; any other is skipped. */
    method SelectNode(node: D3Node, clusterName: Value, images: Value -> Value) returns (built: seq<Node>)
      requires Valid()
      modifies this
      ensures Valid() && Data() == old(Data())
      ensures Selected(node, clusterName, showAllNodes, childParentMap) ==>
        var colored := AssignColor(old(ColorState()), ColorKey(NodeColor(node)));
        built == [MakeNode(node, images(FirstLabel(node)), colored.0)] && ColorState() == colored.1
      ensures !Selected(node, clusterName, showAllNodes, childParentMap) ==>
        built == [] && ColorState() == old(ColorState())
    {
      built := [];
      if GroupOf(node) == clusterName {
        var name := DisplayName(node);
        if showAllNodes && "parent" !in node.labels {
          var image := images(FirstLabel(node));
          var color := GetColor(NodeColor(node));
          built := [MakeNode(node, image, color)];
        }
        if !showAllNodes && !IsChild(node.id) {
          var image := images(FirstLabel(node));
          var color := GetColor(NodeColor(node));
          built := [MakeNode(node, image, color)];
        }
      }
    }

    // -------------------------------------------------------------------
    // Expand

    /** Expanding a parent: it leaves the engine with its edges, its
        direct children the node index knows are added, and every data
        edge touching them is added with each end rewritten to a visible
        node. A walk that does not end within `|childParentMap| + 1`
        steps is the source's endless loop. */
    method ExpandNode(id: Id, images: Value -> Value) returns (r: Result<seq<Id>, ViewError>)
      requires Valid()
      modifies this, handler, handler.clusters
      ensures Valid() && Data() == old(Data())
      ensures handler.clusters == old(handler.clusters) && handler.SettingsAndDot() == old(handler.SettingsAndDot())
      ensures id !in parentChildMap ==>
        r == Ok([]) && handler.edges == old(handler.edges) && handler.Registers() == old(handler.Registers())
        && Views(handler.clusters) == old(Views(handler.clusters)) && ColorState() == old(ColorState())
      ensures id in parentChildMap && id !in parentDirectChildMap ==>
        r == Err(NotIterable) && handler.edges == EdgesAvoiding(old(handler.edges), id)
        && handler.Registers() == Forgotten(old(handler.Registers()), id)
        && Views(handler.clusters) == WithoutNodeAll(old(Views(handler.clusters)), id) && ColorState() == old(ColorState())
      ensures r.Err? ==> r.error == NotIterable || r.error == Diverged || r.error.Engine?
      ensures id in parentChildMap && (r.Ok? || r == Err(Diverged)) ==>
        id in parentDirectChildMap
        && (Views(handler.clusters), ColorState(), handler.Registers()) ==
             Additions(handler.clusters, WithoutNodeAll(old(Views(handler.clusters)), id), old(ColorState()),
                       Forgotten(old(handler.Registers()), id), parentDirectChildMap[id], nodeMap, images)
        && handler.nodesIds == Forgotten(old(handler.Registers()), id).nodesIds + Present(parentDirectChildMap[id], nodeMap)
      ensures id in parentChildMap && r.Ok? ==>
        id in parentDirectChildMap
        && r.value == Present(parentDirectChildMap[id], nodeMap)
        && var added := ExpandEdges(edgeData, r.value, handler.nodesIds, childParentMap, |childParentMap| + 1);
           added.Some?
           && handler.edges == EdgesAvoiding(old(handler.edges), id) + added.value
           && forall e :: e in added.value ==> Visible(handler.nodesIds, e.source) && Visible(handler.nodesIds, e.target)
    {
      if id !in parentChildMap {
        return Ok([]);
      }
      LeaveEngine(id);
      if id !in parentDirectChildMap {
        return Err(NotIterable);
      }
      r := ExpandChildren(parentDirectChildMap[id], images);
    }

    /** Expand once the parent has left: its children are added, then the
        data edges touching them. */
    method ExpandChildren(children: seq<Id>, images: Value -> Value) returns (r: Result<seq<Id>, ViewError>)
      requires Valid()
      modifies this, handler, handler.clusters
      ensures Valid() && Data() == old(Data())
      ensures handler.clusters == old(handler.clusters) && handler.SettingsAndDot() == old(handler.SettingsAndDot())
      ensures r.Err? ==> r.error == Diverged || r.error.Engine?
      ensures !(r.Err? && r.error.Engine?) ==>
        (Views(handler.clusters), ColorState(), handler.Registers()) ==
          Additions(handler.clusters, old(Views(handler.clusters)), old(ColorState()), old(handler.Registers()), children, nodeMap, images)
        && handler.nodesIds == old(handler.nodesIds) + Present(children, nodeMap)
      ensures r.Ok? ==>
        && r.value == Present(children, nodeMap)
        && var added := ExpandEdges(edgeData, r.value, handler.nodesIds, childParentMap, |childParentMap| + 1);
           added.Some?
           && handler.edges == old(handler.edges) + added.value
           && forall e :: e in added.value ==> Visible(handler.nodesIds, e.source) && Visible(handler.nodesIds, e.target)
    {
      var added := AddChildren(children, images);
      if added.Err? {
        return Err(added.error);
      }
      var res := AddExpandedEdges(added.value);
      if res.Err? {
        return Err(res.error);
      }
      ExpandEdgesVisible(edgeData, added.value, handler.nodesIds, childParentMap, |childParentMap| + 1);
      r := added;
    }

    /** The expanded parent leaves the engine: `removeNode`, then
        `removeEdgeByNode`. */
    method LeaveEngine(id: Id)
      requires Valid()
      modifies handler, handler.clusters
      ensures Valid() && handler.clusters == old(handler.clusters)
      ensures handler.Registers() == Forgotten(old(handler.Registers()), id)
      ensures handler.SettingsAndDot() == old(handler.SettingsAndDot())
      ensures Views(handler.clusters) == WithoutNodeAll(old(Views(handler.clusters)), id)
      ensures handler.edges == EdgesAvoiding(old(handler.edges), id)
    {
      ghost var vs := Views(handler.clusters);
      handler.RemoveNode(id);
      assert Views(handler.clusters) == WithoutNodeAll(vs, id);
      var _ := handler.RemoveEdgeByNode(id);
    }

    /** Expand's loop over the direct children: each one the node index
        knows is recorded and added to the cluster of its group, with the
        colour it is assigned. */
    method AddChildren(children: seq<Id>, images: Value -> Value) returns (r: Result<seq<Id>, ViewError>)
      requires Valid()
      modifies this, handler, handler.clusters
      ensures Valid() && Data() == old(Data())
      ensures handler.clusters == old(handler.clusters) && handler.edges == old(handler.edges)
      ensures handler.SettingsAndDot() == old(handler.SettingsAndDot())
      ensures r.Err? ==> r.error.Engine?
      ensures r.Ok? ==>
        && r.value == Present(children, nodeMap)
        && handler.nodesIds == old(handler.nodesIds) + r.value
        && (Views(handler.clusters), ColorState(), handler.Registers()) ==
             Additions(handler.clusters, old(Views(handler.clusters)), old(ColorState()), old(handler.Registers()), children, nodeMap, images)
    {
      ghost var vs, p, reg, ids := Views(handler.clusters), ColorState(), handler.Registers(), handler.nodesIds;
      assert children[..|children|] == children;
      var nodesToAdd := [];
      var i := 0;
      while i < |children|
        invariant 0 <= i <= |children|
        invariant Valid() && Data() == old(Data())
        invariant handler.clusters == old(handler.clusters) && handler.edges == old(handler.edges)
        invariant handler.SettingsAndDot() == old(handler.SettingsAndDot())
        invariant nodesToAdd == Present(children[..i], nodeMap) && handler.nodesIds == ids + nodesToAdd
        invariant (Views(handler.clusters), ColorState(), handler.Registers()) ==
          Additions(handler.clusters, vs, p, reg, children[..i], nodeMap, images)
      {
        var next := AddChildNext(children, i, images, vs, p, reg, ids, nodesToAdd);
        if next.Err? {
          return Err(next.error);
        }
        nodesToAdd := next.value;
        i := i + 1;
      }
      r := Ok(nodesToAdd);
    }

    /** One pass of that loop: a child the node index knows is added and
        listed; any other is skipped. */
    method AddChildNext(children: seq<Id>, i: nat, images: Value -> Value, ghost vs: seq<ClusterView>, ghost p: Palette,
                        ghost reg: Registry, ghost ids: seq<Id>, nodesToAdd: seq<Id>) returns (r: Result<seq<Id>, ViewError>)
      requires Valid() && i < |children|
      requires nodesToAdd == Present(children[..i], nodeMap) && handler.nodesIds == ids + nodesToAdd
      requires (Views(handler.clusters), ColorState(), handler.Registers()) ==
        Additions(handler.clusters, vs, p, reg, children[..i], nodeMap, images)
      modifies this, handler, handler.clusters
      ensures Valid() && Data() == old(Data())
      ensures handler.clusters == old(handler.clusters) && handler.edges == old(handler.edges)
      ensures handler.SettingsAndDot() == old(handler.SettingsAndDot())
      ensures r.Err? ==> r.error.Engine?
      ensures r.Ok? ==>
        && r.value == Present(children[..i + 1], nodeMap) && handler.nodesIds == ids + r.value
        && (Views(handler.clusters), ColorState(), handler.Registers()) ==
             Additions(handler.clusters, vs, p, reg, children[..i + 1], nodeMap, images)
    {
      var node := children[i];
      PresentStep(children, nodeMap, i);
      AdditionsStep(handler.clusters, vs, p, reg, children, nodeMap, images, i);
      if node in nodeMap {
        assert nodeMap[node].id == node;
        var res := AddDataNode(nodeMap[node], images);
        if res.Err? {
          return Err(res.error);
        }
        AppendAssoc(ids, nodesToAdd, [node]);
        r := Ok(nodesToAdd + [node]);
      } else {
        assert nodesToAdd + [] == nodesToAdd;
        r := Ok(nodesToAdd);
      }
    }

    /** `handler.addNode` for a data node, with its group, label, image and
        colour. */
    method AddDataNode(n: D3Node, images: Value -> Value) returns (r: Result<(), ViewError>)
      requires Valid()
      modifies this, handler, handler.clusters
      ensures Valid() && Data() == old(Data())
      ensures handler.clusters == old(handler.clusters) && handler.edges == old(handler.edges)
      ensures handler.SettingsAndDot() == old(handler.SettingsAndDot())
      ensures ColorState() == AssignColor(old(ColorState()), ColorKey(NodeColor(n))).1
      ensures r.Ok? <==>
        ClusterIndexByName(handler.clusters, GroupOf(n)).Some?
        && AddSymbol(MakeNode(n, images(FirstLabel(n)), AssignColor(old(ColorState()), ColorKey(NodeColor(n))).0)).Ok?
      ensures r.Ok? ==> handler.nodesIds == old(handler.nodesIds) + [n.id]
      ensures r.Err? ==> handler.nodesIds == old(handler.nodesIds) && r.error.Engine?
      ensures Views(handler.clusters) == AddedAt(old(Views(handler.clusters)), ClusterIndexByName(handler.clusters, GroupOf(n)),
        MakeNode(n, images(FirstLabel(n)), AssignColor(old(ColorState()), ColorKey(NodeColor(n))).0))
      ensures handler.Registers() == RecordedAt(old(handler.Registers()), ClusterIndexByName(handler.clusters, GroupOf(n)),
        MakeNode(n, images(FirstLabel(n)), AssignColor(old(ColorState()), ColorKey(NodeColor(n))).0))
    {
      ghost var vs := Views(handler.clusters);
      var image := images(FirstLabel(n));
      var color := GetColor(NodeColor(n));
      assert Views(handler.clusters) == vs;
      r := AddEngineNode(GroupOf(n), MakeNode(n, image, color));
    }

    /** `handler.addNode`, seen from the viewer. */
    method AddEngineNode(name: Value, node: Node) returns (r: Result<(), ViewError>)
      requires Valid()
      modifies handler, handler.clusters
      ensures Valid()
      ensures handler.clusters == old(handler.clusters) && handler.edges == old(handler.edges)
      ensures handler.SettingsAndDot() == old(handler.SettingsAndDot())
      ensures r.Ok? <==> ClusterIndexByName(handler.clusters, name).Some? && AddSymbol(node).Ok?
      ensures r.Ok? ==> handler.nodesIds == old(handler.nodesIds) + [node.id]
      ensures r.Err? ==> handler.nodesIds == old(handler.nodesIds) && r.error.Engine?
      ensures Views(handler.clusters) == AddedAt(old(Views(handler.clusters)), ClusterIndexByName(handler.clusters, name), node)
      ensures handler.Registers() == RecordedAt(old(handler.Registers()), ClusterIndexByName(handler.clusters, name), node)
    {
      var res := handler.AddNode(name, node);
      if res.Err? {
        return Err(Engine(res.error));
      }
      r := Ok(());
    }

    /** Expand's loop over the data edges: each edge touching the added
        nodes is rewritten and added. */
    method AddExpandedEdges(added: seq<Id>) returns (r: Result<(), ViewError>)
      requires Valid() && forall c :: c in added ==> c in handler.nodesIds
      modifies handler
      ensures Valid()
      ensures handler.clusters == old(handler.clusters) && Views(handler.clusters) == old(Views(handler.clusters))
      ensures handler.Registers() == old(handler.Registers()) && handler.SettingsAndDot() == old(handler.SettingsAndDot())
      ensures var expected := ExpandEdges(edgeData, added, handler.nodesIds, childParentMap, |childParentMap| + 1);
        (r.Ok? <==> expected.Some?)
        && (r.Ok? ==> handler.edges == old(handler.edges) + expected.value)
        && (r.Err? ==> r.error == Diverged)
    {
      var fuel := |childParentMap| + 1;
      var i := 0;
      while i < |edgeData|
        invariant 0 <= i <= |edgeData|
        invariant Valid()
        invariant handler.clusters == old(handler.clusters) && handler.Registers() == old(handler.Registers())
        invariant handler.SettingsAndDot() == old(handler.SettingsAndDot())
        invariant ExpandEdges(edgeData[..i], added, handler.nodesIds, childParentMap, fuel).Some?
        invariant handler.edges == old(handler.edges) + ExpandEdges(edgeData[..i], added, handler.nodesIds, childParentMap, fuel).value
      {
        ExpandEdgesStep(edgeData, added, handler.nodesIds, childParentMap, fuel, i);
        var ended := AddExpandedEdge(edgeData[i], added, fuel);
        if !ended {
          ExpandEdgesStuck(edgeData, added, handler.nodesIds, childParentMap, fuel, i + 1);
          return Err(Diverged);
        }
        i := i + 1;
      }
      assert edgeData[..i] == edgeData;
      r := Ok(());
    }

    /** One data edge of expand's loop: added, rewritten, when it touches
        the added nodes; `false` when a walk does not end. */
    method AddExpandedEdge(edge: D3Edge, added: seq<Id>, fuel: nat) returns (ended: bool)
      requires Valid()
      modifies handler
      ensures Valid()
      ensures handler.clusters == old(handler.clusters) && Views(handler.clusters) == old(Views(handler.clusters))
      ensures handler.Registers() == old(handler.Registers()) && handler.SettingsAndDot() == old(handler.SettingsAndDot())
      ensures !Touches(edge, added, childParentMap) ==> ended && handler.edges == old(handler.edges)
      ensures Touches(edge, added, childParentMap) ==>
        var e := ExpandEdge(edge, added, handler.nodesIds, childParentMap, fuel);
        (ended <==> e.Some?)
        && handler.edges == old(handler.edges) + (if e.Some? then [e.value] else [])
    {
      ended := true;
      if Touches(edge, added, childParentMap) {
        var e := RewriteExpanded(edge, added, fuel);
        if e.None? {
          return false;
        }
        handler.AddEdge(e.value);
      }
    }

    /** The ends of a re-added edge: moved to a just-added parent, then
        climbed to a visible node when the data end is not visible. */
    method RewriteExpanded(edge: D3Edge, added: seq<Id>, fuel: nat) returns (r: Option<Edge>)
      ensures r == ExpandEdge(edge, added, handler.nodesIds, childParentMap, fuel)
    {
      var source := edge.source;
      var target := edge.target;
      if edge.target in childParentMap && childParentMap[edge.target] in added {
        target := childParentMap[edge.target];
      }
      if edge.source in childParentMap && childParentMap[edge.source] in added {
        source := childParentMap[edge.source];
      }
      if !handler.HasNode(edge.source) {
        var reached := ClimbToVisible(edge.source, fuel);
        if reached.None? {
          return None;
        }
        source := reached.value;
      }
      if !handler.HasNode(edge.target) {
        var reached := ClimbToVisible(edge.target, fuel);
        if reached.None? {
          return None;
        }
        target := reached.value;
      }
      r := Some(Edge(Str(source), Str(target), EdgeSettings(edge)));
    }

    /** Expand's `while (!handler.hasNode(x)) x = childParentMap.get(x)`,
        cut after `fuel` steps. */
    method ClimbToVisible(x: Id, fuel: nat) returns (r: Option<Id>)
      ensures r == Climb(handler.nodesIds, childParentMap, Str(x), fuel)
    {
      var currentNode := Str(x);
      var steps := 0;
      while !Visible(handler.nodesIds, currentNode) && steps < fuel
        invariant 0 <= steps <= fuel
        invariant Climb(handler.nodesIds, childParentMap, currentNode, fuel - steps) == Climb(handler.nodesIds, childParentMap, Str(x), fuel)
        decreases fuel - steps
      {
        currentNode := ParentOf(childParentMap, currentNode);
        steps := steps + 1;
      }
      r := if Visible(handler.nodesIds, currentNode) then Some(currentNode.text) else None;
    }

    // -------------------------------------------------------------------
    // Collapse

    /** Collapsing a child: every descendant of its parent leaves the
        engine with its edges, the parent is added, and each removed edge
        is added back with removed ends moved to the parent and other
        invisible ends climbed at most ten steps. */
    method CollapseNode(id: Id, images: Value -> Value) returns (r: Result<(), ViewError>)
      requires Valid()
      modifies this, handler, handler.clusters
      ensures Valid() && Data() == old(Data())
      ensures handler.clusters == old(handler.clusters) && handler.SettingsAndDot() == old(handler.SettingsAndDot())
      ensures id !in childParentMap || childParentMap[id] !in parentChildMap ==>
        r == (if id !in childParentMap then Ok(()) else Err(NotIterable))
        && handler.edges == old(handler.edges) && handler.Registers() == old(handler.Registers())
        && Views(handler.clusters) == old(Views(handler.clusters)) && ColorState() == old(ColorState())
      ensures id in childParentMap && childParentMap[id] in parentChildMap ==>
        var parentID := childParentMap[id];
        var children := parentChildMap[parentID];
        var stripped := StripAll(old(handler.edges), children);
        && (r.Err? ==> r.error == MissingNode || r.error == MissingEdge || r.error.Engine?)
        && (parentID !in nodeMap ==>
              r == Err(MissingNode) && handler.edges == stripped.0 && ColorState() == old(ColorState())
              && handler.Registers() == ForgetAll(old(handler.Registers()), children)
              && Views(handler.clusters) == ForgetViews(old(Views(handler.clusters)), children))
        && (parentID in nodeMap ==>
              var n := nodeMap[parentID];
              var colored := AssignColor(old(ColorState()), ColorKey(NodeColor(n)));
              var node := MakeNode(n, images(FirstLabel(n)), colored.0);
              var k := ClusterIndexByName(handler.clusters, GroupOf(n));
              && ColorState() == colored.1
              && Views(handler.clusters) == AddedAt(ForgetViews(old(Views(handler.clusters)), children), k, node)
              && handler.Registers() == RecordedAt(ForgetAll(old(handler.Registers()), children), k, node))
        && (r.Err? && r.error.Engine? ==> handler.edges == stripped.0)
        && (r.Ok? ==>
              && handler.nodesIds == ForgetAll(old(handler.Registers()), children).nodesIds + [parentID]
              && var restored := CollapseEdges(stripped.1, edgeMap, children, parentID, handler.nodesIds, childParentMap);
                 restored.Ok? && handler.edges == stripped.0 + restored.value)
    {
      if id !in childParentMap {
        return Ok(());
      }
      var parentID := childParentMap[id];
      if parentID !in parentChildMap {
        return Err(NotIterable);
      }
      r := CollapseInto(parentID, images);
    }

    /** Collapse under a known parent: its descendants leave, then it comes
        back with the removed edges rerouted to it. */
    method CollapseInto(parentID: Id, images: Value -> Value) returns (r: Result<(), ViewError>)
      requires Valid() && parentID in parentChildMap
      modifies this, handler, handler.clusters
      ensures Valid() && Data() == old(Data())
      ensures handler.clusters == old(handler.clusters) && handler.SettingsAndDot() == old(handler.SettingsAndDot())
      ensures r.Err? ==> r.error == MissingNode || r.error == MissingEdge || r.error.Engine?
      ensures parentID !in nodeMap ==>
        var children := parentChildMap[parentID];
        r == Err(MissingNode) && handler.edges == StripAll(old(handler.edges), children).0 && ColorState() == old(ColorState())
        && handler.Registers() == ForgetAll(old(handler.Registers()), children)
        && Views(handler.clusters) == ForgetViews(old(Views(handler.clusters)), children)
      ensures parentID in nodeMap ==>
        var children := parentChildMap[parentID];
        var n := nodeMap[parentID];
        var colored := AssignColor(old(ColorState()), ColorKey(NodeColor(n)));
        var node := MakeNode(n, images(FirstLabel(n)), colored.0);
        var k := ClusterIndexByName(handler.clusters, GroupOf(n));
        && ColorState() == colored.1
        && Views(handler.clusters) == AddedAt(ForgetViews(old(Views(handler.clusters)), children), k, node)
        && handler.Registers() == RecordedAt(ForgetAll(old(handler.Registers()), children), k, node)
      ensures r.Err? && r.error.Engine? ==> handler.edges == StripAll(old(handler.edges), parentChildMap[parentID]).0
      ensures r.Ok? ==>
        parentID in nodeMap
        && handler.nodesIds == ForgetAll(old(handler.Registers()), parentChildMap[parentID]).nodesIds + [parentID]
      ensures r.Ok? ==>
        var stripped := StripAll(old(handler.edges), parentChildMap[parentID]);
        var restored := CollapseEdges(stripped.1, edgeMap, parentChildMap[parentID], parentID, handler.nodesIds, childParentMap);
        restored.Ok? && handler.edges == stripped.0 + restored.value
    {
      var childrenIDs := parentChildMap[parentID];
      var removedEdges := RemoveChildren(childrenIDs);
      if parentID !in nodeMap {
        return Err(MissingNode);
      }
      var res := RestoreParent(parentID, images);
      if res.Err? {
        return Err(res.error);
      }
      r := ReAddEdges(removedEdges, childrenIDs, parentID);
    }

    /** Collapse once the descendants have left: the parent comes back as a
        data node. */
    method RestoreParent(parentID: Id, images: Value -> Value) returns (r: Result<(), ViewError>)
      requires Valid() && parentID in nodeMap
      modifies this, handler, handler.clusters
      ensures Valid() && Data() == old(Data())
      ensures handler.clusters == old(handler.clusters) && handler.edges == old(handler.edges)
      ensures handler.SettingsAndDot() == old(handler.SettingsAndDot())
      ensures r.Err? ==> r.error.Engine? && handler.nodesIds == old(handler.nodesIds)
      ensures r.Ok? ==> handler.nodesIds == old(handler.nodesIds) + [parentID]
      ensures
        var n := nodeMap[parentID];
        var colored := AssignColor(old(ColorState()), ColorKey(NodeColor(n)));
        var node := MakeNode(n, images(FirstLabel(n)), colored.0);
        var k := ClusterIndexByName(handler.clusters, GroupOf(n));
        && ColorState() == colored.1
        && Views(handler.clusters) == AddedAt(old(Views(handler.clusters)), k, node)
        && handler.Registers() == RecordedAt(old(handler.Registers()), k, node)
    {
      var n := nodeMap[parentID];
      assert n.id == parentID;
      r := AddDataNode(n, images);
    }

    /** Collapse's loop over the descendants: each loses its edges, whose
        ids are kept in removal order, and then leaves the engine. */
    method RemoveChildren(children: seq<Id>) returns (removed: seq<Value>)
      requires Valid()
      modifies handler, handler.clusters
      ensures Valid()
      ensures handler.clusters == old(handler.clusters) && handler.SettingsAndDot() == old(handler.SettingsAndDot())
      ensures (handler.edges, removed) == StripAll(old(handler.edges), children)
      ensures handler.Registers() == ForgetAll(old(handler.Registers()), children)
      ensures Views(handler.clusters) == ForgetViews(old(Views(handler.clusters)), children)
    {
      removed := [];
      ghost var vs := Views(handler.clusters);
      var i := 0;
      while i < |children|
        invariant 0 <= i <= |children|
        invariant Valid() && handler.clusters == old(handler.clusters)
        invariant handler.SettingsAndDot() == old(handler.SettingsAndDot())
        invariant (handler.edges, removed) == StripAll(old(handler.edges), children[..i])
        invariant handler.Registers() == ForgetAll(old(handler.Registers()), children[..i])
        invariant forall j :: 0 <= j < |handler.clusters| ==> View(handler.clusters[j]) == ForgetViews(vs, children[..i])[j]
      {
        var childID := children[i];
        StripAllStep(old(handler.edges), children, i);
        ForgetStep(old(handler.Registers()), vs, children, i);
        var ids := RemoveChild(childID);
        removed := removed + ids;
        i := i + 1;
      }
      assert children[..i] == children;
      assert Views(handler.clusters) == ForgetViews(vs, children);
    }

    /** One pass of that loop: the child's edges leave the engine, their
        ids are returned, and the child itself is removed. */
    method RemoveChild(childID: Id) returns (ids: seq<Value>)
      requires Valid()
      modifies handler, handler.clusters
      ensures Valid()
      ensures handler.clusters == old(handler.clusters) && handler.SettingsAndDot() == old(handler.SettingsAndDot())
      ensures handler.edges == EdgesAvoiding(old(handler.edges), childID) && ids == EdgeIdsTouching(old(handler.edges), childID)
      ensures handler.Registers() == Forgotten(old(handler.Registers()), childID)
      ensures forall j :: 0 <= j < |handler.clusters| ==> View(handler.clusters[j]) == WithoutNode(old(View(handler.clusters[j])), childID)
    {
      ids := handler.RemoveEdgeByNode(childID);
      ForgetNode(childID);
    }

    /** `handler.removeNode`, stated cluster by cluster. */
    method ForgetNode(id: Id)
      requires Valid()
      modifies handler, handler.clusters
      ensures Valid()
      ensures handler.clusters == old(handler.clusters) && handler.edges == old(handler.edges)
      ensures handler.SettingsAndDot() == old(handler.SettingsAndDot())
      ensures handler.Registers() == Forgotten(old(handler.Registers()), id)
      ensures forall j :: 0 <= j < |handler.clusters| ==> View(handler.clusters[j]) == WithoutNode(old(View(handler.clusters[j])), id)
    {
      ghost var before := Views(handler.clusters);
      handler.RemoveNode(id);
      assert forall j :: 0 <= j < |handler.clusters| ==> View(handler.clusters[j]) == WithoutNode(before[j], id);
    }

    /** Collapse's loop over the removed edge ids: each edge is looked up
        and added back with its ends rewritten. */
    method ReAddEdges(removed: seq<Value>, children: seq<Id>, parentID: Id) returns (r: Result<(), ViewError>)
      requires Valid()
      modifies handler
      ensures Valid()
      ensures handler.clusters == old(handler.clusters) && Views(handler.clusters) == old(Views(handler.clusters))
      ensures handler.Registers() == old(handler.Registers()) && handler.SettingsAndDot() == old(handler.SettingsAndDot())
      ensures var expected := CollapseEdges(removed, edgeMap, children, parentID, handler.nodesIds, childParentMap);
        (r.Ok? <==> expected.Ok?)
        && (r.Ok? ==> handler.edges == old(handler.edges) + expected.value)
        && (r.Err? ==> r.error == MissingEdge)
    {
      var i := 0;
      while i < |removed|
        invariant 0 <= i <= |removed|
        invariant Valid()
        invariant handler.clusters == old(handler.clusters) && handler.Registers() == old(handler.Registers())
        invariant handler.SettingsAndDot() == old(handler.SettingsAndDot())
        invariant CollapseEdges(removed[..i], edgeMap, children, parentID, handler.nodesIds, childParentMap).Ok?
        invariant handler.edges == old(handler.edges)
          + CollapseEdges(removed[..i], edgeMap, children, parentID, handler.nodesIds, childParentMap).value
      {
        var edgeID := removed[i];
        if !(edgeID.Str? && edgeID.text in edgeMap) {
          CollapseEdgesShape(removed, edgeMap, children, parentID, handler.nodesIds, childParentMap);
          return Err(MissingEdge);
        }
        CollapseEdgesStep(removed, edgeMap, children, parentID, handler.nodesIds, childParentMap, i);
        var e := RewriteCollapsed(edgeMap[edgeID.text], children, parentID);
        handler.AddEdge(e);
        i := i + 1;
      }
      assert removed[..i] == removed;
      r := Ok(());
    }

    /** The ends of an edge added back: a removed end becomes the parent,
        and an invisible end climbs at most ten steps. */
    method RewriteCollapsed(edge: D3Edge, children: seq<Id>, parentID: Id) returns (e: Edge)
      ensures e == CollapseEdge(edge, children, parentID, handler.nodesIds, childParentMap)
    {
      var source := edge.source;
      var target := edge.target;
      if source in children {
        source := parentID;
      }
      if target in children {
        target := parentID;
      }
      var sourceEnd := Str(source);
      if !handler.HasNode(source) {
        sourceEnd := CappedClimbToVisible(source);
      }
      var targetEnd := Str(target);
      if !handler.HasNode(target) {
        targetEnd := CappedClimbToVisible(target);
      }
      e := Edge(sourceEnd, targetEnd, EdgeSettings(edge));
    }

    /** Collapse's walk: at most ten parent steps while the node is not
        visible. */
    method CappedClimbToVisible(x: Id) returns (r: Value)
      ensures r == CappedClimb(handler.nodesIds, childParentMap, Str(x), 0)
    {
      var currentNode := Str(x);
      var n := 0;
      while !Visible(handler.nodesIds, currentNode) && n < 10
        invariant 0 <= n <= 10
        invariant CappedClimb(handler.nodesIds, childParentMap, currentNode, n) == CappedClimb(handler.nodesIds, childParentMap, Str(x), 0)
        decreases 10 - n
      {
        currentNode := ParentOf(childParentMap, currentNode);
        n := n + 1;
      }
      r := currentNode;
    }
  }

  /** The roots depend on the listed children only through membership. */
  lemma {:induction false} UnlistedSameMembers(rootNodes: seq<Id>, a: seq<Id>, b: seq<Id>)
    requires forall x :: x in a <==> x in b
    ensures Unlisted(rootNodes, a) == Unlisted(rootNodes, b)
  {
    if rootNodes != [] {
      UnlistedSameMembers(rootNodes[..|rootNodes| - 1], a, b);
    }
  }

  /** The inverted map is empty exactly when the child→parent map is. */
  lemma EmptyParents(allParents: seq<(Id, Id)>, m: map<Id, seq<Id>>)
    requires IsGrouping(m, Swap(allParents))
    ensures m == map[] <==> MapOf(allParents) == map[]
  {
    if allParents == [] {
      assert forall k :: k !in m;
    } else {
      var (c, p) := allParents[0];
      MapOfKeys(allParents, c);
      assert Firsts(allParents)[0] == c;
      assert Firsts(Swap(allParents))[0] == p;
      assert c in MapOf(allParents) && p in m;
    }
  }
}
