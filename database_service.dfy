/** The front end's conversion of a scenario's relationship records into
    the node and edge lists the viewer works on. */
module DatabaseService {
  import opened Attributes
  import opened Entities

  /** A node of the viewer's data: id, labels and properties. */
  datatype D3Node = D3Node(id: string, labels: seq<string>, properties: Attrs)

  /** An edge of the viewer's data: id, relationship type, properties and
      the ids of its end nodes. */
  datatype D3Edge = D3Edge(id: string, labels: string, properties: Attrs, source: string, target: string)

  function ToD3Node(n: NodeObject): D3Node {
    D3Node(n.identity, n.labels, n.props)
  }

  function ToD3Edge(rel: RelationshipObject): D3Edge {
    D3Edge(rel.identity, rel.labels, rel.props, rel.source.identity, rel.target.identity)
  }

  /** The end nodes of the records: source, then target, record by record. */
  function Endpoints(data: seq<RelationshipObject>): (r: seq<NodeObject>)
    ensures |r| == 2 * |data|
  {
    if data == [] then []
    else Endpoints(data[..|data| - 1]) + [data[|data| - 1].source, data[|data| - 1].target]
  }

  lemma {:induction false} EndpointsAt(data: seq<RelationshipObject>, i: nat)
    requires i < |data|
    ensures Endpoints(data)[2 * i] == data[i].source && Endpoints(data)[2 * i + 1] == data[i].target
  {
    var init := data[..|data| - 1];
    if i < |init| {
      EndpointsAt(init, i);
    }
  }

  function Ids(ns: seq<D3Node>): (r: seq<string>)
    ensures |r| == |ns|
    ensures forall i :: 0 <= i < |ns| ==> r[i] == ns[i].id
  {
    if ns == [] then [] else Ids(ns[..|ns| - 1]) + [ns[|ns| - 1].id]
  }

  /** The nodes kept from `ns`: each node whose id has not been seen
      before, in order. */
  function FirstOccurrences(ns: seq<NodeObject>): seq<D3Node> {
    if ns == [] then []
    else
      var prev := FirstOccurrences(ns[..|ns| - 1]);
      var n := ns[|ns| - 1];
      if n.identity in Ids(prev) then prev else prev + [ToD3Node(n)]
  }

  predicate DistinctIds(ns: seq<D3Node>) {
    forall i, j :: 0 <= i < j < |ns| ==> ns[i].id != ns[j].id
  }

  /** No id is kept twice. */
  lemma {:induction false} FirstOccurrencesDistinct(ns: seq<NodeObject>)
    ensures DistinctIds(FirstOccurrences(ns))
  {
    if ns != [] {
      var prev := FirstOccurrences(ns[..|ns| - 1]);
      FirstOccurrencesDistinct(ns[..|ns| - 1]);
      var n := ns[|ns| - 1];
      if n.identity !in Ids(prev) {
        assert forall i :: 0 <= i < |prev| ==> prev[i].id != n.identity;
      }
    }
  }

  function Identities(ns: seq<NodeObject>): (r: seq<string>)
    ensures |r| == |ns|
    ensures forall i :: 0 <= i < |ns| ==> r[i] == ns[i].identity
  {
    if ns == [] then [] else Identities(ns[..|ns| - 1]) + [ns[|ns| - 1].identity]
  }

  lemma IdsAppend(ns: seq<D3Node>, x: D3Node)
    ensures Ids(ns + [x]) == Ids(ns) + [x.id]
  {
    assert (ns + [x])[..|ns|] == ns;
  }

  /** An id is kept exactly when some input node has it. */
  lemma {:induction false} FirstOccurrencesIds(ns: seq<NodeObject>, id: string)
    ensures id in Ids(FirstOccurrences(ns)) <==> id in Identities(ns)
  {
    if ns != [] {
      var init := ns[..|ns| - 1];
      FirstOccurrencesIds(init, id);
      var prev := FirstOccurrences(init);
      var n := ns[|ns| - 1];
      assert Identities(ns) == Identities(init) + [n.identity];
      if n.identity !in Ids(prev) {
        IdsAppend(prev, ToD3Node(n));
      }
    }
  }

  /** Every kept node is the first input node with its id: the input node
      at index `k`, with no earlier node sharing the id. */
  lemma {:induction false} FirstOccurrenceAt(ns: seq<NodeObject>, j: nat) returns (k: nat)
    requires j < |FirstOccurrences(ns)|
    ensures k < |ns| && FirstOccurrences(ns)[j] == ToD3Node(ns[k])
    ensures forall k' :: 0 <= k' < k ==> ns[k'].identity != ns[k].identity
  {
    var init := ns[..|ns| - 1];
    var prev := FirstOccurrences(init);
    var n := ns[|ns| - 1];
    if j < |prev| {
      k := FirstOccurrenceAt(init, j);
    } else {
      k := |ns| - 1;
      forall k' | 0 <= k' < k
        ensures ns[k'].identity != n.identity
      {
        assert init[k'] == ns[k'];
        FirstOccurrencesIds(init, n.identity);
        assert Identities(init)[k'] == ns[k'].identity;
      }
    }
  }

  /** `edges` of `scenarioToD3` after the records in `data`. */
  function EdgesOf(data: seq<RelationshipObject>): (r: seq<D3Edge>)
    ensures |r| == |data|
  {
    if data == [] then [] else EdgesOf(data[..|data| - 1]) + [ToD3Edge(data[|data| - 1])]
  }

  lemma {:induction false} EdgesOfAll(data: seq<RelationshipObject>)
    ensures forall i :: 0 <= i < |data| ==> EdgesOf(data)[i] == ToD3Edge(data[i])
  {
    if data != [] {
      var init := data[..|data| - 1];
      EdgesOfAll(init);
      assert forall i :: 0 <= i < |init| ==> init[i] == data[i];
    }
  }

  lemma FirstOccurrencesStep(ns: seq<NodeObject>, x: NodeObject)
    ensures FirstOccurrences(ns + [x]) ==
      if x.identity in Ids(FirstOccurrences(ns)) then FirstOccurrences(ns) else FirstOccurrences(ns) + [ToD3Node(x)]
  {
    assert (ns + [x])[..|ns|] == ns;
  }

  lemma EndpointsStep(data: seq<RelationshipObject>, i: nat)
    requires i < |data|
    ensures Endpoints(data[..i + 1]) == Endpoints(data[..i]) + [data[i].source] + [data[i].target]
  {
    assert data[..i + 1][..i] == data[..i];
  }

  /** One `if (!nodeIds.includes(...))` of `scenarioToD3`: the node is
      pushed unless its id has been seen. */
  method PushIfNew(nodes: seq<D3Node>, nodeIds: seq<string>, n: NodeObject) returns (nodes': seq<D3Node>, nodeIds': seq<string>)
    requires nodeIds == Ids(nodes)
    ensures nodes' == if n.identity in Ids(nodes) then nodes else nodes + [ToD3Node(n)]
    ensures nodeIds' == Ids(nodes')
  {
    nodes', nodeIds' := nodes, nodeIds;
    if n.identity !in nodeIds {
      IdsAppend(nodes, ToD3Node(n));
      nodes' := nodes + [ToD3Node(n)];
      nodeIds' := nodeIds + [n.identity];
    }
  }

  /** One iteration of `scenarioToD3`'s loop: record `i`'s edge is pushed,
      then its source and its target unless their ids have been seen. */
  method ConvertRelationship(data: seq<RelationshipObject>, i: nat, nodes: seq<D3Node>, nodeIds: seq<string>, edges: seq<D3Edge>)
    returns (nodes': seq<D3Node>, nodeIds': seq<string>, edges': seq<D3Edge>)
    requires i < |data|
    requires nodes == FirstOccurrences(Endpoints(data[..i])) && nodeIds == Ids(nodes)
    requires edges == EdgesOf(data[..i])
    ensures nodes' == FirstOccurrences(Endpoints(data[..i + 1])) && nodeIds' == Ids(nodes')
    ensures edges' == EdgesOf(data[..i + 1])
  {
    var rel := data[i];
    EndpointsStep(data, i);
    assert data[..i + 1][..i] == data[..i];
    edges' := edges + [ToD3Edge(rel)];
    FirstOccurrencesStep(Endpoints(data[..i]), rel.source);
    nodes', nodeIds' := PushIfNew(nodes, nodeIds, rel.source);
    FirstOccurrencesStep(Endpoints(data[..i]) + [rel.source], rel.target);
    nodes', nodeIds' := PushIfNew(nodes', nodeIds', rel.target);
  }

  /** `scenarioToD3`: one edge per record, in order, and the end nodes
      kept at their first occurrence, source before target. */
  method ScenarioToD3(data: seq<RelationshipObject>) returns (nodes: seq<D3Node>, edges: seq<D3Edge>)
    ensures nodes == FirstOccurrences(Endpoints(data))
    ensures |edges| == |data| && forall i :: 0 <= i < |data| ==> edges[i] == ToD3Edge(data[i])
  {
    nodes, edges := [], [];
    var nodeIds: seq<string> := [];
    var i := 0;
    while i < |data|
      invariant 0 <= i <= |data|
      invariant nodes == FirstOccurrences(Endpoints(data[..i])) && nodeIds == Ids(nodes)
      invariant edges == EdgesOf(data[..i])
    {
      nodes, nodeIds, edges := ConvertRelationship(data, i, nodes, nodeIds, edges);
      i := i + 1;
    }
    assert data[..i] == data;
    EdgesOfAll(data);
    forall k | 0 <= k < |data|
      ensures edges[k] == ToD3Edge(data[k])
    {
      assert edges[k] == EdgesOf(data)[k];
    }
  }

  /** The node ids of the result are pairwise distinct, and every edge's
      source and target is among them. */
  lemma ScenarioNodesCoverEdges(data: seq<RelationshipObject>, i: nat)
    requires i < |data|
    ensures DistinctIds(FirstOccurrences(Endpoints(data)))
    ensures ToD3Edge(data[i]).source in Ids(FirstOccurrences(Endpoints(data)))
    ensures ToD3Edge(data[i]).target in Ids(FirstOccurrences(Endpoints(data)))
  {
    var ends := Endpoints(data);
    FirstOccurrencesDistinct(ends);
    FirstOccurrencesIds(ends, data[i].source.identity);
    FirstOccurrencesIds(ends, data[i].target.identity);
    EndpointsAt(data, i);
    assert Identities(ends)[2 * i] == data[i].source.identity;
    assert Identities(ends)[2 * i + 1] == data[i].target.identity;
  }
}
