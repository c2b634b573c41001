/** The node and edge records the graph engine keeps for rendering. */
module Graph {
  import opened Attributes

  /** Node and edge identities are strings (decimal database ids). */
  type Id = string

  /** A node as handed to a cluster: its id, its type (the first database
      label), whether it is a parent or an origin node, and the Graphviz
      attributes it is written with (`id`, `label`, `image`, `nodeColor`
      and whatever symbol resolution adds). */
  datatype Node = Node(id: Id, kind: Value, parent: bool, origin: bool, settings: Attrs)

  /** A rendered edge. Its endpoints are values: the capped ancestor walk of
      collapse can leave an endpoint `undefined`. */
  datatype Edge = Edge(source: Value, target: Value, settings: Attrs)

  /** `edge.settings.id`. */
  function EdgeId(e: Edge): Value {
    Lookup(e.settings, "id")
  }

  /** `nodes.map(e => e.id)`. */
  function NodeIds(ns: seq<Node>): (r: seq<Id>)
    ensures |r| == |ns|
    ensures forall i :: 0 <= i < |ns| ==> r[i] == ns[i].id
  {
    if ns == [] then [] else [ns[0].id] + NodeIds(ns[1..])
  }

  /** Replacing a node by one with the same id keeps the ids. */
  lemma NodeIdsUpdate(ns: seq<Node>, i: nat, m: Node)
    requires i < |ns| && m.id == ns[i].id
    ensures NodeIds(ns[i := m]) == NodeIds(ns)
  {
    assert forall j :: 0 <= j < |ns| ==> NodeIds(ns[i := m])[j] == NodeIds(ns)[j];
  }

  lemma NodeIdsAppend(a: seq<Node>, b: seq<Node>)
    ensures NodeIds(a + b) == NodeIds(a) + NodeIds(b)
  {
  }

  /** `edges.map(e => e.settings.id)`. */
  function EdgeIds(es: seq<Edge>): (r: seq<Value>)
    ensures |r| == |es|
    ensures forall i :: 0 <= i < |es| ==> r[i] == EdgeId(es[i])
  {
    if es == [] then [] else [EdgeId(es[0])] + EdgeIds(es[1..])
  }
}
