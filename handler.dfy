/** The graph engine: the clusters, edges and Graphviz settings currently
    shown, the ids of their nodes, the images registered with the renderer,
    and the DOT text built from all of it. */
module Handler {
  import opened Wrappers
  import opened Strings
  import opened Attributes
  import opened Seqs
  import opened Graph
  import opened Clusters
  import opened Groups
  import opened DotWriter

  // ---------------------------------------------------------------------
  // Image registry

  /** `if (!savedImages.includes(image) && image !== undefined) push(image)`. */
  function RegisterImage(saved: seq<string>, image: Value): (r: seq<string>)
    ensures NoDuplicates(saved) ==> NoDuplicates(r)
    ensures forall t :: t in r <==> t in saved || image == Str(t)
  {
    if image.Str? && image.text !in saved then saved + [image.text] else saved
  }

  /** The `image` attribute of each node, `undefined` where it has none. */
  function ImagesOf(ns: seq<Node>): (r: seq<Value>)
    ensures |r| == |ns| && forall i :: 0 <= i < |ns| ==> r[i] == Lookup(ns[i].settings, "image")
  {
    if ns == [] then [] else [Lookup(ns[0].settings, "image")] + ImagesOf(ns[1..])
  }

  /** The registry after offering it the given images in order. */
  function RegisterImages(saved: seq<string>, images: seq<Value>): (r: seq<string>)
    ensures NoDuplicates(saved) ==> NoDuplicates(r)
    decreases |images|
  {
    if images == [] then saved
    else RegisterImage(RegisterImages(saved, images[..|images| - 1]), images[|images| - 1])
  }

  /** The registry ends up holding the images it held and every image
      offered, and nothing else. */
  lemma {:induction false} RegisterImagesMembers(saved: seq<string>, images: seq<Value>, t: string)
    ensures t in RegisterImages(saved, images) <==> t in saved || Str(t) in images
    decreases |images|
  {
    if images != [] {
      var init := images[..|images| - 1];
      RegisterImagesMembers(saved, init, t);
      assert images == init + [images[|images| - 1]];
    }
  }

  /** The ids of the parent nodes, in node order. */
  function ParentIdsOf(ns: seq<Node>): seq<Id>
    decreases |ns|
  {
    if ns == [] then []
    else ParentIdsOf(ns[..|ns| - 1]) + (if ns[|ns| - 1].parent then [ns[|ns| - 1].id] else [])
  }

  /** Every parent id is a node id, as often as it occurs among the nodes
      at most. */
  lemma {:induction false} ParentIdsAreNodeIds(ns: seq<Node>)
    ensures multiset(ParentIdsOf(ns)) <= multiset(NodeIds(ns))
    decreases |ns|
  {
    if ns != [] {
      var init, last := ns[..|ns| - 1], ns[|ns| - 1];
      ParentIdsAreNodeIds(init);
      assert ns == init + [last];
      NodeIdsAppend(init, [last]);
    }
  }

  // ---------------------------------------------------------------------
  // Node ids

  /** `nodeID >= 0` for a string id: the id reads as a non-negative decimal
      number (blanks around it allowed, the empty id reads as 0). */
  predicate IsNonNegativeNumeral(id: Id) {
    var t := Trim(id);
    forall i :: 0 <= i < |t| ==> IsAsciiDigit(t[i])
  }

  // ---------------------------------------------------------------------
  // Edges

  /** The edges `removeEdgeByNode` keeps: those touching neither end at the id. */
  function EdgesAvoiding(es: seq<Edge>, id: Id): (r: seq<Edge>)
    ensures |r| <= |es|
    ensures forall e :: e in r <==> e in es && e.source != Str(id) && e.target != Str(id)
    decreases |es|
  {
    if es == [] then []
    else
      var e := es[|es| - 1];
      var init := es[..|es| - 1];
      assert es == init + [e];
      EdgesAvoiding(init, id) + (if e.source != Str(id) && e.target != Str(id) then [e] else [])
  }

  /** The ids of the edges it drops, in edge order. */
  function EdgeIdsTouching(es: seq<Edge>, id: Id): seq<Value>
    decreases |es|
  {
    if es == [] then []
    else
      var e := es[|es| - 1];
      EdgeIdsTouching(es[..|es| - 1], id) + (if e.source != Str(id) && e.target != Str(id) then [] else [EdgeId(e)])
  }

  /** Every edge is either kept or reported, never both. */
  lemma {:induction false} RemoveEdgesPartition(es: seq<Edge>, id: Id)
    ensures |EdgesAvoiding(es, id)| + |EdgeIdsTouching(es, id)| == |es|
    decreases |es|
  {
    if es != [] {
      RemoveEdgesPartition(es[..|es| - 1], id);
    }
  }

  /** Whether the edge has an end at the id. */
  predicate TouchesId(e: Edge, id: Id) {
    e.source == Str(id) || e.target == Str(id)
  }

  /** The positions of the edges that touch the id (`touching`) or avoid
      it (`!touching`), in increasing order. */
  function Positions(es: seq<Edge>, id: Id, touching: bool): seq<nat>
    decreases |es|
  {
    if es == [] then []
    else
      var n := |es| - 1;
      Positions(es[..n], id, touching) + (if TouchesId(es[n], id) == touching then [n] else [])
  }

  lemma PositionsLast(es: seq<Edge>, id: Id, touching: bool)
    requires es != []
    ensures Positions(es, id, touching) ==
      Positions(es[..|es| - 1], id, touching) + (if TouchesId(es[|es| - 1], id) == touching then [|es| - 1] else [])
  {
  }

  lemma EdgesAvoidingLast(es: seq<Edge>, id: Id)
    requires es != []
    ensures EdgesAvoiding(es, id) == EdgesAvoiding(es[..|es| - 1], id) + (if TouchesId(es[|es| - 1], id) then [] else [es[|es| - 1]])
  {
  }

  lemma EdgeIdsTouchingLast(es: seq<Edge>, id: Id)
    requires es != []
    ensures EdgeIdsTouching(es, id) == EdgeIdsTouching(es[..|es| - 1], id) + (if TouchesId(es[|es| - 1], id) then [EdgeId(es[|es| - 1])] else [])
  {
  }

  /** Every listed position holds such an edge, and the positions
      increase. */
  lemma {:induction false} PositionsPick(es: seq<Edge>, id: Id, touching: bool)
    ensures forall k :: 0 <= k < |Positions(es, id, touching)| ==>
      Positions(es, id, touching)[k] < |es| && TouchesId(es[Positions(es, id, touching)[k]], id) == touching
    ensures forall k, l :: 0 <= k < l < |Positions(es, id, touching)| ==>
      Positions(es, id, touching)[k] < Positions(es, id, touching)[l]
    decreases |es|
  {
    if es != [] {
      var n := |es| - 1;
      var prev := Positions(es[..n], id, touching);
      var now := Positions(es, id, touching);
      PositionsPick(es[..n], id, touching);
      PositionsLast(es, id, touching);
      forall k | 0 <= k < |prev| ensures now[k] == prev[k] && es[prev[k]] == es[..n][prev[k]] {}
    }
  }

  /** Every such edge's position is listed. */
  lemma {:induction false} PositionsComplete(es: seq<Edge>, id: Id, touching: bool, j: nat)
    requires j < |es| && TouchesId(es[j], id) == touching
    ensures j in Positions(es, id, touching)
    decreases |es|
  {
    var n := |es| - 1;
    PositionsLast(es, id, touching);
    if j < n {
      assert es[..n][j] == es[j];
      PositionsComplete(es[..n], id, touching, j);
    }
  }

  /** Elements picked from a list by their positions stay picked once one
      more element follows, and that element can be picked after them. */
  lemma PicksStep<T>(s: seq<T>, picked: seq<T>, pos: seq<nat>, take: bool)
    requires s != [] && |picked| == |pos|
    requires forall k :: 0 <= k < |pos| ==> pos[k] < |s| - 1 && picked[k] == s[..|s| - 1][pos[k]]
    ensures var picked' := picked + (if take then [s[|s| - 1]] else []);
      var pos' := pos + (if take then [|s| - 1] else []);
      |picked'| == |pos'| && forall k :: 0 <= k < |pos'| ==> pos'[k] < |s| && picked'[k] == s[pos'[k]]
  {
  }

  /** The kept edges are the edges at the avoiding positions. */
  lemma {:induction false} EdgesAvoidingPositions(es: seq<Edge>, id: Id)
    ensures |EdgesAvoiding(es, id)| == |Positions(es, id, false)|
    ensures forall k :: 0 <= k < |Positions(es, id, false)| ==>
      Positions(es, id, false)[k] < |es| && EdgesAvoiding(es, id)[k] == es[Positions(es, id, false)[k]]
    decreases |es|
  {
    if es != [] {
      var n := |es| - 1;
      var prev := Positions(es[..n], id, false);
      var kept := EdgesAvoiding(es[..n], id);
      EdgesAvoidingPositions(es[..n], id);
      PositionsPick(es[..n], id, false);
      EdgesAvoidingLast(es, id);
      PositionsLast(es, id, false);
      PicksStep(es, kept, prev, !TouchesId(es[n], id));
    }
  }

  /** The reported ids are the ids of the edges at the touching positions. */
  lemma {:induction false} EdgeIdsTouchingPositions(es: seq<Edge>, id: Id)
    ensures |EdgeIdsTouching(es, id)| == |Positions(es, id, true)|
    ensures forall k :: 0 <= k < |Positions(es, id, true)| ==>
      Positions(es, id, true)[k] < |es| && EdgeIdsTouching(es, id)[k] == EdgeId(es[Positions(es, id, true)[k]])
    decreases |es|
  {
    if es != [] {
      var n := |es| - 1;
      var prev := Positions(es[..n], id, true);
      var ids := EdgeIdsTouching(es[..n], id);
      EdgeIdsTouchingPositions(es[..n], id);
      PositionsPick(es[..n], id, true);
      EdgeIdsTouchingLast(es, id);
      PositionsLast(es, id, true);
      forall k | 0 <= k < |prev| ensures es[prev[k]] == es[..n][prev[k]] {}
    }
  }

  /** `removeEdgeByNode` splits the edges in two, each part in edge
      order: the kept edges are those avoiding the id and the reported ids
      those of the edges touching it, each edge landing in exactly one
      part. */
  lemma RemoveEdgesOrder(es: seq<Edge>, id: Id, j: nat)
    requires j < |es|
    ensures !TouchesId(es[j], id) ==> exists k :: 0 <= k < |Positions(es, id, false)| && k < |EdgesAvoiding(es, id)| && Positions(es, id, false)[k] == j && EdgesAvoiding(es, id)[k] == es[j]
    ensures TouchesId(es[j], id) ==> exists k :: 0 <= k < |Positions(es, id, true)| && k < |EdgeIdsTouching(es, id)| && Positions(es, id, true)[k] == j && EdgeIdsTouching(es, id)[k] == EdgeId(es[j])
  {
    var t := TouchesId(es[j], id);
    PositionsComplete(es, id, t, j);
    var k :| 0 <= k < |Positions(es, id, t)| && Positions(es, id, t)[k] == j;
    if t {
      EdgeIdsTouchingPositions(es, id);
    } else {
      EdgesAvoidingPositions(es, id);
    }
  }

  // ---------------------------------------------------------------------
  // The serialiser's loops

  /** A `for...in` over an attribute list, writing one entry per key. */
  method WriteEntries(a: Attrs, close: string) returns (t: string)
    ensures t == Entries(a, close)
  {
    t := "";
    var i := 0;
    while i < |a|
      invariant 0 <= i <= |a|
      invariant t == Entries(a[..i], close)
    {
      assert a[..i + 1][..i] == a[..i];
      t := t + Entry(a[i].0, a[i].1, close);
      i := i + 1;
    }
    assert a[..i] == a;
  }

  /** The node lines of one cluster, collecting the origin ids on the way. */
  lemma WriteNodesStep(ns: seq<Node>, parentIds: seq<Id>, i: nat)
    requires i < |ns|
    ensures NodesText(ns[..i + 1], parentIds) == NodesText(ns[..i], parentIds) + NodeLine(ns[i], parentIds)
    ensures ns[i].origin ==> OriginIds(ns[..i + 1]) == OriginIds(ns[..i]) + [ns[i].id]
    ensures !ns[i].origin ==> OriginIds(ns[..i + 1]) == OriginIds(ns[..i])
  {
    assert ns[..i + 1][..i] == ns[..i];
    if !ns[i].origin {
      assert OriginIds(ns[..i]) + [] == OriginIds(ns[..i]);
    }
  }

  method WriteNodes(ns: seq<Node>, parentIds: seq<Id>) returns (t: string, origins: seq<Id>)
    ensures t == NodesText(ns, parentIds) && origins == OriginIds(ns)
  {
    t, origins := "", [];
    var i := 0;
    while i < |ns|
      invariant 0 <= i <= |ns|
      invariant t == NodesText(ns[..i], parentIds) && origins == OriginIds(ns[..i])
    {
      WriteNodesStep(ns, parentIds, i);
      var n := ns[i];
      if n.origin {
        origins := origins + [n.id];
      }
      var entries := WriteEntries(n.settings, ", ");
      var line := n.id + " [" + (if n.id in parentIds then " class = \"parent\", " else "") + entries + "]\n";
      assert line == NodeLine(n, parentIds);
      t := t + line;
      i := i + 1;
    }
    assert ns[..i] == ns;
  }

  /** `getAllIndexes`. */
  method AllIndexes<K(==)>(keys: seq<K>, key: K) returns (indexes: seq<nat>)
    ensures indexes == KeyIndexes(keys, key)
  {
    indexes := [];
    var i := 0;
    while i < |keys|
      invariant 0 <= i <= |keys|
      invariant indexes == KeyIndexes(keys[..i], key)
    {
      assert keys[..i + 1][..i] == keys[..i];
      if keys[i] == key {
        indexes := indexes + [i];
      }
      i := i + 1;
    }
    assert keys[..i] == keys;
  }

  /** The loop of `_getDuplicateEdges` over the key and id of each edge: the
      groups already recorded are kept in a list, and a group of two or more
      is recorded the first time one of its members is visited. */
  method RecordDuplicates<K(==), V(==)>(keys: seq<K>, ids: seq<V>) returns (m: map<V, seq<V>>)
    requires |keys| == |ids|
    ensures m == DuplicatesUpTo(keys, ids, |keys|)
  {
    var recorded: seq<seq<nat>> := [];
    m := map[];
    var i := 0;
    while i < |keys|
      invariant 0 <= i <= |keys|
      invariant m == DuplicatesUpTo(keys, ids, i)
      invariant recorded == HeadGroups(keys, i)
    {
      var dups := AllIndexes(keys, keys[i]);
      DuplicatesStep(keys, ids, i);
      if |dups| > 1 && dups !in recorded {
        recorded := recorded + [dups];
        m := m[ids[dups[0]] := Pick(ids, dups)];
      }
      i := i + 1;
    }
  }

  /** `_getDuplicateEdges`. */
  method DuplicateEdges(es: seq<Edge>) returns (m: map<Value, seq<Value>>)
    ensures m == Duplicates(es)
  {
    m := RecordDuplicates(EdgeKeys(es), EdgeIds(es));
  }

  /** The text and skip-list additions of one edge's attributes. */
  method WriteEdgeSettings(a: Attrs, dups: map<Value, seq<Value>>) returns (t: string, adds: seq<Value>)
    ensures t == EdgeSettingsText(a, dups) && adds == SkipAdds(a, dups)
  {
    t, adds := "", [];
    var i := 0;
    while i < |a|
      invariant 0 <= i <= |a|
      invariant t == EdgeSettingsText(a[..i], dups) && adds == SkipAdds(a[..i], dups)
    {
      assert a[..i + 1][..i] == a[..i];
      var (key, v) := a[i];
      if key == "id" && v in dups {
        adds := adds + dups[v];
      }
      t := t + EdgeSettingText(key, v, dups);
      i := i + 1;
    }
    assert a[..i] == a;
  }

  /** The edge lines: an edge whose id is on the skip list is left out; an
      emitted edge puts its merged group on the list. */
  method WriteEdges(es: seq<Edge>, dups: map<Value, seq<Value>>, showDefaultTooltip: bool) returns (t: string, skip: seq<Value>)
    ensures EdgePass(t, skip) == PassEdges(es, dups, showDefaultTooltip)
  {
    t, skip := "", [];
    var i := 0;
    while i < |es|
      invariant 0 <= i <= |es|
      invariant EdgePass(t, skip) == PassEdges(es[..i], dups, showDefaultTooltip)
    {
      PassEdgesStep(es, i, dups, showDefaultTooltip);
      var e := es[i];
      if EdgeId(e) !in skip {
        var settingsText, adds := WriteEdgeSettings(e.settings, dups);
        var line := Render(e.source) + " -> " + Render(e.target) + " [" + settingsText
          + Tooltip(showDefaultTooltip) + " ];\n";
        assert line == EdgeLine(e, dups, showDefaultTooltip);
        t := t + line;
        skip := skip + adds;
      }
      i := i + 1;
    }
    assert es[..i] == es;
  }

  /** The rank lines of the origin nodes. */
  method WriteRanks(ids: seq<Id>) returns (t: string)
    ensures t == RankLines(ids)
  {
    t := "";
    var i := 0;
    while i < |ids|
      invariant 0 <= i <= |ids|
      invariant t == RankLines(ids[..i])
    {
      assert ids[..i + 1][..i] == ids[..i];
      t := t + "{rank=source; " + ids[i] + "}\n";
      i := i + 1;
    }
    assert ids[..i] == ids;
  }

  /** One cluster's text, with the origin ids of its nodes. */
  method WriteCluster(c: Cluster, parentIds: seq<Id>, showDefaultTooltip: bool) returns (t: string, origins: seq<Id>)
    ensures t == ClusterText(View(c), parentIds, showDefaultTooltip) && origins == OriginIds(c.nodes)
  {
    var nodeString;
    nodeString, origins := WriteNodes(c.nodes, parentIds);
    if c.name.Undefined? {
      t := nodeString;
    } else {
      var clusterEntries := WriteEntries(c.clusterSetting, "\n");
      var nodeEntries := WriteEntries(c.nodeSettings, ", ");
      t := "subgraph cluster_" + Render(PrepareClusterName(c.name)) + "{\n" + clusterEntries
        + "node [" + nodeEntries + Tooltip(showDefaultTooltip) + " ];\n" + nodeString + "}\n";
    }
  }

  // ---------------------------------------------------------------------
  // Clusters as the serialiser sees them

  function View(c: Cluster): ClusterView
    reads c
  {
    ClusterView(c.name, c.clusterSetting, c.nodeSettings, c.nodes)
  }

  ghost function Views(cs: seq<Cluster>): (r: seq<ClusterView>)
    reads cs
    ensures |r| == |cs| && forall j :: 0 <= j < |cs| ==> r[j] == View(cs[j])
  {
    if cs == [] then [] else [View(cs[0])] + Views(cs[1..])
  }

  lemma ViewsAppend(cs: seq<Cluster>, c: Cluster)
    ensures Views(cs + [c]) == Views(cs) + [View(c)]
  {
    assert forall j :: 0 <= j < |cs| ==> (cs + [c])[j] == cs[j];
  }

  /** The first cluster with the given name: `filter(...)[0]`. */
  function ClusterIndexByName(cs: seq<Cluster>, name: Value): (r: Option<nat>)
    ensures r.Some? ==> r.value < |cs| && cs[r.value].name == name
    ensures r.Some? ==> forall j :: 0 <= j < r.value ==> cs[j].name != name
    ensures r.None? <==> forall j :: 0 <= j < |cs| ==> cs[j].name != name
  {
    if cs == [] then None
    else if cs[0].name == name then Some(0)
    else
      match ClusterIndexByName(cs[1..], name)
      case None => None
      case Some(i) => Some(i + 1)
  }

  /** The clusters holding a node with the given id, in order. */
  function ClustersHolding(cs: seq<Cluster>, id: Id): (r: seq<Cluster>)
    reads cs
    ensures |r| <= |cs|
    ensures forall j :: 0 <= j < |r| ==> r[j] in cs && id in NodeIds(r[j].nodes)
    ensures forall j :: 0 <= j < |cs| && id in NodeIds(cs[j].nodes) ==> cs[j] in r
  {
    if cs == [] then []
    else (if id in NodeIds(cs[0].nodes) then [cs[0]] else []) + ClustersHolding(cs[1..], id)
  }

  /** A per-cluster symbol change applied to every cluster holding the
      node, in cluster order: the new cluster views and what the last call
      returned (`undefined` when no cluster holds the node), or the first
      error thrown, after which the later clusters are left alone. */
  function ChangeAcrossWith(f: seq<Node> -> (seq<Node>, Result<Value, SymbolError>), id: Id, vs: seq<ClusterView>)
    : (r: (seq<ClusterView>, Result<Value, SymbolError>))
    ensures |r.0| == |vs|
    decreases |vs|
  {
    if vs == [] then ([], Ok(Undefined))
    else
      var prev := ChangeAcrossWith(f, id, vs[..|vs| - 1]);
      var v := vs[|vs| - 1];
      if prev.1.Err? || id !in NodeIds(v.nodes) then (prev.0 + [v], prev.1)
      else
        var changed := f(v.nodes);
        (prev.0 + [v.(nodes := changed.0)], changed.1)
  }

  /** `changeSymbol`'s loop: `_changeSymbol` on every cluster holding the node. */
  function ChangeAcross(vs: seq<ClusterView>, id: Id, color: Value, shape: Value): (seq<ClusterView>, Result<Value, SymbolError>) {
    ChangeAcrossWith(SymbolChanger(id, color, shape), id, vs)
  }

  /** `_changeSymbol` on one cluster's node list. */
  function SymbolChanger(id: Id, color: Value, shape: Value): seq<Node> -> (seq<Node>, Result<Value, SymbolError>) {
    ns => ChangeSymbolIn(ns, id, color, shape)
  }

  /** Once a cluster throws, the rest are untouched and the error stands. */
  lemma {:induction false} ChangeAcrossStops(f: seq<Node> -> (seq<Node>, Result<Value, SymbolError>), id: Id, vs: seq<ClusterView>, k: nat)
    requires k <= |vs| && ChangeAcrossWith(f, id, vs[..k]).1.Err?
    ensures ChangeAcrossWith(f, id, vs) ==
      (ChangeAcrossWith(f, id, vs[..k]).0 + vs[k..], ChangeAcrossWith(f, id, vs[..k]).1)
    decreases |vs| - k
  {
    if k < |vs| {
      var before := ChangeAcrossWith(f, id, vs[..k]);
      assert vs[..k + 1][..k] == vs[..k];
      assert ChangeAcrossWith(f, id, vs[..k + 1]) == (before.0 + [vs[k]], before.1);
      ChangeAcrossStops(f, id, vs, k + 1);
      assert vs[k..] == [vs[k]] + vs[k + 1..];
      assert (before.0 + [vs[k]]) + vs[k + 1..] == before.0 + vs[k..];
    } else {
      assert vs[..k] == vs;
      var r := ChangeAcrossWith(f, id, vs);
      assert r.0 + vs[k..] == r.0;
    }
  }

  /** Only the node lists change. */
  lemma {:induction false} ChangeAcrossKeeps(f: seq<Node> -> (seq<Node>, Result<Value, SymbolError>), id: Id, vs: seq<ClusterView>)
    ensures forall j :: 0 <= j < |vs| ==>
      ChangeAcrossWith(f, id, vs).0[j] == vs[j].(nodes := ChangeAcrossWith(f, id, vs).0[j].nodes)
    decreases |vs|
  {
    if vs != [] {
      ChangeAcrossKeeps(f, id, vs[..|vs| - 1]);
    }
  }

  /** `if (newImage)`: the empty string is falsy. */
  function Truthy(v: Value): Value {
    if v == Str("") then Undefined else v
  }

  /** How one node extends what `setCluster` records. */
  lemma RecordStep(saved: seq<string>, ns: seq<Node>, i: nat)
    requires i < |ns|
    ensures NodeIds(ns[..i + 1]) == NodeIds(ns[..i]) + [ns[i].id]
    ensures ParentIdsOf(ns[..i + 1]) == ParentIdsOf(ns[..i]) + (if ns[i].parent then [ns[i].id] else [])
    ensures RegisterImages(saved, ImagesOf(ns)[..i + 1])
      == RegisterImage(RegisterImages(saved, ImagesOf(ns)[..i]), Lookup(ns[i].settings, "image"))
  {
    assert ns[..i + 1] == ns[..i] + [ns[i]];
    assert ns[..i + 1][..i] == ns[..i];
    assert ImagesOf(ns)[..i + 1][..i] == ImagesOf(ns)[..i];
    NodeIdsAppend(ns[..i], [ns[i]]);
  }

  /** Registers a node's `image` attribute: only a defined image that is
      not yet known is appended. */
  method SaveImage(saved: seq<string>, settings: Attrs) returns (r: seq<string>)
    ensures r == RegisterImage(saved, Lookup(settings, "image"))
  {
    r := saved;
    if HasKey(settings, "image") {
      var image := Lookup(settings, "image");
      if image.Str? && image.text !in saved {
        r := saved + [image.text];
      }
    }
  }

  /** Recording nodes keeps every parent id a node id. */
  lemma RecordKeepsValid(ns: seq<Node>, nodesIds: seq<Id>, parentIds: seq<Id>)
    requires multiset(parentIds) <= multiset(nodesIds)
    ensures multiset(parentIds + ParentIdsOf(ns)) <= multiset(nodesIds + NodeIds(ns))
  {
    ParentIdsAreNodeIds(ns);
    MultisetAppendLe(parentIds, ParentIdsOf(ns), nodesIds, NodeIds(ns));
  }

  /** One pass of `setCluster`'s `forEach`: node `i` is recorded on top of
      the first `i`. */
  method RecordNext(ns: seq<Node>, i: nat, nodesIds: seq<Id>, parentIds: seq<Id>, saved: seq<string>,
                    nodesIds0: seq<Id>, parentIds0: seq<Id>, saved0: seq<string>)
    returns (nodesIds': seq<Id>, parentIds': seq<Id>, saved': seq<string>)
    requires i < |ns|
    requires nodesIds0 == nodesIds + NodeIds(ns[..i])
    requires parentIds0 == parentIds + ParentIdsOf(ns[..i])
    requires saved0 == RegisterImages(saved, ImagesOf(ns)[..i])
    ensures nodesIds' == nodesIds + NodeIds(ns[..i + 1])
    ensures parentIds' == parentIds + ParentIdsOf(ns[..i + 1])
    ensures saved' == RegisterImages(saved, ImagesOf(ns)[..i + 1])
  {
    var n := ns[i];
    RecordStep(saved, ns, i);
    var pid: seq<Id> := if n.parent then [n.id] else [];
    AppendAssoc(nodesIds, NodeIds(ns[..i]), [n.id]);
    AppendAssoc(parentIds, ParentIdsOf(ns[..i]), pid);
    saved' := SaveImage(saved0, n.settings);
    nodesIds', parentIds' := nodesIds0 + [n.id], parentIds0 + pid;
  }

  /** The `forEach` of `setCluster`: each node's id is recorded, its id
      again when it is a parent, and its image registered. */
  method RecordNodes(ns: seq<Node>, nodesIds: seq<Id>, parentIds: seq<Id>, saved: seq<string>)
    returns (nodesIds': seq<Id>, parentIds': seq<Id>, saved': seq<string>)
    ensures nodesIds' == nodesIds + NodeIds(ns)
    ensures parentIds' == parentIds + ParentIdsOf(ns)
    ensures saved' == RegisterImages(saved, ImagesOf(ns))
  {
    nodesIds', parentIds', saved' := nodesIds, parentIds, saved;
    var i := 0;
    assert ns[..0] == [] && ImagesOf(ns)[..0] == [];
    while i < |ns|
      invariant 0 <= i <= |ns|
      invariant nodesIds' == nodesIds + NodeIds(ns[..i])
      invariant parentIds' == parentIds + ParentIdsOf(ns[..i])
      invariant saved' == RegisterImages(saved, ImagesOf(ns)[..i])
    {
      nodesIds', parentIds', saved' := RecordNext(ns, i, nodesIds, parentIds, saved, nodesIds', parentIds', saved');
      i := i + 1;
    }
    assert ns[..i] == ns;
    assert ImagesOf(ns)[..i] == ImagesOf(ns);
  }

  /** A cluster's view once its first node with the id is gone. */
  function WithoutNode(v: ClusterView, id: Id): ClusterView {
    v.(nodes := RemoveNodeById(v.nodes, id))
  }

  /** One cluster of `removeNode`'s `forEach`: it drops the node if it
      holds it. */
  method RemoveIfHeld(c: Cluster, id: Id)
    modifies c
    ensures View(c) == WithoutNode(old(View(c)), id)
  {
    if c.HasNode(id) {
      c.RemoveNode(id);
    }
  }

  /** `removeNode`'s `forEach` over the clusters holding the node: each
      drops its first node with the id. */
  method RemoveFromClusters(cs: seq<Cluster>, id: Id)
    requires NoDuplicates(cs)
    modifies cs
    ensures forall j :: 0 <= j < |cs| ==> Views(cs)[j] == WithoutNode(old(Views(cs))[j], id)
  {
    ghost var vs := Views(cs);
    var i := 0;
    while i < |cs|
      invariant 0 <= i <= |cs|
      invariant forall j :: 0 <= j < i ==> View(cs[j]) == WithoutNode(vs[j], id)
      invariant forall j :: i <= j < |cs| ==> View(cs[j]) == vs[j]
    {
      label before:
      RemoveIfHeld(cs[i], id);
      forall j | 0 <= j < |cs| && j != i
        ensures View(cs[j]) == old@before(View(cs[j]))
      {
        assert cs[j] != cs[i];
      }
      i := i + 1;
    }
  }

  /** `addNode` on the clusters' views: the resolved node joins the
      cluster at index `k`; a missing cluster (`None`) or a throw leaves
      every cluster as it was. */
  function AddedAt(vs: seq<ClusterView>, k: Option<nat>, node: Node): (r: seq<ClusterView>)
    ensures |r| == |vs|
  {
    if k.Some? && k.value < |vs| && AddSymbol(node).Ok? then
      vs[k.value := vs[k.value].(nodes := vs[k.value].nodes + [AddSymbol(node).value])]
    else vs
  }

  /** `addNode` on the cluster at index `k`: the resolved node is appended
      to it and no other cluster changes; a throw changes nothing. */
  method AddAt(cs: seq<Cluster>, k: nat, node: Node) returns (r: Result<Node, SymbolError>)
    requires NoDuplicates(cs) && k < |cs|
    modifies cs[k]
    ensures r == AddSymbol(node)
    ensures r.Ok? ==> Views(cs) == old(Views(cs))[k := old(Views(cs))[k].(nodes := old(Views(cs))[k].nodes + [r.value])]
    ensures r.Err? ==> Views(cs) == old(Views(cs))
  {
    ghost var vs := Views(cs);
    var c := cs[k];
    r := c.AddNode(node);
    ghost var v := if r.Ok? then vs[k].(nodes := vs[k].nodes + [r.value]) else vs[k];
    assert View(c) == v;
    forall j | 0 <= j < |cs| ensures Views(cs)[j] == vs[k := v][j] {
      if j != k {
        assert cs[j] != c;
      }
    }
    assert Views(cs) == vs[k := v];
    if r.Err? {
      assert vs[k := v] == vs;
    }
  }

  /** One more cluster visited while no cluster has thrown: it is kept as
      it is unless it holds the node, and then changed by `f`, whose result
      becomes the last one. */
  lemma ChangeAcrossStep(f: seq<Node> -> (seq<Node>, Result<Value, SymbolError>), id: Id, vs: seq<ClusterView>, i: nat)
    requires i < |vs| && ChangeAcrossWith(f, id, vs[..i]).1.Ok?
    ensures id !in NodeIds(vs[i].nodes) ==>
      ChangeAcrossWith(f, id, vs[..i + 1]) == (ChangeAcrossWith(f, id, vs[..i]).0 + [vs[i]], ChangeAcrossWith(f, id, vs[..i]).1)
    ensures id in NodeIds(vs[i].nodes) ==>
      ChangeAcrossWith(f, id, vs[..i + 1]) == (ChangeAcrossWith(f, id, vs[..i]).0 + [vs[i].(nodes := f(vs[i].nodes).0)], f(vs[i].nodes).1)
  {
    assert vs[..i + 1][..i] == vs[..i];
  }

  /** The loop's end: when every cluster is visited or one has thrown, the
      clusters visited so far followed by the untouched rest are the result. */
  lemma ChangeAcrossFinish(f: seq<Node> -> (seq<Node>, Result<Value, SymbolError>), id: Id, vs: seq<ClusterView>, i: nat)
    requires i <= |vs|
    requires i == |vs| || ChangeAcrossWith(f, id, vs[..i]).1.Err?
    ensures ChangeAcrossWith(f, id, vs) == (ChangeAcrossWith(f, id, vs[..i]).0 + vs[i..], ChangeAcrossWith(f, id, vs[..i]).1)
  {
    if ChangeAcrossWith(f, id, vs[..i]).1.Err? {
      ChangeAcrossStops(f, id, vs, i);
    } else {
      assert vs[..i] == vs;
      assert vs[i..] == [];
      var r := ChangeAcrossWith(f, id, vs);
      assert r.0 + vs[i..] == r.0;
    }
  }

  /** One cluster of `changeSymbol`'s `forEach`: a cluster holding the node
      recolours it and returns the new image, or throws; no other cluster
      changes. */
  method ChangeAt(cs: seq<Cluster>, i: nat, id: Id, color: Value, shape: Value) returns (held: bool, r: Result<Value, SymbolError>)
    requires NoDuplicates(cs) && i < |cs|
    modifies cs[i]
    ensures held == (id in NodeIds(old(Views(cs))[i].nodes))
    ensures held ==> Views(cs) == old(Views(cs))[i := old(Views(cs))[i].(nodes := SymbolChanger(id, color, shape)(old(Views(cs))[i].nodes).0)]
    ensures held ==> r == SymbolChanger(id, color, shape)(old(Views(cs))[i].nodes).1
    ensures !held ==> Views(cs) == old(Views(cs))
  {
    ghost var vs := Views(cs);
    var c := cs[i];
    held := c.HasNode(id);
    r := Ok(Undefined);
    if held {
      r := c.ChangeSymbol(id, color, shape);
      ghost var v := vs[i].(nodes := SymbolChanger(id, color, shape)(vs[i].nodes).0);
      assert View(c) == v;
      forall j | 0 <= j < |cs| ensures Views(cs)[j] == vs[i := v][j] {
        if j != i {
          assert cs[j] != c;
        }
      }
    }
  }

  /** `changeSymbol`'s `forEach` over the clusters holding the node, in
      order; a throw ends it. */
  method ChangeInClusters(cs: seq<Cluster>, id: Id, color: Value, shape: Value) returns (r: Result<Value, SymbolError>)
    requires NoDuplicates(cs)
    modifies cs
    ensures (Views(cs), r) == ChangeAcross(old(Views(cs)), id, color, shape)
  {
    ghost var vs := Views(cs);
    ghost var f := SymbolChanger(id, color, shape);
    r := Ok(Undefined);
    var i := 0;
    assert vs[..0] == [] && vs[0..] == vs;
    assert ChangeAcrossWith(f, id, vs[..0]).0 + vs[0..] == vs;
    while i < |cs| && r.Ok?
      invariant 0 <= i <= |cs|
      invariant Views(cs) == ChangeAcrossWith(f, id, vs[..i]).0 + vs[i..]
      invariant r == ChangeAcrossWith(f, id, vs[..i]).1
    {
      r := ChangeNext(cs, vs, i, id, color, shape, r);
      i := i + 1;
    }
    ChangeAcrossFinish(f, id, vs, i);
  }

  /** One cluster of that `forEach`, visited while no cluster has thrown. */
  method ChangeNext(cs: seq<Cluster>, ghost vs: seq<ClusterView>, i: nat, id: Id, color: Value, shape: Value,
                    r0: Result<Value, SymbolError>) returns (r: Result<Value, SymbolError>)
    requires NoDuplicates(cs) && i < |cs| == |vs|
    requires r0.Ok? && r0 == ChangeAcrossWith(SymbolChanger(id, color, shape), id, vs[..i]).1
    requires Views(cs) == ChangeAcrossWith(SymbolChanger(id, color, shape), id, vs[..i]).0 + vs[i..]
    modifies cs
    ensures Views(cs) == ChangeAcrossWith(SymbolChanger(id, color, shape), id, vs[..i + 1]).0 + vs[i + 1..]
    ensures r == ChangeAcrossWith(SymbolChanger(id, color, shape), id, vs[..i + 1]).1
  {
    ghost var f := SymbolChanger(id, color, shape);
    ChangeAcrossStep(f, id, vs, i);
    ghost var done := ChangeAcrossWith(f, id, vs[..i]).0;
    UpdateAtJoin(done, vs[i..], Views(cs)[i]);
    var held, res := ChangeAt(cs, i, id, color, shape);
    UpdateAtJoin(done, vs[i..], Views(cs)[i]);
    assert vs[i..][1..] == vs[i + 1..];
    r := r0;
    if held {
      r := res;
    }
  }

  /** `removeEdgeByNode`'s filter: the edges touching the id are dropped
      and their ids collected. */
  method FilterEdges(es: seq<Edge>, id: Id) returns (kept: seq<Edge>, removed: seq<Value>)
    ensures kept == EdgesAvoiding(es, id) && removed == EdgeIdsTouching(es, id)
  {
    kept, removed := [], [];
    var i := 0;
    while i < |es|
      invariant 0 <= i <= |es|
      invariant kept == EdgesAvoiding(es[..i], id) && removed == EdgeIdsTouching(es[..i], id)
    {
      FilterStep(es, i, id);
      var e := es[i];
      if e.source != Str(id) && e.target != Str(id) {
        kept := kept + [e];
      } else {
        removed := removed + [EdgeId(e)];
      }
      i := i + 1;
    }
    assert es[..i] == es;
  }

  lemma FilterStep(es: seq<Edge>, i: nat, id: Id)
    requires i < |es|
    ensures var e := es[i];
      EdgesAvoiding(es[..i + 1], id)
        == EdgesAvoiding(es[..i], id) + (if e.source != Str(id) && e.target != Str(id) then [e] else [])
    ensures var e := es[i];
      EdgeIdsTouching(es[..i + 1], id)
        == EdgeIdsTouching(es[..i], id) + (if e.source != Str(id) && e.target != Str(id) then [] else [EdgeId(e)])
  {
    PrefixOfPrefix(es, i + 1, i);
  }

  /** The text of every cluster in order, with the origin ids. */
  method WriteClusters(cs: seq<Cluster>, parentIds: seq<Id>, showDefaultTooltip: bool) returns (t: string, origins: seq<Id>)
    ensures t == ClustersText(Views(cs), parentIds, showDefaultTooltip) && origins == ClusterOrigins(Views(cs))
  {
    ghost var vs := Views(cs);
    t, origins := "", [];
    var i := 0;
    while i < |cs|
      invariant 0 <= i <= |cs|
      invariant t == ClustersText(vs[..i], parentIds, showDefaultTooltip) && origins == ClusterOrigins(vs[..i])
    {
      ClustersStep(vs, i, parentIds, showDefaultTooltip);
      assert vs[i] == View(cs[i]);
      var text, o := WriteCluster(cs[i], parentIds, showDefaultTooltip);
      t, origins := t + text, origins + o;
      i := i + 1;
    }
    assert vs[..i] == vs;
  }

  /** `_updateDotString` over the state it reads. */
  method WriteDot(graphSettings: Attrs, nodeSettings: Attrs, edgeSettings: Attrs, cs: seq<Cluster>,
                  edges: seq<Edge>, parentIds: seq<Id>, showDefaultTooltip: bool) returns (dot: string)
    ensures dot == Dot(DotState(graphSettings, nodeSettings, edgeSettings, Views(cs), edges, parentIds, showDefaultTooltip))
  {
    var temp := WriteBody(graphSettings, nodeSettings, edgeSettings, cs, edges, parentIds, showDefaultTooltip);
    dot := "digraph G{\n" + temp + "\n}\n";
  }

  /** The text inside the `digraph` boilerplate: header, clusters, edges
      and rank lines. */
  method WriteBody(graphSettings: Attrs, nodeSettings: Attrs, edgeSettings: Attrs, cs: seq<Cluster>,
                   edges: seq<Edge>, parentIds: seq<Id>, showDefaultTooltip: bool) returns (temp: string)
    ensures temp == Body(DotState(graphSettings, nodeSettings, edgeSettings, Views(cs), edges, parentIds, showDefaultTooltip))
  {
    temp := WriteHeader(graphSettings, nodeSettings, edgeSettings);
    var clusterText, origins := WriteClusters(cs, parentIds, showDefaultTooltip);
    var dups := DuplicateEdges(edges);
    var edgeText, _ := WriteEdges(edges, dups, showDefaultTooltip);
    var ranks := WriteRanks(origins);
    temp := temp + clusterText + edgeText + ranks;
  }

  /** The `graph`, `node` and `edge` attribute lines. */
  method WriteHeader(graphSettings: Attrs, nodeSettings: Attrs, edgeSettings: Attrs) returns (t: string)
    ensures t == Header(graphSettings, nodeSettings, edgeSettings)
  {
    var g := WriteEntries(graphSettings, ", ");
    var n := WriteEntries(nodeSettings, ", ");
    var e := WriteEntries(edgeSettings, ", ");
    t := "graph [ " + g + " ]\n" + "node [ " + n + " ]\n" + "edge [ " + e + " ]\n";
  }

  // ---------------------------------------------------------------------
  // The registries as a value

  /** The engine's registries: the recorded node ids, the parent ids among
      them, and the saved images. */
  datatype Registry = Registry(nodesIds: seq<Id>, parentIds: seq<Id>, savedImages: seq<string>)

  /** The registries after `setCluster` records a cluster's nodes. */
  function Recorded(r: Registry, ns: seq<Node>): Registry {
    Registry(r.nodesIds + NodeIds(ns), r.parentIds + ParentIdsOf(ns), RegisterImages(r.savedImages, ImagesOf(ns)))
  }

  /** The registries after `addNode` for the cluster at index `k`: the
      node's ids and its resolved image are recorded; a missing cluster
      (`None`) or a throw records nothing. */
  function RecordedAt(r: Registry, k: Option<nat>, node: Node): Registry {
    if k.Some? && AddSymbol(node).Ok? then
      Registry(r.nodesIds + [node.id], r.parentIds + (if node.parent then [node.id] else []),
               RegisterImage(r.savedImages, Lookup(AddSymbol(node).value.settings, "image")))
    else r
  }

  /** The registries after `removeNode`: a recorded id that reads as a
      non-negative number leaves both id lists; the images stay. */
  function Forgotten(r: Registry, id: Id): Registry {
    if IsNonNegativeNumeral(id) && id in r.nodesIds then
      Registry(RemoveFirst(r.nodesIds, id), RemoveFirst(r.parentIds, id), r.savedImages)
    else r
  }

  /** Removing a node just added takes both id lists back to what they
      were; only the image it registered stays. */
  lemma ForgetRecordedAt(r: Registry, k: Option<nat>, node: Node)
    requires multiset(r.parentIds) <= multiset(r.nodesIds)
    requires IsNonNegativeNumeral(node.id) && node.id !in r.nodesIds
    requires k.Some? && AddSymbol(node).Ok?
    ensures Forgotten(RecordedAt(r, k, node), node.id) == r.(savedImages := RecordedAt(r, k, node).savedImages)
  {
    var x := node.id;
    RemoveFirstAppended(r.nodesIds, x);
    assert x !in r.parentIds by {
      assert multiset(r.parentIds)[x] <= multiset(r.nodesIds)[x] == 0;
    }
    if node.parent {
      RemoveFirstAppended(r.parentIds, x);
    } else {
      assert x !in r.parentIds + [];
    }
  }

  /** `removeNode`'s splices of the id lists: a recorded id that reads as
      a non-negative number leaves both lists; every parent id stays a node
      id. */
  method ForgetId(nodesIds: seq<Id>, parentIds: seq<Id>, id: Id) returns (ids: seq<Id>, pids: seq<Id>)
    requires multiset(parentIds) <= multiset(nodesIds)
    ensures multiset(pids) <= multiset(ids)
    ensures IsNonNegativeNumeral(id) && id in nodesIds ==>
      ids == RemoveFirst(nodesIds, id) && pids == RemoveFirst(parentIds, id)
    ensures !(IsNonNegativeNumeral(id) && id in nodesIds) ==> ids == nodesIds && pids == parentIds
  {
    ids, pids := nodesIds, parentIds;
    if IsNonNegativeNumeral(id) && id in nodesIds {
      RemoveFirstLe(parentIds, nodesIds, id);
      ids := RemoveFirst(nodesIds, id);
      if id in parentIds {
        pids := RemoveFirst(parentIds, id);
      }
    }
  }

  // ---------------------------------------------------------------------
  // The engine

  datatype HandlerError = MissingCluster | Symbol(error: SymbolError)

  class DotHandler {
    /** The DOT text last built; `undefined` before the first build. */
    var dotSrc: Option<string>
    var clusters: seq<Cluster>
    var graphSettings: Attrs
    var edges: seq<Edge>
    var nodeSettings: Attrs
    var edgeSettings: Attrs
    var nodesIds: seq<Id>
    var parentIds: seq<Id>
    var savedImages: seq<string>
    /** The viewer's `showDefaultTooltip` setting. */
    const showDefaultTooltip: bool

    /** No cluster is held twice, no image is registered twice, and every
        parent id is a node id. */
    ghost predicate Valid()
      reads this
    {
      NoDuplicates(clusters) && NoDuplicates(savedImages) && multiset(parentIds) <= multiset(nodesIds)
    }

    /** The registries, as a value. */
    ghost function Registers(): Registry
      reads this
    {
      Registry(nodesIds, parentIds, savedImages)
    }

    /** The three settings and the DOT text, which only the settings
        setters and `_updateDotString` change. */
    ghost function SettingsAndDot(): (Attrs, Attrs, Attrs, Option<string>)
      reads this
    {
      (graphSettings, nodeSettings, edgeSettings, dotSrc)
    }

    /** The state the DOT text is built from. */
    ghost function Snapshot(): DotState
      reads this, clusters
    {
      DotState(graphSettings, nodeSettings, edgeSettings, Views(clusters), edges, parentIds, showDefaultTooltip)
    }

    constructor (showDefaultTooltip: bool)
      ensures Valid() && this.showDefaultTooltip == showDefaultTooltip
      ensures dotSrc == None && clusters == [] && edges == [] && nodesIds == [] && parentIds == []
      ensures graphSettings == [] && nodeSettings == [] && edgeSettings == [] && savedImages == []
    {
      this.showDefaultTooltip := showDefaultTooltip;
      dotSrc := None;
      clusters, edges := [], [];
      graphSettings, nodeSettings, edgeSettings := [], [], [];
      nodesIds, parentIds, savedImages := [], [], [];
    }

    /** `getClusterByNode`. */
    function GetClusterByNode(id: Id): (r: seq<Cluster>)
      reads this, clusters
      ensures forall j :: 0 <= j < |r| ==> r[j] in clusters && r[j].HasNode(id)
      ensures forall j :: 0 <= j < |clusters| && clusters[j].HasNode(id) ==> clusters[j] in r
    {
      ClustersHolding(clusters, id)
    }

    /** `getClusterByName`: the first cluster with the name, `undefined`
        when there is none. */
    function GetClusterByName(name: Value): (r: Option<Cluster>)
      reads this
      ensures r.Some? ==> r.value in clusters && r.value.name == name
      ensures r.None? <==> forall c :: c in clusters ==> c.name != name
    {
      match ClusterIndexByName(clusters, name)
      case None => None
      case Some(i) => Some(clusters[i])
    }

    /** `hasNode`. */
    predicate HasNode(id: Id)
      reads this
    {
      id in nodesIds
    }

    /** `setGraphSettings`. */
    method SetGraphSettings(settings: Attrs)
      modifies this
      ensures graphSettings == Merge(old(graphSettings), settings)
      ensures nodeSettings == old(nodeSettings) && edgeSettings == old(edgeSettings)
      ensures clusters == old(clusters) && edges == old(edges) && nodesIds == old(nodesIds)
      ensures parentIds == old(parentIds) && savedImages == old(savedImages) && dotSrc == old(dotSrc)
    {
      graphSettings := MergeSettings(graphSettings, settings);
    }

    /** `setNodeSettings`. */
    method SetNodeSettings(settings: Attrs)
      modifies this
      ensures nodeSettings == Merge(old(nodeSettings), settings)
      ensures graphSettings == old(graphSettings) && edgeSettings == old(edgeSettings)
      ensures clusters == old(clusters) && edges == old(edges) && nodesIds == old(nodesIds)
      ensures parentIds == old(parentIds) && savedImages == old(savedImages) && dotSrc == old(dotSrc)
    {
      nodeSettings := MergeSettings(nodeSettings, settings);
    }

    /** `setEdgeSettings`. */
    method SetEdgeSettings(settings: Attrs)
      modifies this
      ensures edgeSettings == Merge(old(edgeSettings), settings)
      ensures graphSettings == old(graphSettings) && nodeSettings == old(nodeSettings)
      ensures clusters == old(clusters) && edges == old(edges) && nodesIds == old(nodesIds)
      ensures parentIds == old(parentIds) && savedImages == old(savedImages) && dotSrc == old(dotSrc)
    {
      edgeSettings := MergeSettings(edgeSettings, settings);
    }

    /** `setCluster`: the cluster is appended, its node ids and parent ids
        recorded and its images registered. */
    method SetCluster(c: Cluster)
      requires Valid() && c !in clusters
      modifies this
      ensures Valid()
      ensures clusters == old(clusters) + [c]
      ensures nodesIds == old(nodesIds) + NodeIds(c.nodes)
      ensures parentIds == old(parentIds) + ParentIdsOf(c.nodes)
      ensures savedImages == RegisterImages(old(savedImages), ImagesOf(c.nodes))
      ensures graphSettings == old(graphSettings) && nodeSettings == old(nodeSettings)
      ensures edgeSettings == old(edgeSettings) && edges == old(edges) && dotSrc == old(dotSrc)
    {
      RecordAll(c.nodes);
      AppendCluster(c);
    }

    /** `setCluster`'s bookkeeping: every node's ids recorded and its image
        registered, in order. */
    method RecordAll(ns: seq<Node>)
      requires Valid()
      modifies this
      ensures Valid()
      ensures nodesIds == old(nodesIds) + NodeIds(ns)
      ensures parentIds == old(parentIds) + ParentIdsOf(ns)
      ensures savedImages == RegisterImages(old(savedImages), ImagesOf(ns))
      ensures clusters == old(clusters) && graphSettings == old(graphSettings) && nodeSettings == old(nodeSettings)
      ensures edgeSettings == old(edgeSettings) && edges == old(edges) && dotSrc == old(dotSrc)
    {
      RecordKeepsValid(ns, nodesIds, parentIds);
      nodesIds, parentIds, savedImages := RecordNodes(ns, nodesIds, parentIds, savedImages);
    }

    method AppendCluster(c: Cluster)
      requires Valid() && c !in clusters
      modifies this
      ensures Valid() && clusters == old(clusters) + [c]
      ensures nodesIds == old(nodesIds) && parentIds == old(parentIds) && savedImages == old(savedImages)
      ensures graphSettings == old(graphSettings) && nodeSettings == old(nodeSettings)
      ensures edgeSettings == old(edgeSettings) && edges == old(edges) && dotSrc == old(dotSrc)
    {
      NoDuplicatesAppend(clusters, c);
      clusters := clusters + [c];
    }

    /** `addNode`: the node is resolved into the first cluster with the
        given name, its ids recorded and its image registered. A missing
        cluster or a throwing resolution changes nothing. */
    method AddNode(name: Value, node: Node) returns (r: Result<(), HandlerError>)
      requires Valid()
      modifies this, clusters
      ensures Valid()
      ensures clusters == old(clusters) && edges == old(edges) && dotSrc == old(dotSrc)
      ensures graphSettings == old(graphSettings) && nodeSettings == old(nodeSettings) && edgeSettings == old(edgeSettings)
      ensures ClusterIndexByName(clusters, name).None? ==> r == Err(MissingCluster)
      ensures ClusterIndexByName(clusters, name).Some? && AddSymbol(node).Err? ==> r == Err(Symbol(AddSymbol(node).error))
      ensures r.Err? ==> Views(clusters) == old(Views(clusters)) && nodesIds == old(nodesIds)
      ensures r.Err? ==> parentIds == old(parentIds) && savedImages == old(savedImages)
      ensures r.Ok? <==> ClusterIndexByName(clusters, name).Some? && AddSymbol(node).Ok?
      ensures r.Ok? ==>
        var k := ClusterIndexByName(clusters, name).value;
        var added := AddSymbol(node).value;
        && Views(clusters) == old(Views(clusters))[k := old(Views(clusters))[k].(nodes := old(Views(clusters))[k].nodes + [added])]
        && nodesIds == old(nodesIds) + [node.id]
        && parentIds == old(parentIds) + (if node.parent then [node.id] else [])
        && savedImages == RegisterImage(old(savedImages), Lookup(added.settings, "image"))
      ensures Views(clusters) == AddedAt(old(Views(clusters)), ClusterIndexByName(clusters, name), node)
    {
      var k := ClusterIndexByName(clusters, name);
      if k.None? {
        return Err(MissingCluster);
      }
      var added := AddAt(clusters, k.value, node);
      if added.Err? {
        return Err(Symbol(added.error));
      }
      RecordNode(node, Lookup(added.value.settings, "image"));
      r := Ok(());
    }

    /** `addNode`'s bookkeeping: the image is registered and the node's
        ids recorded. */
    method RecordNode(node: Node, image: Value)
      requires Valid()
      modifies this
      ensures Valid()
      ensures nodesIds == old(nodesIds) + [node.id]
      ensures parentIds == old(parentIds) + (if node.parent then [node.id] else [])
      ensures savedImages == RegisterImage(old(savedImages), image)
      ensures clusters == old(clusters) && Views(clusters) == old(Views(clusters)) && edges == old(edges) && dotSrc == old(dotSrc)
      ensures graphSettings == old(graphSettings) && nodeSettings == old(nodeSettings) && edgeSettings == old(edgeSettings)
    {
      RecordIds(node);
      RegisterNewImage(image);
    }

    method RecordIds(node: Node)
      requires Valid()
      modifies this
      ensures Valid()
      ensures nodesIds == old(nodesIds) + [node.id]
      ensures parentIds == old(parentIds) + (if node.parent then [node.id] else [])
      ensures savedImages == old(savedImages)
      ensures clusters == old(clusters) && Views(clusters) == old(Views(clusters)) && edges == old(edges) && dotSrc == old(dotSrc)
      ensures graphSettings == old(graphSettings) && nodeSettings == old(nodeSettings) && edgeSettings == old(edgeSettings)
    {
      var pid: seq<Id> := if node.parent then [node.id] else [];
      MultisetAppendLe(parentIds, pid, nodesIds, [node.id]);
      nodesIds, parentIds := nodesIds + [node.id], parentIds + pid;
    }

    /** `removeNode`: every cluster drops its first node with the id; the
        id lists drop it only when the id reads as a non-negative number and
        is recorded. */
    method RemoveNode(id: Id)
      requires Valid()
      modifies this, clusters
      ensures Valid()
      ensures clusters == old(clusters) && edges == old(edges) && dotSrc == old(dotSrc) && savedImages == old(savedImages)
      ensures graphSettings == old(graphSettings) && nodeSettings == old(nodeSettings) && edgeSettings == old(edgeSettings)
      ensures forall j :: 0 <= j < |clusters| ==> Views(clusters)[j] == WithoutNode(old(Views(clusters))[j], id)
      ensures IsNonNegativeNumeral(id) && id in old(nodesIds) ==>
        nodesIds == RemoveFirst(old(nodesIds), id) && parentIds == RemoveFirst(old(parentIds), id)
      ensures !(IsNonNegativeNumeral(id) && id in old(nodesIds)) ==>
        nodesIds == old(nodesIds) && parentIds == old(parentIds)
    {
      RemoveFromClusters(clusters, id);
      ForgetNodeId(id);
    }

    /** `removeNode`'s bookkeeping: a recorded id that reads as a
        non-negative number leaves the id lists. */
    method ForgetNodeId(id: Id)
      requires Valid()
      modifies this
      ensures Valid()
      ensures IsNonNegativeNumeral(id) && id in old(nodesIds) ==>
        nodesIds == RemoveFirst(old(nodesIds), id) && parentIds == RemoveFirst(old(parentIds), id)
      ensures !(IsNonNegativeNumeral(id) && id in old(nodesIds)) ==>
        nodesIds == old(nodesIds) && parentIds == old(parentIds)
      ensures clusters == old(clusters) && Views(clusters) == old(Views(clusters)) && edges == old(edges)
      ensures dotSrc == old(dotSrc) && savedImages == old(savedImages)
      ensures graphSettings == old(graphSettings) && nodeSettings == old(nodeSettings) && edgeSettings == old(edgeSettings)
    {
      nodesIds, parentIds := ForgetId(nodesIds, parentIds, id);
    }

    /** `removeEdgeByNode`: the edges with the id at either end are
        dropped and their ids returned in edge order. */
    method RemoveEdgeByNode(id: Id) returns (removed: seq<Value>)
      requires Valid()
      modifies this
      ensures Valid()
      ensures edges == EdgesAvoiding(old(edges), id) && removed == EdgeIdsTouching(old(edges), id)
      ensures clusters == old(clusters) && nodesIds == old(nodesIds) && parentIds == old(parentIds)
      ensures savedImages == old(savedImages) && dotSrc == old(dotSrc)
      ensures graphSettings == old(graphSettings) && nodeSettings == old(nodeSettings) && edgeSettings == old(edgeSettings)
    {
      var kept;
      kept, removed := FilterEdges(edges, id);
      edges := kept;
    }

    /** `changeSymbol`: every cluster holding the node recolours it and
        resolves the new symbol; a non-empty image returned by the last of
        them is registered and the DOT text rebuilt. A throw stops the
        clusters after it and skips the rest. */
    method ChangeSymbol(id: Id, color: Value, shape: Value) returns (r: Result<(), SymbolError>)
      requires Valid()
      modifies this, clusters
      ensures Valid()
      ensures clusters == old(clusters) && edges == old(edges) && nodesIds == old(nodesIds) && parentIds == old(parentIds)
      ensures graphSettings == old(graphSettings) && nodeSettings == old(nodeSettings) && edgeSettings == old(edgeSettings)
      ensures Views(clusters) == ChangeAcross(old(Views(clusters)), id, color, shape).0
      ensures ChangeAcross(old(Views(clusters)), id, color, shape).1.Err? ==>
        r == Err(ChangeAcross(old(Views(clusters)), id, color, shape).1.error)
        && savedImages == old(savedImages) && dotSrc == old(dotSrc)
      ensures ChangeAcross(old(Views(clusters)), id, color, shape).1.Ok? ==>
        r == Ok(())
        && savedImages == RegisterImage(old(savedImages), Truthy(ChangeAcross(old(Views(clusters)), id, color, shape).1.value))
        && dotSrc == Some(Dot(Snapshot()))
    {
      var newImage := ChangeInClusters(clusters, id, color, shape);
      if newImage.Err? {
        return Err(newImage.error);
      }
      RegisterNewImage(Truthy(newImage.value));
      UpdateDotString();
      r := Ok(());
    }

    /** `changeSymbol`'s registration of the new image. */
    method RegisterNewImage(image: Value)
      requires Valid()
      modifies this
      ensures Valid() && savedImages == RegisterImage(old(savedImages), image)
      ensures clusters == old(clusters) && Views(clusters) == old(Views(clusters)) && dotSrc == old(dotSrc)
      ensures edges == old(edges) && nodesIds == old(nodesIds) && parentIds == old(parentIds)
      ensures graphSettings == old(graphSettings) && nodeSettings == old(nodeSettings) && edgeSettings == old(edgeSettings)
    {
      savedImages := RegisterImage(savedImages, image);
    }

    /** `_updateDotString`. */
    method UpdateDotString()
      modifies this
      ensures dotSrc == Some(Dot(Snapshot())) && Views(clusters) == old(Views(clusters))
      ensures clusters == old(clusters) && edges == old(edges) && nodesIds == old(nodesIds) && parentIds == old(parentIds)
      ensures graphSettings == old(graphSettings) && nodeSettings == old(nodeSettings) && edgeSettings == old(edgeSettings)
      ensures savedImages == old(savedImages)
    {
      var dot := WriteDot(graphSettings, nodeSettings, edgeSettings, clusters, edges, parentIds, showDefaultTooltip);
      KeepDot(dot);
    }

    /** The assignment closing `_updateDotString`. */
    method KeepDot(dot: string)
      modifies this
      ensures dotSrc == Some(dot) && Snapshot() == old(Snapshot()) && Views(clusters) == old(Views(clusters))
      ensures clusters == old(clusters) && edges == old(edges) && nodesIds == old(nodesIds) && parentIds == old(parentIds)
      ensures graphSettings == old(graphSettings) && nodeSettings == old(nodeSettings) && edgeSettings == old(edgeSettings)
      ensures savedImages == old(savedImages)
    {
      dotSrc := Some(dot);
    }

    /** `resetEdges`. */
    method ResetEdges()
      requires Valid()
      modifies this
      ensures Valid() && edges == []
      ensures clusters == old(clusters) && nodesIds == old(nodesIds) && parentIds == old(parentIds)
      ensures savedImages == old(savedImages) && dotSrc == old(dotSrc)
      ensures graphSettings == old(graphSettings) && nodeSettings == old(nodeSettings) && edgeSettings == old(edgeSettings)
    {
      edges := [];
    }

    /** `resetClusters`. */
    method ResetClusters()
      requires Valid()
      modifies this
      ensures Valid() && clusters == [] && nodesIds == [] && parentIds == []
      ensures edges == old(edges) && savedImages == old(savedImages) && dotSrc == old(dotSrc)
      ensures graphSettings == old(graphSettings) && nodeSettings == old(nodeSettings) && edgeSettings == old(edgeSettings)
    {
      clusters, nodesIds, parentIds := [], [], [];
    }

    /** `setEdges`. */
    method SetEdges(es: seq<Edge>)
      requires Valid()
      modifies this
      ensures Valid() && edges == es
      ensures clusters == old(clusters) && nodesIds == old(nodesIds) && parentIds == old(parentIds)
      ensures savedImages == old(savedImages) && dotSrc == old(dotSrc)
      ensures graphSettings == old(graphSettings) && nodeSettings == old(nodeSettings) && edgeSettings == old(edgeSettings)
    {
      edges := es;
    }

    /** `addEdge`. */
    method AddEdge(e: Edge)
      requires Valid()
      modifies this
      ensures Valid() && edges == old(edges) + [e]
      ensures clusters == old(clusters) && nodesIds == old(nodesIds) && parentIds == old(parentIds)
      ensures savedImages == old(savedImages) && dotSrc == old(dotSrc)
      ensures graphSettings == old(graphSettings) && nodeSettings == old(nodeSettings) && edgeSettings == old(edgeSettings)
    {
      edges := edges + [e];
    }

    /** `destruct`: every collection and setting is emptied; the last DOT
        text stays. */
    method Destruct()
      modifies this
      ensures Valid()
      ensures edges == [] && clusters == [] && nodesIds == [] && parentIds == [] && savedImages == []
      ensures graphSettings == [] && nodeSettings == [] && edgeSettings == [] && dotSrc == old(dotSrc)
    {
      edges := [];
      clusters, nodesIds, parentIds := [], [], [];
      graphSettings, nodeSettings, edgeSettings := [], [], [];
      savedImages := [];
    }
  }
}
