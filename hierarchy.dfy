/** The hierarchy bookkeeping of the scenario viewer: the maps it builds
    from the fetched hierarchy (parent→descendants, child→root,
    child→parent and its inverse parent→direct children), the root nodes,
    the edges shown first, and the two ancestor walks of expand and
    collapse. */
module Hierarchy {
  import opened Wrappers
  import opened Seqs
  import opened Attributes
  import opened Graph
  import opened Multimap
  import opened DatabaseService

  /** The fetched parent→descendants object: its keys, each with the list
      of its direct and indirect children, in enumeration order. */
  type ParentEntries = seq<(Id, seq<Id>)>

  function EntryKeys(entries: ParentEntries): (r: seq<Id>)
    ensures |r| == |entries|
    ensures forall i :: 0 <= i < |entries| ==> r[i] == entries[i].0
  {
    if entries == [] then [] else EntryKeys(entries[..|entries| - 1]) + [entries[|entries| - 1].0]
  }

  /** Every listed descendant, entry by entry, repetitions kept. */
  function AllListed(entries: ParentEntries): seq<Id> {
    if entries == [] then [] else AllListed(entries[..|entries| - 1]) + entries[|entries| - 1].1
  }

  lemma ReadStep(entries: ParentEntries, i: nat)
    requires i < |entries|
    ensures EntryKeys(entries[..i + 1]) == EntryKeys(entries[..i]) + [entries[i].0]
    ensures AllListed(entries[..i + 1]) == AllListed(entries[..i]) + entries[i].1
  {
    assert entries[..i + 1][..i] == entries[..i];
  }

  /** The loop over the fetched parent→descendants object: every key is
      mapped to its list and pushed as a root candidate, and its list is
      merged into the set of child nodes. */
  method ReadParentChild(entries: ParentEntries) returns (parentChildMap: map<Id, seq<Id>>, rootNodes: seq<Id>, childNodes: seq<Id>)
    requires NoDuplicates(EntryKeys(entries))
    ensures rootNodes == EntryKeys(entries)
    ensures forall k :: k in parentChildMap <==> k in rootNodes
    ensures forall i :: 0 <= i < |entries| ==> parentChildMap[entries[i].0] == entries[i].1
    ensures NoDuplicates(childNodes) && forall x :: x in childNodes <==> x in AllListed(entries)
  {
    parentChildMap, rootNodes, childNodes := map[], [], [];
    var i := 0;
    while i < |entries|
      invariant 0 <= i <= |entries|
      invariant rootNodes == EntryKeys(entries[..i])
      invariant forall k :: k in parentChildMap <==> k in rootNodes
      invariant forall j :: 0 <= j < i ==> parentChildMap[entries[j].0] == entries[j].1
      invariant NoDuplicates(childNodes) && forall x :: x in childNodes <==> x in AllListed(entries[..i])
    {
      var (elem, children) := entries[i];
      ReadStep(entries, i);
      parentChildMap := parentChildMap[elem := children];
      rootNodes := rootNodes + [elem];
      childNodes := Dedup(childNodes + children);
      i := i + 1;
    }
    assert entries[..i] == entries;
  }

  /** The root computation as written: `forEach` over the root candidates
      while `splice` removes from them. `forEach` visits index `k` of the
      list as it is at that moment, up to its starting length `len`, so the
      element after each removal moves under the visited index and is
      skipped. */
  function SpliceWalk(roots: seq<Id>, childNodes: seq<Id>, k: nat, len: nat): seq<Id>
    decreases len - k
  {
    if k >= len then roots
    else if k < |roots| && roots[k] in childNodes then
      SpliceWalk(RemoveAt(roots, IndexOf(roots, roots[k]).value), childNodes, k + 1, len)
    else SpliceWalk(roots, childNodes, k + 1, len)
  }

  /** The root computation as written, as the loop it runs. */
  method PruneRootsAsWritten(rootNodes: seq<Id>, childNodes: seq<Id>) returns (roots: seq<Id>)
    ensures roots == SpliceWalk(rootNodes, childNodes, 0, |rootNodes|)
  {
    roots := rootNodes;
    var len := |rootNodes|;
    var k := 0;
    while k < len
      invariant 0 <= k <= len
      invariant SpliceWalk(roots, childNodes, k, len) == SpliceWalk(rootNodes, childNodes, 0, len)
    {
      if k < |roots| {
        var node := roots[k];
        if node in childNodes {
          roots := RemoveAt(roots, IndexOf(roots, node).value);
        }
      }
      k := k + 1;
    }
  }

  /** As written, a root candidate that directly follows a removed child
      survives even when it is a child itself. */
  lemma SpliceCounterexample()
    ensures
      var entries: ParentEntries := [("1", ["2"]), ("2", ["4"]), ("3", ["1", "2", "4"])];
      && EntryKeys(entries) == ["1", "2", "3"]
      && AllListed(entries) == ["2", "4", "1", "2", "4"]
      && SpliceWalk(["1", "2", "3"], ["2", "4", "1"], 0, 3) == ["2", "3"]
      && Unlisted(["1", "2", "3"], ["2", "4", "1"]) == ["3"]
  {
    var entries: ParentEntries := [("1", ["2"]), ("2", ["4"]), ("3", ["1", "2", "4"])];
    assert entries[..2] == [("1", ["2"]), ("2", ["4"])];
    assert entries[..2][..1] == [("1", ["2"])];
    assert [("1", ["2"])][..0] == [];
    var children: seq<Id> := ["2", "4", "1"];
    var roots: seq<Id> := ["1", "2", "3"];
    assert IndexOf(roots, "1") == Some(0);
    assert RemoveAt(roots, 0) == ["2", "3"];
    assert "3" !in children && "1" in children && "2" in children;
    assert SpliceWalk(["2", "3"], children, 2, 3) == ["2", "3"];
    assert SpliceWalk(["2", "3"], children, 1, 3) == ["2", "3"];
    assert roots[..2] == ["1", "2"];
    assert roots[..2][..1] == ["1"];
    assert ["1"][..0] == [];
    assert Unlisted(["1"], children) == [];
    assert Unlisted(["1", "2"], children) == [];
  }

  /** On a chain 1 → 2 → 3 → 4 the walk as written keeps the child 3 as a
      root, so the descendant 4 is later mapped to 3 rather than to 1. */
  lemma SpliceChainCounterexample()
    ensures SpliceWalk(["1", "2", "3"], ["2", "3", "4"], 0, 3) == ["1", "3"]
    ensures Unlisted(["1", "2", "3"], ["2", "3", "4"]) == ["1"]
  {
    var roots: seq<Id> := ["1", "2", "3"];
    var children: seq<Id> := ["2", "3", "4"];
    assert "1" !in children && "2" in children && "3" in children;
    assert IndexOf(roots, "2") == Some(1);
    assert RemoveAt(roots, 1) == ["1", "3"];
    assert SpliceWalk(["1", "3"], children, 2, 3) == ["1", "3"];
    assert roots[..2] == ["1", "2"];
    assert roots[..2][..1] == ["1"];
    assert ["1"][..0] == [];
  }

  /** The root candidates not listed as anyone's child, in order. */
  function Unlisted(rootNodes: seq<Id>, childNodes: seq<Id>): (r: seq<Id>)
    ensures forall x :: x in r <==> x in rootNodes && x !in childNodes
  {
    if rootNodes == [] then []
    else
      var x := rootNodes[|rootNodes| - 1];
      var prev := Unlisted(rootNodes[..|rootNodes| - 1], childNodes);
      assert rootNodes == rootNodes[..|rootNodes| - 1] + [x];
      if x in childNodes then prev else prev + [x]
  }

  /** The walk as written never removes a root, and everything it removes
      is a child, but it may keep children. */
  lemma {:induction false} SpliceWalkBounds(roots: seq<Id>, childNodes: seq<Id>, k: nat, len: nat, x: Id)
    ensures x in SpliceWalk(roots, childNodes, k, len) ==> x in roots
    ensures x in roots && x !in childNodes ==> x in SpliceWalk(roots, childNodes, k, len)
    decreases len - k
  {
    if k < len {
      if k < |roots| && roots[k] in childNodes {
        var i := IndexOf(roots, roots[k]).value;
        var next := RemoveAt(roots, i);
        SpliceWalkBounds(next, childNodes, k + 1, len, x);
        assert roots == roots[..i] + [roots[i]] + roots[i + 1..];
        assert next == roots[..i] + roots[i + 1..];
      } else {
        SpliceWalkBounds(roots, childNodes, k + 1, len, x);
      }
    }
  }

  lemma UnlistedStep(rootNodes: seq<Id>, childNodes: seq<Id>, i: nat)
    requires i < |rootNodes|
    ensures Unlisted(rootNodes[..i + 1], childNodes) ==
      Unlisted(rootNodes[..i], childNodes) + (if rootNodes[i] in childNodes then [] else [rootNodes[i]])
  {
    assert rootNodes[..i + 1][..i] == rootNodes[..i];
  }

  /** The root computation corrected: every candidate not listed as a
      child is kept, in order, and every listed one removed. */
  method PruneRoots(rootNodes: seq<Id>, childNodes: seq<Id>) returns (roots: seq<Id>)
    ensures roots == Unlisted(rootNodes, childNodes)
    ensures forall x :: x in roots <==> x in rootNodes && x !in childNodes
  {
    roots := [];
    var i := 0;
    while i < |rootNodes|
      invariant 0 <= i <= |rootNodes|
      invariant roots == Unlisted(rootNodes[..i], childNodes)
    {
      UnlistedStep(rootNodes, childNodes, i);
      if rootNodes[i] !in childNodes {
        roots := roots + [rootNodes[i]];
      }
      i := i + 1;
    }
    assert rootNodes[..i] == rootNodes;
  }

  /** `childRootMap` after the loop over the roots: every descendant the
      fetch lists for a root is mapped to that root, later roots
      overwriting earlier ones. */
  function ChildRoots(roots: seq<Id>, childrenOf: Id -> seq<Id>): map<Id, Id> {
    if roots == [] then map[]
    else
      var r := roots[|roots| - 1];
      ChildRoots(roots[..|roots| - 1], childrenOf) + map c | c in childrenOf(r) :: r
  }

  /** A child is mapped exactly when some root lists it, and then to the
      last root that lists it. */
  lemma {:induction false} ChildRootsWitness(roots: seq<Id>, childrenOf: Id -> seq<Id>, c: Id) returns (i: nat)
    requires c in ChildRoots(roots, childrenOf)
    ensures i < |roots| && ChildRoots(roots, childrenOf)[c] == roots[i] && c in childrenOf(roots[i])
    ensures forall j :: i < j < |roots| ==> c !in childrenOf(roots[j])
  {
    var init := roots[..|roots| - 1];
    var r := roots[|roots| - 1];
    if c in childrenOf(r) {
      i := |roots| - 1;
    } else {
      i := ChildRootsWitness(init, childrenOf, c);
    }
  }

  lemma {:induction false} ChildRootsComplete(roots: seq<Id>, childrenOf: Id -> seq<Id>, i: nat, c: Id)
    requires i < |roots| && c in childrenOf(roots[i])
    ensures c in ChildRoots(roots, childrenOf)
  {
    var init := roots[..|roots| - 1];
    if i < |init| && c !in childrenOf(roots[|roots| - 1]) {
      ChildRootsComplete(init, childrenOf, i, c);
    }
  }

  lemma ChildRootsStep(roots: seq<Id>, childrenOf: Id -> seq<Id>, i: nat)
    requires i < |roots|
    ensures ChildRoots(roots[..i + 1], childrenOf) == ChildRoots(roots[..i], childrenOf) + map c | c in childrenOf(roots[i]) :: roots[i]
  {
    assert roots[..i + 1][..i] == roots[..i];
  }

  /** The map after setting each of the keys to the value in turn. */
  function SetAll(m: map<Id, Id>, keys: seq<Id>, v: Id): map<Id, Id> {
    if keys == [] then m else SetAll(m, keys[..|keys| - 1], v)[keys[|keys| - 1] := v]
  }

  /** Setting the keys one by one is the union with the map sending
      every key to the value. */
  lemma {:induction false} SetAllUnion(m: map<Id, Id>, keys: seq<Id>, v: Id)
    ensures SetAll(m, keys, v) == m + map c | c in keys :: v
  {
    if keys != [] {
      var init := keys[..|keys| - 1];
      SetAllUnion(m, init, v);
      assert keys == init + [keys[|keys| - 1]];
    }
  }

  /** The loop filling `childRootMap`: for each root, each of its fetched
      descendants is set to that root. */
  method MapChildrenToRoots(rootNodes: seq<Id>, childrenOf: Id -> seq<Id>) returns (childRootMap: map<Id, Id>)
    ensures childRootMap == ChildRoots(rootNodes, childrenOf)
  {
    childRootMap := map[];
    var i := 0;
    while i < |rootNodes|
      invariant 0 <= i <= |rootNodes|
      invariant childRootMap == ChildRoots(rootNodes[..i], childrenOf)
    {
      var node := rootNodes[i];
      var arr := childrenOf(node);
      ghost var before := childRootMap;
      var j := 0;
      while j < |arr|
        invariant 0 <= j <= |arr|
        invariant childRootMap == SetAll(before, arr[..j], node)
      {
        assert arr[..j + 1][..j] == arr[..j];
        childRootMap := childRootMap[arr[j] := node];
        j := j + 1;
      }
      assert arr[..j] == arr;
      SetAllUnion(before, arr, node);
      ChildRootsStep(rootNodes, childrenOf, i);
      i := i + 1;
    }
    assert rootNodes[..i] == rootNodes;
  }

  /** `new Map(Object.entries(allParents))`: the fetched child→parent
      object as a map. */
  function MapOf(pairs: seq<(Id, Id)>): map<Id, Id> {
    if pairs == [] then map[]
    else
      var (c, p) := pairs[|pairs| - 1];
      MapOf(pairs[..|pairs| - 1])[c := p]
  }

  /** An object never holds a key twice, so its map holds exactly its
      pairs. */
  lemma {:induction false} MapOfPairs(pairs: seq<(Id, Id)>, c: Id, p: Id)
    requires NoDuplicates(Firsts(pairs))
    ensures c in MapOf(pairs) && MapOf(pairs)[c] == p <==> (c, p) in pairs
  {
    if pairs != [] {
      var init := pairs[..|pairs| - 1];
      var last := pairs[|pairs| - 1];
      assert NoDuplicates(Firsts(init)) by {
        assert forall i :: 0 <= i < |init| ==> Firsts(init)[i] == Firsts(pairs)[i];
      }
      MapOfPairs(init, c, p);
      if (c, p) in pairs {
        var k :| 0 <= k < |pairs| && pairs[k] == (c, p);
        if k < |init| {
          assert init[k] == (c, p);
        }
      }
      if (c, p) in init {
        var k :| 0 <= k < |init| && init[k] == (c, p);
        assert pairs[k] == (c, p);
        assert Firsts(pairs)[k] == c && k < |pairs| - 1;  // so the last key is not c
      }
    }
  }

  /** A key of the map is a key of the object. */
  lemma {:induction false} MapOfKeys(pairs: seq<(Id, Id)>, c: Id)
    ensures c in MapOf(pairs) <==> c in Firsts(pairs)
  {
    if pairs != [] {
      var init := pairs[..|pairs| - 1];
      MapOfKeys(init, c);
      assert Firsts(pairs) == Firsts(init) + [pairs[|pairs| - 1].0];
    }
  }

  /** The pairs read the other way round: parent first. */
  function Swap(pairs: seq<(Id, Id)>): (r: seq<(Id, Id)>)
    ensures |r| == |pairs|
    ensures forall i :: 0 <= i < |pairs| ==> r[i] == (pairs[i].1, pairs[i].0)
  {
    if pairs == [] then [] else Swap(pairs[..|pairs| - 1]) + [(pairs[|pairs| - 1].1, pairs[|pairs| - 1].0)]
  }

  /** The loop filling `parentDirectChildMap`: each child key is appended
      to the list of its parent. */
  method InvertParents(allParents: seq<(Id, Id)>) returns (parentDirectChildMap: map<Id, seq<Id>>)
    ensures IsGrouping(parentDirectChildMap, Swap(allParents))
  {
    parentDirectChildMap := map[];
    var pairs := Swap(allParents);
    var i := 0;
    while i < |allParents|
      invariant 0 <= i <= |allParents|
      invariant IsGrouping(parentDirectChildMap, pairs[..i])
    {
      var key := allParents[i].0;
      var parent := allParents[i].1;
      assert pairs[i] == (parent, key);
      GroupingStep(parentDirectChildMap, pairs, i);
      if parent in parentDirectChildMap {
        var temp := parentDirectChildMap[parent];
        temp := temp + [key];
        parentDirectChildMap := parentDirectChildMap[parent := temp];
      } else {
        assert [] + [key] == [key];
        parentDirectChildMap := parentDirectChildMap[parent := [key]];
      }
      i := i + 1;
    }
    assert pairs[..i] == pairs;
  }

  /** `parentDirectChildMap` inverts `childParentMap`: `c` is listed under
      `p` exactly when `p` is the parent of `c`. */
  lemma DirectChildrenInvert(allParents: seq<(Id, Id)>, m: map<Id, seq<Id>>, p: Id, c: Id)
    requires NoDuplicates(Firsts(allParents)) && IsGrouping(m, Swap(allParents))
    ensures p in m && c in m[p] <==> c in MapOf(allParents) && MapOf(allParents)[c] == p
  {
    MapOfPairs(allParents, c, p);
    ValuesUnderMembers(Swap(allParents), p, c);
    if (p, c) in Swap(allParents) {
      var k :| 0 <= k < |allParents| && Swap(allParents)[k] == (p, c);
      assert allParents[k] == (c, p);
      assert Firsts(Swap(allParents))[k] == p;
    }
    if (c, p) in allParents {
      var k :| 0 <= k < |allParents| && allParents[k] == (c, p);
      assert Swap(allParents)[k] == (p, c);
    }
  }

  /** An endpoint in collapsed mode: its root when it has one. */
  function Reroute(childRootMap: map<Id, Id>, x: Id): Id {
    if x in childRootMap then childRootMap[x] else x
  }

  /** The edge `setScenarioData` hands to the engine for a data edge. */
  function InitialEdge(e: D3Edge, showAllNodes: bool, childRootMap: map<Id, Id>): Edge {
    var source := if showAllNodes then e.source else Reroute(childRootMap, e.source);
    var target := if showAllNodes then e.target else Reroute(childRootMap, e.target);
    Edge(Str(source), Str(target), [("type", Str(e.labels)), ("id", Str(e.id))])
  }

  /** The edges shown first: every data edge that is not an `includes`
      edge, in order. */
  function InitialEdges(edgeData: seq<D3Edge>, showAllNodes: bool, childRootMap: map<Id, Id>): (r: seq<Edge>)
    ensures |r| <= |edgeData|
  {
    if edgeData == [] then []
    else
      var e := edgeData[|edgeData| - 1];
      InitialEdges(edgeData[..|edgeData| - 1], showAllNodes, childRootMap)
        + (if e.labels != "includes" then [InitialEdge(e, showAllNodes, childRootMap)] else [])
  }

  lemma InitialEdgesStep(edgeData: seq<D3Edge>, showAllNodes: bool, childRootMap: map<Id, Id>, i: nat)
    requires i < |edgeData|
    ensures InitialEdges(edgeData[..i + 1], showAllNodes, childRootMap) == InitialEdges(edgeData[..i], showAllNodes, childRootMap)
      + (if edgeData[i].labels != "includes" then [InitialEdge(edgeData[i], showAllNodes, childRootMap)] else [])
  {
    assert edgeData[..i + 1][..i] == edgeData[..i];
  }

  /** Every edge shown first comes from a data edge that is not an
      `includes` edge: it keeps that edge's id and type, and its endpoints
      are the data edge's own in show-all mode and their roots, where they
      have one, otherwise. */
  lemma {:induction false} InitialEdgeOrigin(edgeData: seq<D3Edge>, showAllNodes: bool, childRootMap: map<Id, Id>, j: nat) returns (i: nat)
    requires j < |InitialEdges(edgeData, showAllNodes, childRootMap)|
    ensures i < |edgeData| && edgeData[i].labels != "includes"
    ensures InitialEdges(edgeData, showAllNodes, childRootMap)[j] == InitialEdge(edgeData[i], showAllNodes, childRootMap)
  {
    var init := edgeData[..|edgeData| - 1];
    if j < |InitialEdges(init, showAllNodes, childRootMap)| {
      i := InitialEdgeOrigin(init, showAllNodes, childRootMap, j);
    } else {
      i := |edgeData| - 1;
    }
  }

  /** In collapsed mode, when no root is itself a mapped child, no
      endpoint shown first is a mapped child. */
  lemma InitialEdgesHideChildren(edgeData: seq<D3Edge>, childRootMap: map<Id, Id>, j: nat)
    requires forall c :: c in childRootMap ==> childRootMap[c] !in childRootMap
    requires j < |InitialEdges(edgeData, false, childRootMap)|
    ensures var e := InitialEdges(edgeData, false, childRootMap)[j];
      && e.source.Str? && e.source.text !in childRootMap
      && e.target.Str? && e.target.text !in childRootMap
  {
    var i := InitialEdgeOrigin(edgeData, false, childRootMap, j);
  }

  /** The edge loop of `setScenarioData`. */
  method SelectEdges(edgeData: seq<D3Edge>, showAllNodes: bool, childRootMap: map<Id, Id>) returns (clusterEdges: seq<Edge>)
    ensures clusterEdges == InitialEdges(edgeData, showAllNodes, childRootMap)
  {
    clusterEdges := [];
    var i := 0;
    while i < |edgeData|
      invariant 0 <= i <= |edgeData|
      invariant clusterEdges == InitialEdges(edgeData[..i], showAllNodes, childRootMap)
    {
      var edge := edgeData[i];
      InitialEdgesStep(edgeData, showAllNodes, childRootMap, i);
      var settings := [("type", Str(edge.labels)), ("id", Str(edge.id))];
      if showAllNodes && edge.labels != "includes" {
        clusterEdges := clusterEdges + [Edge(Str(edge.source), Str(edge.target), settings)];
      } else if !showAllNodes && edge.labels != "includes" {
        if edge.source in childRootMap && edge.target in childRootMap {
          clusterEdges := clusterEdges + [Edge(Str(childRootMap[edge.source]), Str(childRootMap[edge.target]), settings)];
        } else if edge.source in childRootMap {
          clusterEdges := clusterEdges + [Edge(Str(childRootMap[edge.source]), Str(edge.target), settings)];
        } else if edge.target in childRootMap {
          clusterEdges := clusterEdges + [Edge(Str(edge.source), Str(childRootMap[edge.target]), settings)];
        } else if edge.source !in childRootMap && edge.target !in childRootMap {
          clusterEdges := clusterEdges + [Edge(Str(edge.source), Str(edge.target), settings)];
        }
      }
      i := i + 1;
    }
    assert edgeData[..i] == edgeData;
  }

  /** `childParentMap.get(x)`: the parent, `undefined` for a node without
      one and for `undefined` itself. */
  function ParentOf(childParentMap: map<Id, Id>, x: Value): Value {
    if x.Str? && x.text in childParentMap then Str(childParentMap[x.text]) else Undefined
  }

  /** `hasNode(x)`: `undefined` is never a node. */
  predicate Visible(nodesIds: seq<Id>, x: Value) {
    x.Str? && x.text in nodesIds
  }

  /** `x` after `k` parent steps. */
  function Ancestor(childParentMap: map<Id, Id>, x: Value, k: nat): Value
    decreases k
  {
    if k == 0 then x else Ancestor(childParentMap, ParentOf(childParentMap, x), k - 1)
  }

  /** The ancestor walk of expand, `while (!hasNode(x)) x =
      childParentMap.get(x)`, cut after `fuel` steps: `None` when the cut is
      reached, which is where the walk of the source loops forever. */
  function Climb(nodesIds: seq<Id>, childParentMap: map<Id, Id>, x: Value, fuel: nat): Option<Id>
    decreases fuel
  {
    if Visible(nodesIds, x) then Some(x.text)
    else if fuel == 0 then None
    else Climb(nodesIds, childParentMap, ParentOf(childParentMap, x), fuel - 1)
  }

  /** A walk that ends stops at the nearest visible ancestor. */
  lemma {:induction false} ClimbEnds(nodesIds: seq<Id>, childParentMap: map<Id, Id>, x: Value, fuel: nat) returns (k: nat)
    requires Climb(nodesIds, childParentMap, x, fuel).Some?
    ensures k <= fuel
    ensures Str(Climb(nodesIds, childParentMap, x, fuel).value) == Ancestor(childParentMap, x, k)
    ensures Climb(nodesIds, childParentMap, x, fuel).value in nodesIds
    ensures forall j :: 0 <= j < k ==> !Visible(nodesIds, Ancestor(childParentMap, x, j))
    decreases fuel
  {
    if Visible(nodesIds, x) {
      k := 0;
    } else {
      var k' := ClimbEnds(nodesIds, childParentMap, ParentOf(childParentMap, x), fuel - 1);
      k := k' + 1;
      forall j | 0 <= j < k
        ensures !Visible(nodesIds, Ancestor(childParentMap, x, j))
      {
        if j > 0 {
          assert Ancestor(childParentMap, x, j) == Ancestor(childParentMap, ParentOf(childParentMap, x), j - 1);
        }
      }
    }
  }

  /** Once the walk has left the map it stays at `undefined`, which is
      never visible: the walk of the source does not end. */
  lemma {:induction false} ClimbUndefined(nodesIds: seq<Id>, childParentMap: map<Id, Id>, fuel: nat)
    ensures Climb(nodesIds, childParentMap, Undefined, fuel) == None
  {
    if fuel > 0 {
      ClimbUndefined(nodesIds, childParentMap, fuel - 1);
    }
  }

  /** A walk cut after `fuel` steps passed only invisible nodes. */
  lemma {:induction false} ClimbNone(nodesIds: seq<Id>, childParentMap: map<Id, Id>, x: Value, fuel: nat, j: nat)
    requires Climb(nodesIds, childParentMap, x, fuel).None? && j <= fuel
    ensures !Visible(nodesIds, Ancestor(childParentMap, x, j))
    decreases fuel
  {
    if j > 0 {
      ClimbNone(nodesIds, childParentMap, ParentOf(childParentMap, x), fuel - 1, j - 1);
    }
  }

  /** `a + b` parent steps are `b` steps from the node `a` steps up. */
  lemma {:induction false} AncestorAdd(childParentMap: map<Id, Id>, x: Value, a: nat, b: nat)
    ensures Ancestor(childParentMap, x, a + b) == Ancestor(childParentMap, Ancestor(childParentMap, x, a), b)
    decreases a
  {
    if a > 0 {
      AncestorAdd(childParentMap, ParentOf(childParentMap, x), a - 1, b);
    }
  }

  lemma {:induction false} AncestorUndefined(childParentMap: map<Id, Id>, k: nat)
    ensures Ancestor(childParentMap, Undefined, k) == Undefined
    decreases k
  {
    if k > 0 {
      AncestorUndefined(childParentMap, k - 1);
    }
  }

  /** More elements than distinct values: some value occurs twice. */
  lemma {:induction false} Pigeonhole(s: seq<Id>, keys: set<Id>) returns (i: nat, j: nat)
    requires forall k :: 0 <= k < |s| ==> s[k] in keys
    requires |s| > |keys|
    ensures i < j < |s| && s[i] == s[j]
    decreases |s|
  {
    if s[0] in s[1..] {
      var k :| 0 <= k < |s[1..]| && s[1..][k] == s[0];
      i, j := 0, k + 1;
    } else {
      var rest := keys - {s[0]};
      forall k | 0 <= k < |s[1..]| ensures s[1..][k] in rest {
        assert s[1..][k] == s[k + 1];
      }
      var i', j' := Pigeonhole(s[1..], rest);
      i, j := i' + 1, j' + 1;
    }
  }

  /** Past a repeated ancestor the walk cycles: every later ancestor is one
      of the `p` ancestors from the repetition on. */
  lemma {:induction false} AncestorCycle(childParentMap: map<Id, Id>, x: Value, i: nat, p: nat, k: nat) returns (m: nat)
    requires p > 0 && Ancestor(childParentMap, x, i) == Ancestor(childParentMap, x, i + p) && i <= k
    ensures i <= m < i + p && Ancestor(childParentMap, x, k) == Ancestor(childParentMap, x, m)
    decreases k
  {
    if k < i + p {
      m := k;
    } else {
      AncestorAdd(childParentMap, x, i + p, k - i - p);
      AncestorAdd(childParentMap, x, i, k - i - p);
      m := AncestorCycle(childParentMap, x, i, p, k - p);
    }
  }

  /** Running out of `|childParentMap| + 1` steps means the walk of the
      source never ends: no ancestor of the node, however far up, is
      visible. Within that many steps the walk either leaves the map,
      after which it stays at `undefined`, or meets a node twice and then
      cycles through nodes it has already passed. */
  lemma ClimbForever(nodesIds: seq<Id>, childParentMap: map<Id, Id>, x: Value, k: nat)
    requires Climb(nodesIds, childParentMap, x, |childParentMap| + 1).None?
    ensures !Visible(nodesIds, Ancestor(childParentMap, x, k))
  {
    var n := |childParentMap|;
    if k <= n + 1 {
      ClimbNone(nodesIds, childParentMap, x, n + 1, k);
    } else if j :| 0 <= j <= n && !(Ancestor(childParentMap, x, j).Str? && Ancestor(childParentMap, x, j).text in childParentMap) {
      AncestorAdd(childParentMap, x, j, 1);
      assert Ancestor(childParentMap, x, j + 1) == Undefined;
      AncestorAdd(childParentMap, x, j + 1, k - j - 1);
      AncestorUndefined(childParentMap, k - j - 1);
    } else {
      var chain := seq(n + 1, j requires 0 <= j <= n => Ancestor(childParentMap, x, j).text);
      forall j | 0 <= j < |chain| ensures chain[j] in childParentMap.Keys {
        assert Ancestor(childParentMap, x, j).Str? && Ancestor(childParentMap, x, j).text in childParentMap;
      }
      var i, j := Pigeonhole(chain, childParentMap.Keys);
      assert Ancestor(childParentMap, x, i) == Ancestor(childParentMap, x, j);
      var m := AncestorCycle(childParentMap, x, i, j - i, k);
      ClimbNone(nodesIds, childParentMap, x, n + 1, m);
    }
  }

  /** The ancestor walk of collapse: at most ten parent steps while the
      node is not visible, keeping whatever was reached last. */
  function CappedClimb(nodesIds: seq<Id>, childParentMap: map<Id, Id>, x: Value, n: nat): Value
    decreases 10 - n
  {
    if Visible(nodesIds, x) || n >= 10 then x
    else CappedClimb(nodesIds, childParentMap, ParentOf(childParentMap, x), n + 1)
  }

  /** The capped walk stops at the first visible ancestor within ten steps,
      or after ten steps at whatever it reached. */
  lemma {:induction false} CappedClimbEnds(nodesIds: seq<Id>, childParentMap: map<Id, Id>, x: Value, n: nat) returns (k: nat)
    requires n <= 10
    ensures n + k <= 10
    ensures CappedClimb(nodesIds, childParentMap, x, n) == Ancestor(childParentMap, x, k)
    ensures Visible(nodesIds, Ancestor(childParentMap, x, k)) || n + k == 10
    ensures forall j :: 0 <= j < k ==> !Visible(nodesIds, Ancestor(childParentMap, x, j))
    decreases 10 - n
  {
    if Visible(nodesIds, x) || n >= 10 {
      k := 0;
    } else {
      var k' := CappedClimbEnds(nodesIds, childParentMap, ParentOf(childParentMap, x), n + 1);
      k := k' + 1;
      forall j | 0 <= j < k
        ensures !Visible(nodesIds, Ancestor(childParentMap, x, j))
      {
        if j > 0 {
          assert Ancestor(childParentMap, x, j) == Ancestor(childParentMap, ParentOf(childParentMap, x), j - 1);
        }
      }
    }
  }
}
