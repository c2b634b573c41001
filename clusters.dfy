/** A cluster of the rendered graph: an ordered list of nodes written as one
    Graphviz `subgraph`, with its own cluster and node attributes, and the
    resolution of each node's symbol when it joins the cluster. */
module Clusters {
  import opened Wrappers
  import opened Strings
  import opened Attributes
  import opened Seqs
  import opened Graph
  import Base64

  /** The prefix of an inline SVG image (a `data:` URL of RFC 2397). */
  const DataUriPrefix := "data:image/svg+xml;base64,"

  /** The fallback symbol and its colour from the graph settings. */
  const DefaultShape := "ribosite"
  const DefaultShapeColor := "#808080"

  /** `250 / 180` and `200 / 180` as JavaScript prints them. */
  const DefaultWidth := "1.3888888888888888"
  const DefaultHeight := "1.1111111111111112"

  /** `btoa` threw: the coloured image holds a character above U+00FF. */
  datatype SymbolError = InvalidCharacter

  /** The image text that gets encoded: trimmed, every `fill="none"`
      removed, and a fill colour inserted after the first `svg`. */
  function ColoredSvg(svg: string, color: Value): string {
    ReplaceFirst(RemoveAll(Trim(svg), "fill=\"none\""), "svg", "svg fill=\"" + Render(color) + "\"")
  }

  /** The seven attributes of the fallback symbol, in the order they are
      assigned. */
  const DefaultShapeAttrs: Attrs := [
    ("shape", Str(DefaultShape)), ("color", Str("black")), ("fillcolor", Str(DefaultShapeColor)),
    ("style", Str("filled")), ("fixedsize", Str("true")), ("width", Str(DefaultWidth)),
    ("height", Str(DefaultHeight))]

  /** The keys of the fallback symbol, in order. */
  const DefaultShapeKeyList: seq<string> := ["shape", "color", "fillcolor", "style", "fixedsize", "width", "height"]

  predicate IsDefaultShapeKey(k: string) {
    k in DefaultShapeKeyList
  }

  /** `_addSymbol`: a node with an image gets the image as a base64 SVG data
      URL; a node with neither image nor shape gets the fallback symbol;
      any other node is returned as it is. The only failure is `btoa`'s. */
  function AddSymbol(n: Node): (r: Result<Node, SymbolError>)
    ensures r.Ok? ==>
      r.value.id == n.id && r.value.kind == n.kind && r.value.parent == n.parent && r.value.origin == n.origin
    ensures Lookup(n.settings, "image").Undefined? ==> r.Ok?
  {
    match Lookup(n.settings, "image")
    case Str(svg) =>
      (match Base64.Btoa(ColoredSvg(svg, Lookup(n.settings, "nodeColor")))
       case None => Err(InvalidCharacter)
       case Some(b) => Ok(n.(settings := Assign(n.settings, "image", Str(DataUriPrefix + b)))))
    case Undefined =>
      if HasKey(n.settings, "shape") then Ok(n)
      else Ok(n.(settings := Merge(n.settings, DefaultShapeAttrs)))
  }

  /** Resolution throws exactly when the node has an image whose cleaned
      and coloured text holds a character above U+00FF. */
  lemma AddSymbolFails(n: Node)
    ensures AddSymbol(n).Err? <==>
      (Lookup(n.settings, "image").Str?
       && !Base64.IsLatin1(ColoredSvg(Lookup(n.settings, "image").text, Lookup(n.settings, "nodeColor"))))
  {
  }

  /** With an image, the new image is the data URL prefix followed by a
      payload that decodes to the cleaned and coloured image; no other
      attribute changes. */
  lemma AddSymbolImage(n: Node)
    requires Lookup(n.settings, "image").Str?
    requires AddSymbol(n).Ok?
    ensures var image := Lookup(AddSymbol(n).value.settings, "image");
      image.Str? && |image.text| >= |DataUriPrefix|
      && image.text[..|DataUriPrefix|] == DataUriPrefix
      && Base64.Decode(image.text[|DataUriPrefix|..])
         == Some(ColoredSvg(Lookup(n.settings, "image").text, Lookup(n.settings, "nodeColor")))
    ensures forall k :: k != "image" ==> Lookup(AddSymbol(n).value.settings, k) == Lookup(n.settings, k)
  {
    var colored := ColoredSvg(Lookup(n.settings, "image").text, Lookup(n.settings, "nodeColor"));
    var b := Base64.Btoa(colored).value;
    Base64.BtoaDecodes(colored);
    var text := DataUriPrefix + b;
    AssignReads(n.settings, "image", Str(text), "image");
    assert text[|DataUriPrefix|..] == b;
    forall k | k != "image"
      ensures Lookup(AddSymbol(n).value.settings, k) == Lookup(n.settings, k)
    {
      AssignReads(n.settings, "image", Str(text), k);
    }
  }

  lemma DefaultShapeKeys()
    ensures DistinctKeys(DefaultShapeAttrs)
    ensures forall k :: HasKey(DefaultShapeAttrs, k) <==> IsDefaultShapeKey(k)
  {
    DefaultShapeKeyOrder();
    DefaultShapeKeysDistinct();
  }

  lemma DefaultShapeKeyOrder()
    ensures Keys(DefaultShapeAttrs) == DefaultShapeKeyList
  {
  }

  lemma DefaultShapeKeysDistinct()
    ensures NoDuplicates(DefaultShapeKeyList)
  {
  }

  lemma DefaultShapeReads(a: Attrs, k: string)
    ensures Lookup(Merge(a, DefaultShapeAttrs), k) ==
      if IsDefaultShapeKey(k) then Lookup(DefaultShapeAttrs, k) else Lookup(a, k)
  {
    DefaultShapeKeys();
    MergeReads(a, DefaultShapeAttrs, k);
  }

  /** Without image and shape, the node gets the fallback symbol's seven
      attributes and keeps every other attribute. */
  lemma AddSymbolDefault(n: Node)
    requires Lookup(n.settings, "image") == Undefined && !HasKey(n.settings, "shape")
    ensures AddSymbol(n) == Ok(n.(settings := Merge(n.settings, DefaultShapeAttrs)))
    ensures forall k ::
        Lookup(AddSymbol(n).value.settings, k)
        == (if IsDefaultShapeKey(k) then Lookup(DefaultShapeAttrs, k) else Lookup(n.settings, k))
  {
    forall k ensures Lookup(Merge(n.settings, DefaultShapeAttrs), k)
      == (if IsDefaultShapeKey(k) then Lookup(DefaultShapeAttrs, k) else Lookup(n.settings, k))
    {
      DefaultShapeReads(n.settings, k);
    }
  }

  /** A node without image is settled after one resolution: resolving it
      again changes nothing. */
  lemma AddSymbolSettles(n: Node)
    requires Lookup(n.settings, "image") == Undefined
    ensures AddSymbol(n).Ok? && AddSymbol(AddSymbol(n).value) == AddSymbol(n)
  {
    if !HasKey(n.settings, "shape") {
      var s := Merge(n.settings, DefaultShapeAttrs);
      DefaultShapeImage();
      DefaultShapeReads(n.settings, "image");
      DefaultShapeReads(n.settings, "shape");
      assert Lookup(s, "shape") != Undefined;
    }
  }

  /** The fallback symbol sets a shape and no image. */
  lemma DefaultShapeImage()
    ensures !IsDefaultShapeKey("image") && IsDefaultShapeKey("shape")
    ensures Lookup(DefaultShapeAttrs, "shape") == Str(DefaultShape)
  {
  }

  /** The first index of a node with the given id. */
  function IndexOfNode(ns: seq<Node>, id: Id): Option<nat> {
    IndexOf(NodeIds(ns), id)
  }

  /** `removeNode`'s splice: drops the first node with the id, if any. */
  function RemoveNodeById(ns: seq<Node>, id: Id): (r: seq<Node>)
    ensures id !in NodeIds(ns) ==> r == ns
    ensures id in NodeIds(ns) ==> |r| == |ns| - 1 && NodeIds(r) == RemoveFirst(NodeIds(ns), id)
  {
    match IndexOfNode(ns, id)
    case None => ns
    case Some(i) =>
      var r := RemoveAt(ns, i);
      assert NodeIds(r) == RemoveAt(NodeIds(ns), i);
      r
  }

  /** The two assignments `_changeSymbol` makes before resolving. */
  function Recolor(n: Node, color: Value, shape: Value): Node {
    n.(settings := Assign(Assign(n.settings, "nodeColor", color), "image", shape))
  }

  /** `_changeSymbol` on a node list: the new list and what the call
      returns (`undefined` for an absent id) or the error it throws. A
      throw leaves the two assignments in place. */
  function ChangeSymbolIn(ns: seq<Node>, id: Id, color: Value, shape: Value): (r: (seq<Node>, Result<Value, SymbolError>))
    ensures id !in NodeIds(ns) ==> r == (ns, Ok(Undefined))
    ensures |r.0| == |ns| && NodeIds(r.0) == NodeIds(ns)
  {
    match IndexOfNode(ns, id)
    case None => (ns, Ok(Undefined))
    case Some(i) =>
      var m := Recolor(ns[i], color, shape);
      match AddSymbol(m)
      case Err(e) =>
        NodeIdsUpdate(ns, i, m);
        (ns[i := m], Err(e))
      case Ok(m') =>
        NodeIdsUpdate(ns, i, m');
        (ns[i := m'], Ok(Lookup(m'.settings, "image")))
  }

  /** Changing the symbol of a present node to an image: the first node with
      the id takes the colour and an image whose payload decodes to the
      coloured new image, the call returns that image, and every other node
      is untouched. */
  lemma ChangeSymbolToImage(ns: seq<Node>, id: Id, color: Value, svg: string)
    requires id in NodeIds(ns) && Base64.IsLatin1(ColoredSvg(svg, color))
    ensures IndexOfNode(ns, id).Some?
    ensures
      var after := ChangeSymbolIn(ns, id, color, Str(svg));
      var i := IndexOfNode(ns, id).value;
      && after.1.Ok? && after.1.value == Lookup(after.0[i].settings, "image")
      && Lookup(after.0[i].settings, "nodeColor") == color
      && after.1.value.Str? && |after.1.value.text| >= |DataUriPrefix|
      && Base64.Decode(after.1.value.text[|DataUriPrefix|..]) == Some(ColoredSvg(svg, color))
      && forall j :: 0 <= j < |ns| && j != i ==> after.0[j] == ns[j]
  {
    var i := IndexOfNode(ns, id).value;
    var m := Recolor(ns[i], color, Str(svg));
    var withColor := Assign(ns[i].settings, "nodeColor", color);
    AssignReads(withColor, "image", Str(svg), "image");
    AssignReads(withColor, "image", Str(svg), "nodeColor");
    AssignReads(ns[i].settings, "nodeColor", color, "nodeColor");
    assert Lookup(m.settings, "image") == Str(svg);
    assert Lookup(m.settings, "nodeColor") == color;
    AddSymbolFails(m);
    AddSymbolImage(m);
  }

  /** The node list after `setNodes` with resolution `f`: each node
      resolved and appended in order until the first resolution that throws;
      the error, if any. */
  function ResolveWith(f: Node -> Result<Node, SymbolError>, ns: seq<Node>): (r: (seq<Node>, Option<SymbolError>))
    ensures |r.0| <= |ns|
    ensures r.1.None? ==> |r.0| == |ns|
    decreases |ns|
  {
    if ns == [] then ([], None)
    else
      var p := ResolveWith(f, ns[..|ns| - 1]);
      if p.1.Some? then p
      else
        match f(ns[|ns| - 1])
        case Err(e) => (p.0, Some(e))
        case Ok(m) => (p.0 + [m], None)
  }

  /** `setNodes`: resolution by `_addSymbol`. */
  function ResolveAll(ns: seq<Node>): (seq<Node>, Option<SymbolError>) {
    ResolveWith(AddSymbol, ns)
  }

  /** The nodes `setNodes` adds are the resolutions of a prefix of its
      input, in order. */
  lemma {:induction false} ResolveWithResolves(f: Node -> Result<Node, SymbolError>, ns: seq<Node>, i: nat)
    requires i < |ResolveWith(f, ns).0|
    ensures f(ns[i]) == Ok(ResolveWith(f, ns).0[i])
    decreases |ns|
  {
    var init := ns[..|ns| - 1];
    var p := ResolveWith(f, init);
    if i < |p.0| {
      ResolveWithResolves(f, init, i);
      assert init[i] == ns[i];
    }
  }

  /** `setNodes` stops at the first node whose resolution throws: every
      node before it resolved, and a run without error resolved them all. */
  lemma {:induction false} ResolveWithStops(f: Node -> Result<Node, SymbolError>, ns: seq<Node>)
    ensures ResolveWith(f, ns).1.Some? ==> f(ns[|ResolveWith(f, ns).0|]).Err?
    ensures ResolveWith(f, ns).1.None? ==> forall i :: 0 <= i < |ns| ==> f(ns[i]).Ok?
    decreases |ns|
  {
    if ns != [] {
      var init := ns[..|ns| - 1];
      ResolveWithStops(f, init);
      var p := ResolveWith(f, init);
      if p.1.Some? {
        assert init[|p.0|] == ns[|p.0|];
      } else {
        assert forall i :: 0 <= i < |init| ==> init[i] == ns[i];
      }
    }
  }

  /** Once a prefix has failed, the whole list fails with the same result. */
  lemma {:induction false} ResolveWithPrefix(f: Node -> Result<Node, SymbolError>, ns: seq<Node>, k: nat)
    requires k <= |ns| && ResolveWith(f, ns[..k]).1.Some?
    ensures ResolveWith(f, ns) == ResolveWith(f, ns[..k])
    decreases |ns|
  {
    if k == |ns| {
      assert ns[..k] == ns;
    } else {
      var init := ns[..|ns| - 1];
      assert init[..k] == ns[..k];
      ResolveWithPrefix(f, init, k);
    }
  }

  /** One more node for `setNodes` while nothing has thrown. */
  lemma ResolveStep(ns: seq<Node>, i: nat)
    requires i < |ns| && ResolveAll(ns[..i]).1.None?
    ensures ResolveAll(ns[..i + 1]) == match AddSymbol(ns[i])
      case Err(e) => (ResolveAll(ns[..i]).0, Some(e))
      case Ok(m) => (ResolveAll(ns[..i]).0 + [m], None)
  {
    assert ns[..i + 1][..i] == ns[..i];
  }

  /** `setNodes`'s `forEach`: each node resolved in turn until the first
      resolution that throws. */
  method ResolveNodes(ns: seq<Node>) returns (resolved: seq<Node>, failed: Option<SymbolError>)
    ensures (resolved, failed) == ResolveAll(ns)
  {
    resolved, failed := [], None;
    var i := 0;
    while i < |ns| && failed.None?
      invariant 0 <= i <= |ns|
      invariant (resolved, failed) == ResolveAll(ns[..i])
    {
      ResolveStep(ns, i);
      var r := AddSymbol(ns[i]);
      if r.Err? {
        failed := Some(r.error);
      } else {
        resolved := resolved + [r.value];
      }
      i := i + 1;
    }
    if i < |ns| {
      ResolveWithPrefix(AddSymbol, ns, i);
    } else {
      assert ns[..i] == ns;
    }
  }

  class Cluster {
    /** The cluster's name: the grouping value of its nodes, possibly
        `undefined`. */
    const name: Value
    var clusterSetting: Attrs
    var nodeSettings: Attrs
    var nodes: seq<Node>

    constructor (name: Value)
      ensures this.name == name && clusterSetting == [] && nodeSettings == [] && nodes == []
    {
      this.name := name;
      clusterSetting := [];
      nodeSettings := [];
      nodes := [];
    }

    /** `setNodeSettings`: the given attributes are merged in. */
    method SetNodeSettings(settings: Attrs)
      modifies this
      ensures nodeSettings == Merge(old(nodeSettings), settings)
      ensures clusterSetting == old(clusterSetting) && nodes == old(nodes)
    {
      nodeSettings := MergeSettings(nodeSettings, settings);
    }

    /** `setClusterSettings`: the given attributes are merged in. */
    method SetClusterSettings(settings: Attrs)
      modifies this
      ensures clusterSetting == Merge(old(clusterSetting), settings)
      ensures nodeSettings == old(nodeSettings) && nodes == old(nodes)
    {
      clusterSetting := MergeSettings(clusterSetting, settings);
    }

    /** `removeNode`: the first node with the id goes, if there is one. */
    method RemoveNode(id: Id)
      modifies this
      ensures nodes == RemoveNodeById(old(nodes), id)
      ensures clusterSetting == old(clusterSetting) && nodeSettings == old(nodeSettings)
    {
      var index := IndexOfNode(nodes, id);
      if index.Some? {
        nodes := RemoveAt(nodes, index.value);
      }
    }

    /** `hasNode`. */
    predicate HasNode(id: Id)
      reads this
      ensures HasNode(id) <==> exists i :: 0 <= i < |nodes| && nodes[i].id == id
    {
      id in NodeIds(nodes)
    }

    /** `_changeSymbol`. */
    method ChangeSymbol(id: Id, color: Value, shape: Value) returns (r: Result<Value, SymbolError>)
      modifies this
      ensures (nodes, r) == ChangeSymbolIn(old(nodes), id, color, shape)
      ensures clusterSetting == old(clusterSetting) && nodeSettings == old(nodeSettings)
    {
      var index := IndexOfNode(nodes, id);
      if index.None? {
        return Ok(Undefined);
      }
      var i := index.value;
      var recolored := Recolor(nodes[i], color, shape);
      var resolved := AddSymbol(recolored);
      ghost var expected := ChangeSymbolIn(nodes, id, color, shape);
      if resolved.Err? {
        nodes := nodes[i := recolored];
        r := Err(resolved.error);
      } else {
        nodes := nodes[i := resolved.value];
        r := Ok(Lookup(resolved.value.settings, "image"));
      }
      assert expected == (nodes, r);
    }

    /** `addNode`: the resolved node is appended and returned; a throwing
        resolution leaves the cluster as it was. */
    method AddNode(node: Node) returns (r: Result<Node, SymbolError>)
      modifies this
      ensures r == AddSymbol(node)
      ensures r.Ok? ==> nodes == old(nodes) + [r.value]
      ensures r.Err? ==> nodes == old(nodes)
      ensures clusterSetting == old(clusterSetting) && nodeSettings == old(nodeSettings)
    {
      r := AddSymbol(node);
      if r.Ok? {
        nodes := nodes + [r.value];
      }
    }

    /** `setNodes`: `addNode` for each node in order; the first throw ends
        the loop with the nodes before it added. */
    method SetNodes(ns: seq<Node>) returns (failed: Option<SymbolError>)
      modifies this
      ensures nodes == old(nodes) + ResolveAll(ns).0 && failed == ResolveAll(ns).1
      ensures clusterSetting == old(clusterSetting) && nodeSettings == old(nodeSettings)
    {
      var resolved;
      resolved, failed := ResolveNodes(ns);
      nodes := nodes + resolved;
    }
  }
}
