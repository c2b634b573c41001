/** The Graphviz DOT text the graph engine renders: graph, node and edge
    attribute lines, one `subgraph` per named cluster, one line per edge
    with edges between the same two endpoints merged into one, and a rank
    line per origin node. Everything here is a function of the engine's
    state; the engine builds the same text with loops. */
module DotWriter {
  import opened Wrappers
  import opened Strings
  import opened Attributes
  import opened Seqs
  import opened Graph
  import opened Groups

  // ---------------------------------------------------------------------
  // Cluster names

  /** The letters and digits of `s`, in order: `s.replace(/[^A-Z0-9]+/ig, "")`. */
  function AlnumOnly(s: string): (r: string)
    ensures |r| <= |s|
    ensures forall i :: 0 <= i < |r| ==> IsAsciiLetterOrDigit(r[i])
    decreases |s|
  {
    if s == [] then ""
    else (if IsAsciiLetterOrDigit(s[0]) then [s[0]] else "") + AlnumOnly(s[1..])
  }

  /** Filtering distributes over concatenation, so the letters and digits
      keep their input order and nothing else survives. */
  lemma {:induction false} AlnumOnlyConcat(a: string, b: string)
    ensures AlnumOnly(a + b) == AlnumOnly(a) + AlnumOnly(b)
    decreases |a|
  {
    if a != [] {
      assert (a + b)[1..] == a[1..] + b;
      AlnumOnlyConcat(a[1..], b);
    } else {
      assert a + b == b;
    }
  }

  /** A name made of letters and digits only is left as it is. */
  lemma {:induction false} AlnumOnlyKeeps(s: string)
    requires forall i :: 0 <= i < |s| ==> IsAsciiLetterOrDigit(s[i])
    ensures AlnumOnly(s) == s
    decreases |s|
  {
    if s != [] {
      AlnumOnlyKeeps(s[1..]);
    }
  }

  /** `_prepareClusterName`: `undefined` stays `undefined`, a name keeps
      only its ASCII letters and digits. */
  function PrepareClusterName(v: Value): (r: Value)
    ensures r.Undefined? <==> v.Undefined?
    ensures r.Str? ==> forall i :: 0 <= i < |r.text| ==> IsAsciiLetterOrDigit(r.text[i])
  {
    match v
    case Undefined => Undefined
    case Str(t) => Str(AlnumOnly(t))
  }

  /** Sanitising twice is sanitising once. */
  lemma PrepareClusterNameIdempotent(v: Value)
    ensures PrepareClusterName(PrepareClusterName(v)) == PrepareClusterName(v)
  {
    if v.Str? {
      AlnumOnlyKeeps(AlnumOnly(v.text));
    }
  }

  // ---------------------------------------------------------------------
  // Attribute lists

  /** `key + ' = "' + value + '"' + close`. */
  function Entry(key: string, v: Value, close: string): string {
    key + " = \"" + Render(v) + "\"" + close
  }

  /** One entry per key of `a`, in key order. */
  function Entries(a: Attrs, close: string): string
    decreases |a|
  {
    if a == [] then ""
    else Entries(a[..|a| - 1], close) + Entry(a[|a| - 1].0, a[|a| - 1].1, close)
  }

  /** The three attribute lines for the whole graph, its nodes and its edges. */
  function Header(graphSettings: Attrs, nodeSettings: Attrs, edgeSettings: Attrs): string {
    "graph [ " + Entries(graphSettings, ", ") + " ]\n"
    + "node [ " + Entries(nodeSettings, ", ") + " ]\n"
    + "edge [ " + Entries(edgeSettings, ", ") + " ]\n"
  }

  /** The empty tooltip Graphviz shows when the default tooltip is off. */
  function Tooltip(showDefaultTooltip: bool): string {
    if showDefaultTooltip then "" else "tooltip=\" \""
  }

  // ---------------------------------------------------------------------
  // Nodes and clusters

  /** A node's line; parent nodes carry `class = "parent"`. */
  function NodeLine(n: Node, parentIds: seq<Id>): string {
    n.id + " [" + (if n.id in parentIds then " class = \"parent\", " else "")
    + Entries(n.settings, ", ") + "]\n"
  }

  function NodesText(ns: seq<Node>, parentIds: seq<Id>): string
    decreases |ns|
  {
    if ns == [] then ""
    else NodesText(ns[..|ns| - 1], parentIds) + NodeLine(ns[|ns| - 1], parentIds)
  }

  /** The ids of the origin nodes, in node order. */
  function OriginIds(ns: seq<Node>): (r: seq<Id>)
    ensures |r| <= |ns|
    ensures forall x :: x in r <==> exists i :: 0 <= i < |ns| && ns[i].origin && ns[i].id == x
    decreases |ns|
  {
    if ns == [] then []
    else
      var init := OriginIds(ns[..|ns| - 1]);
      assert forall i :: 0 <= i < |ns| - 1 ==> ns[..|ns| - 1][i] == ns[i];
      if ns[|ns| - 1].origin then init + [ns[|ns| - 1].id] else init
  }

  /** What the serialiser reads of a cluster. */
  datatype ClusterView = ClusterView(name: Value, clusterSetting: Attrs, nodeSettings: Attrs, nodes: seq<Node>)

  /** A cluster's text: a `subgraph` when it has a name, its bare node
      lines when its name is `undefined`. */
  function ClusterText(c: ClusterView, parentIds: seq<Id>, showDefaultTooltip: bool): string {
    var nodeString := NodesText(c.nodes, parentIds);
    if c.name.Undefined? then nodeString
    else
      "subgraph cluster_" + Render(PrepareClusterName(c.name)) + "{\n"
      + Entries(c.clusterSetting, "\n")
      + "node [" + Entries(c.nodeSettings, ", ") + Tooltip(showDefaultTooltip) + " ];\n"
      + nodeString + "}\n"
  }

  function ClustersText(cs: seq<ClusterView>, parentIds: seq<Id>, showDefaultTooltip: bool): string
    decreases |cs|
  {
    if cs == [] then ""
    else
      ClustersText(cs[..|cs| - 1], parentIds, showDefaultTooltip)
      + ClusterText(cs[|cs| - 1], parentIds, showDefaultTooltip)
  }

  /** The origin ids over all clusters, named or not, in cluster order. */
  function ClusterOrigins(cs: seq<ClusterView>): seq<Id>
    decreases |cs|
  {
    if cs == [] then [] else ClusterOrigins(cs[..|cs| - 1]) + OriginIds(cs[|cs| - 1].nodes)
  }

  /** Visiting one more cluster appends its text and its origins. */
  lemma ClustersStep(vs: seq<ClusterView>, i: nat, parentIds: seq<Id>, showDefaultTooltip: bool)
    requires i < |vs|
    ensures ClustersText(vs[..i + 1], parentIds, showDefaultTooltip)
      == ClustersText(vs[..i], parentIds, showDefaultTooltip) + ClusterText(vs[i], parentIds, showDefaultTooltip)
    ensures ClusterOrigins(vs[..i + 1]) == ClusterOrigins(vs[..i]) + OriginIds(vs[i].nodes)
  {
    assert vs[..i + 1][..i] == vs[..i];
  }

  /** Every origin node of every cluster gets a rank line, and nothing else
      does. */
  lemma {:induction false} ClusterOriginsAreOrigins(cs: seq<ClusterView>, x: Id)
    ensures x in ClusterOrigins(cs) <==>
      exists c, i :: c in cs && 0 <= i < |c.nodes| && c.nodes[i].origin && c.nodes[i].id == x
    decreases |cs|
  {
    if cs != [] {
      var init := cs[..|cs| - 1];
      ClusterOriginsAreOrigins(init, x);
      assert forall c :: c in cs <==> c in init || c == cs[|cs| - 1];
    }
  }

  /** `{rank=source; id}` for each origin id. */
  function RankLines(ids: seq<Id>): string
    decreases |ids|
  {
    if ids == [] then ""
    else RankLines(ids[..|ids| - 1]) + "{rank=source; " + ids[|ids| - 1] + "}\n"
  }

  // ---------------------------------------------------------------------
  // Duplicate edges

  /** `'' + edge.source + ',' + edge.target`: the text edges are grouped by. */
  function EdgeKey(e: Edge): string {
    Render(e.source) + "," + Render(e.target)
  }

  function EdgeKeys(es: seq<Edge>): (r: seq<string>)
    ensures |r| == |es|
    ensures forall i :: 0 <= i < |es| ==> r[i] == EdgeKey(es[i])
  {
    if es == [] then [] else [EdgeKey(es[0])] + EdgeKeys(es[1..])
  }

  /** Grouping by the text is grouping by the endpoints when no endpoint
      contains a comma. */
  lemma EdgeKeyPair(a: Edge, b: Edge)
    requires ',' !in Render(a.source) && ',' !in Render(a.target)
    requires ',' !in Render(b.source) && ',' !in Render(b.target)
    ensures EdgeKey(a) == EdgeKey(b) <==>
      Render(a.source) == Render(b.source) && Render(a.target) == Render(b.target)
  {
    var pa, pb := [Render(a.source), Render(a.target)], [Render(b.source), Render(b.target)];
    assert Join(pa, ',') == EdgeKey(a);
    assert Join(pb, ',') == EdgeKey(b);
    SplitJoin(pa, ',');
    SplitJoin(pb, ',');
  }

  /** `_getDuplicateEdges`: for each group of two or more edges joining the
      same endpoints, the id of its first edge maps to the ids of all. */
  function Duplicates(es: seq<Edge>): map<Value, seq<Value>> {
    DuplicatesUpTo(EdgeKeys(es), EdgeIds(es), |es|)
  }

  /** Every edge has an id and no two edges share one. */
  predicate UniqueIds(es: seq<Edge>) {
    (forall i :: 0 <= i < |es| ==> HasKey(es[i].settings, "id") && DistinctKeys(es[i].settings))
    && NoDuplicates(EdgeIds(es))
  }

  /** With unique ids, an edge's id is a key of the duplicate map exactly
      when the edge is the first of two or more joining the same endpoints,
      and then maps to the ids of all of them in edge order. */
  lemma DuplicatesOfEdge(es: seq<Edge>, n: nat)
    requires n < |es| && UniqueIds(es)
    ensures EdgeId(es[n]) in Duplicates(es) <==> Head(EdgeKeys(es), n)
    ensures Head(EdgeKeys(es), n) ==>
      Duplicates(es)[EdgeId(es[n])] == Pick(EdgeIds(es), Group(EdgeKeys(es), n))
  {
    DuplicatesAt(EdgeKeys(es), EdgeIds(es), n);
  }


  // ---------------------------------------------------------------------
  // Edge lines

  /** An array element as `join` writes it: `undefined` becomes "". */
  function JoinText(v: Value): string {
    match v
    case Str(t) => t
    case Undefined => ""
  }

  function JoinTexts(vs: seq<Value>): (r: seq<string>)
    ensures |r| == |vs| && forall k :: 0 <= k < |vs| ==> r[k] == JoinText(vs[k])
  {
    if vs == [] then [] else [JoinText(vs[0])] + JoinTexts(vs[1..])
  }

  /** `'' + ids`: an array of ids coerced to text, comma-separated. */
  function JoinValues(vs: seq<Value>): string {
    Join(JoinTexts(vs), ',')
  }

  /** The info box splits a merged id at the commas and gets the group's
      ids back, provided no id contains a comma. */
  lemma MergedIdSplits(vs: seq<Value>)
    requires |vs| >= 1
    requires forall k :: 0 <= k < |vs| ==> vs[k].Str? && ',' !in vs[k].text
    ensures Split(JoinValues(vs), ',') == JoinTexts(vs)
    ensures forall k :: 0 <= k < |vs| ==> Split(JoinValues(vs), ',')[k] == vs[k].text
  {
    SplitJoin(JoinTexts(vs), ',');
  }

  /** The text one edge attribute contributes: the (possibly merged) id,
      `style="dashed"` for a conditional type, other attributes as they
      are, and nothing for any other type. */
  function EdgeSettingText(key: string, v: Value, dups: map<Value, seq<Value>>): string {
    (if key == "id" then
       (if v in dups then "id =\"" + JoinValues(dups[v]) + "\", " else Entry(key, v, ", "))
     else "")
    + (if key == "type" && v == Str("conditional") then "style=\"dashed\""
       else if key != "id" && key != "type" then Entry(key, v, ", ")
       else "")
  }

  function EdgeSettingsText(a: Attrs, dups: map<Value, seq<Value>>): string
    decreases |a|
  {
    if a == [] then ""
    else EdgeSettingsText(a[..|a| - 1], dups) + EdgeSettingText(a[|a| - 1].0, a[|a| - 1].1, dups)
  }

  /** The ids an emitted edge adds to the skip list: its merged group. */
  function SkipAdds(a: Attrs, dups: map<Value, seq<Value>>): seq<Value>
    decreases |a|
  {
    if a == [] then []
    else
      var last := a[|a| - 1];
      SkipAdds(a[..|a| - 1], dups) + (if last.0 == "id" && last.1 in dups then dups[last.1] else [])
  }

  /** With distinct keys, the skip list gains exactly the group of the
      edge's own id. */
  lemma {:induction false} SkipAddsOwnId(a: Attrs, dups: map<Value, seq<Value>>)
    requires DistinctKeys(a)
    ensures SkipAdds(a, dups) == if HasKey(a, "id") && Lookup(a, "id") in dups then dups[Lookup(a, "id")] else []
    decreases |a|
  {
    if a != [] {
      var init, last := a[..|a| - 1], a[|a| - 1];
      assert a == init + [last];
      AppendKeys(init, last);
      assert DistinctKeys(init);
      SkipAddsOwnId(init, dups);
      LookupAppend(init, last, "id");
    }
  }

  function EdgeLine(e: Edge, dups: map<Value, seq<Value>>, showDefaultTooltip: bool): string {
    Render(e.source) + " -> " + Render(e.target) + " ["
    + EdgeSettingsText(e.settings, dups) + Tooltip(showDefaultTooltip) + " ];\n"
  }

  /** The settings of an edge as the viewer builds it, `{type, id}`: a
      dashed style for a conditional edge and nothing for any other type,
      then the merged ids when the edge heads a group or its own id
      otherwise. */
  lemma ViewerEdgeSettings(kind: Value, id: Value, dups: map<Value, seq<Value>>)
    ensures EdgeSettingsText([("type", kind), ("id", id)], dups)
      == (if kind == Str("conditional") then "style=\"dashed\"" else "")
         + (if id in dups then "id =\"" + JoinValues(dups[id]) + "\", " else Entry("id", id, ", "))
  {
    EdgeSettingsTwo(("type", kind), ("id", id), dups);
    assert "type" != "id";
  }

  lemma EdgeSettingsTwo(x: (string, Value), y: (string, Value), dups: map<Value, seq<Value>>)
    ensures EdgeSettingsText([x, y], dups) == EdgeSettingText(x.0, x.1, dups) + EdgeSettingText(y.0, y.1, dups)
  {
    var a: Attrs := [x, y];
    assert a[..1] == [x];
    assert a[..1][..0] == [];
    var t := EdgeSettingText(x.0, x.1, dups);
    assert EdgeSettingsText([x], dups) == "" + t == t;
  }

  /** The edge text and the skip list after visiting edges in order: a
      skipped edge adds nothing; an emitted one adds its line and its
      merged group to the skip list. */
  datatype EdgePass = EdgePass(text: string, skip: seq<Value>)

  function PassEdges(es: seq<Edge>, dups: map<Value, seq<Value>>, showDefaultTooltip: bool): EdgePass
    decreases |es|
  {
    if es == [] then EdgePass("", [])
    else
      var p := PassEdges(es[..|es| - 1], dups, showDefaultTooltip);
      var e := es[|es| - 1];
      if EdgeId(e) in p.skip then p
      else EdgePass(p.text + EdgeLine(e, dups, showDefaultTooltip), p.skip + SkipAdds(e.settings, dups))
  }


  /** With unique ids, the skip list after `n` edges holds the ids of every
      group of two or more whose first edge is among them. */
  lemma PassEdgesSkip(es: seq<Edge>, n: nat, show: bool)
    requires n <= |es| && UniqueIds(es)
    ensures PassEdges(es[..n], Duplicates(es), show).skip == SkipUpTo(EdgeKeys(es), EdgeIds(es), n)
  {
    var keys, ids := EdgeKeys(es), EdgeIds(es);
    forall i | 0 <= i < |es|
      ensures ids[i] in Duplicates(es) <==> Head(keys, i)
      ensures Head(keys, i) ==> Duplicates(es)[ids[i]] == Pick(ids, Group(keys, i))
    {
      DuplicatesOfEdge(es, i);
    }
    PassSkip(es, keys, ids, Duplicates(es), n, show);
  }

  /** The skip list after `n` edges, for any duplicate map that holds, under
      each edge's id, its group when the edge heads one and nothing
      otherwise. */
  lemma {:induction false} PassSkip(es: seq<Edge>, keys: seq<string>, ids: seq<Value>, dups: map<Value, seq<Value>>, n: nat, show: bool)
    requires n <= |es| == |keys| == |ids| && NoDuplicates(ids)
    requires forall i :: 0 <= i < |es| ==> ids[i] == EdgeId(es[i]) && HasKey(es[i].settings, "id") && DistinctKeys(es[i].settings)
    requires forall i :: 0 <= i < |keys| ==> (ids[i] in dups <==> Head(keys, i))
    requires forall i :: 0 <= i < |keys| && Head(keys, i) ==> dups[ids[i]] == Pick(ids, Group(keys, i))
    ensures PassEdges(es[..n], dups, show).skip == SkipUpTo(keys, ids, n)
    decreases n
  {
    if n > 0 {
      PassSkip(es, keys, ids, dups, n - 1, show);
      PassSkipStep(es, keys, ids, dups, n, show);
    }
  }

  lemma PassSkipStep(es: seq<Edge>, keys: seq<string>, ids: seq<Value>, dups: map<Value, seq<Value>>, n: nat, show: bool)
    requires 0 < n <= |es| == |keys| == |ids| && NoDuplicates(ids)
    requires ids[n - 1] == EdgeId(es[n - 1]) && DistinctKeys(es[n - 1].settings) && HasKey(es[n - 1].settings, "id")
    requires ids[n - 1] in dups <==> Head(keys, n - 1)
    requires Head(keys, n - 1) ==> dups[ids[n - 1]] == Pick(ids, Group(keys, n - 1))
    requires PassEdges(es[..n - 1], dups, show).skip == SkipUpTo(keys, ids, n - 1)
    ensures PassEdges(es[..n], dups, show).skip == SkipUpTo(keys, ids, n)
  {
    var e := es[n - 1];
    var p := PassEdges(es[..n - 1], dups, show).skip;
    PrefixOfPrefix(es, n, n - 1);
    PassEdgesLast(es[..n], dups, show);
    SkipAddsOwnId(e.settings, dups);
    SkipStep(keys, ids, n, p, SkipAdds(e.settings, dups), PassEdges(es[..n], dups, show).skip);
  }

  /** One more edge: skipped when its id is listed, written otherwise. */
  lemma PassEdgesStep(es: seq<Edge>, i: nat, dups: map<Value, seq<Value>>, show: bool)
    requires i < |es|
    ensures var p := PassEdges(es[..i], dups, show);
      PassEdges(es[..i + 1], dups, show)
        == if EdgeId(es[i]) in p.skip then p
           else EdgePass(p.text + EdgeLine(es[i], dups, show), p.skip + SkipAdds(es[i].settings, dups))
  {
    PrefixOfPrefix(es, i + 1, i);
  }

  lemma PassEdgesLast(es: seq<Edge>, dups: map<Value, seq<Value>>, show: bool)
    requires |es| > 0
    ensures var p := PassEdges(es[..|es| - 1], dups, show).skip;
      PassEdges(es, dups, show).skip
        == if EdgeId(es[|es| - 1]) in p then p else p + SkipAdds(es[|es| - 1].settings, dups)
  {
  }

  /** With unique ids, an edge is written exactly when no earlier edge joins
      the same endpoints: one line per group, the rest suppressed. */
  lemma EdgeSuppression(es: seq<Edge>, n: nat, show: bool)
    requires n < |es| && UniqueIds(es)
    ensures EdgeId(es[n]) !in PassEdges(es[..n], Duplicates(es), show).skip <==>
      forall j :: 0 <= j < n ==> EdgeKey(es[j]) != EdgeKey(es[n])
  {
    PassEdgesSkip(es, n, show);
    SkipUpToOwnId(EdgeKeys(es), EdgeIds(es), n);
  }


  // ---------------------------------------------------------------------
  // The whole text

  /** What the serialiser reads of the engine's state. */
  datatype DotState = DotState(
    graphSettings: Attrs, nodeSettings: Attrs, edgeSettings: Attrs,
    clusters: seq<ClusterView>, edges: seq<Edge>, parentIds: seq<Id>,
    showDefaultTooltip: bool)

  function Body(s: DotState): string {
    Header(s.graphSettings, s.nodeSettings, s.edgeSettings)
    + ClustersText(s.clusters, s.parentIds, s.showDefaultTooltip)
    + PassEdges(s.edges, Duplicates(s.edges), s.showDefaultTooltip).text
    + RankLines(ClusterOrigins(s.clusters))
  }

  /** `_updateDotString`: the body inside the `digraph` boilerplate. */
  function Dot(s: DotState): (r: string)
    ensures |r| >= 14
    ensures r[..11] == "digraph G{\n" && r[|r| - 3..] == "\n}\n"
  {
    "digraph G{\n" + Body(s) + "\n}\n"
  }
}
