# HDVis graph state and DOT engine, in Dafny

HDVis shows health-data scenarios as directed graphs. The back end reads a
graph database and serves scenarios, node hierarchies and node creation.
The front end turns a scenario into engine state and writes that state as
Graphviz DOT text. Parents can be expanded into their children and
collapsed back.

This project models the core of that system and proves properties of it.

- **The DOT engine** (`DotHandler` and `Cluster` in `frontend/dotHandler.js`):
  - attribute merging;
  - symbol resolution (trim, `fill="none"` removal, colour insertion, then
    `btoa` into a `data:` URL);
  - the node, parent and image registries;
  - node removal and edge removal by node;
  - the duplicate-edge map;
  - the whole DOT text of `_updateDotString`.
- **The scenario viewer** (`frontend/script.js`):
  - the four hierarchy maps and the root computation;
  - the initial node selection per cluster;
  - edge rerouting in collapsed mode;
  - `expand` and `collapse` with their ancestor walks;
  - `isChild` and the colour assignment of `getColor`.
- **`scenarioToD3`** (`frontend/databaseService.js`).
- **The back end**:
  - from `NodeEndpoint.java`: label validation for node creation, the input
    check of `addNode`, the parent→descendants fold, the identity taken from
    an element id, and `getDirectParent`;
  - from `ScenarioEndpoint.java`: `orderLabels` and `getAllByScenario`.

The engine, a cluster and the viewer are classes whose fields the methods
update in place. Nodes, edges, data records and attribute objects are
values:
- JavaScript objects become association lists in insertion order;
- a property is a string or `undefined`.

Each method states the new state as functions of the old one: the edges,
the clusters and their contents (settings and nodes with their labels,
images and colours), the registries (node ids, parent ids and saved
images), the settings and DOT text, and the palette. A method that
can fail part-way also states what each error leaves, except for the
partial states listed under "Left out". The promises of the source are
lemmas about those functions. Examples:
- an edge is written exactly when no earlier edge joins the same ends;
- a symbol's payload decodes back to the coloured image;
- expand's endless ancestor walk fails exactly when no ancestor is ever
  visible.

Loading is specified by two functions:
- `Viewer.GroupCluster` gives one group's cluster view, the palette after
  its colours are assigned, and the first symbol error its nodes meet;
- `Viewer.Filled` folds it over the groups in turn and stops at the first
  throw, keeping that group's palette.

Modules, one per file: `Wrappers`, `Seqs`, `Strings`, `Attributes`,
`Base64`, `Graph`, `Groups`, `Multimap`, `Entities`, `Colors`, `Clusters`,
`DotWriter`, `Handler`, `Hierarchy`, `DatabaseService`, `NodeEndpoint`,
`ScenarioEndpoint`, `Viewer`.

## Model

| member | source | states |
|---|---|---|
| Attributes.MergeSettings | frontend/dotHandler.js:125-151 | the `for...in` copy loop of the three `set*Settings` yields the merge of the new settings into the old |
| Attributes.MergeLookup | frontend/dotHandler.js:125-151 | after a merge a key reads the new value when the new settings have it and the old value otherwise; keys stay distinct |
| Attributes.AssignLookup | frontend/dotHandler.js:579-580 | after `obj[k] = v` the key reads `v`, every other key reads what it read before, and keys stay distinct |
| Attributes.AssignKeys | frontend/dotHandler.js:579-580 | an assignment keeps the key order, and a new key goes at the end |
| Attributes.Lookup | frontend/dotHandler.js:607 | reading a missing key gives `undefined` |
| Base64.Btoa | frontend/dotHandler.js:615 | `btoa` is defined exactly on strings whose characters are all below U+0100 |
| Base64.EncodeLength | frontend/dotHandler.js:615 | the encoding has four characters for every three input characters, rounded up |
| Base64.DecodeEncode | frontend/dotHandler.js:615 | decoding the base64 encoding (RFC 4648 section 4) of a Latin-1 string gives the string back |
| Base64.BtoaDecodes | frontend/dotHandler.js:615 | `btoa`'s result decodes to its input and has the encoded length |
| Strings.FindFirst | frontend/dotHandler.js:614 | the index found holds the pattern and no earlier index does; no index is found only when the pattern occurs nowhere |
| Strings.ReplaceFirst | frontend/dotHandler.js:614 | `replace` with a string pattern replaces only the first occurrence, and leaves the text unchanged without one |
| Strings.RemoveAllShrinks | frontend/dotHandler.js:612 | `replaceAll(pat, '')` never lengthens the text, removes only characters, and is the identity when the pattern does not occur |
| Strings.TrimStart | frontend/dotHandler.js:612 | the result is a suffix that starts with non-whitespace, and everything cut is JavaScript whitespace |
| Strings.TrimEnd | frontend/dotHandler.js:612 | the result is a prefix that ends with non-whitespace, and everything cut is JavaScript whitespace |
| Strings.SplitJoin | backend/src/main/java/backend/endpoint/NodeEndpoint.java:330 | splitting parts joined with a separator they do not contain gives the parts back |
| Entities.LabelEnumsDisjoint | backend/src/main/java/backend/entity/NodeObject.java:36-56 | no label is a constant of both label enums |
| Entities.LabelsColonFree | backend/src/main/java/backend/entity/NodeObject.java:36-56 | no enum constant contains a colon |
| Clusters.AddSymbol | frontend/dotHandler.js:606-628 | resolution keeps the node's id, type, parent and origin flags, and cannot fail for a node without image |
| Clusters.AddSymbolFails | frontend/dotHandler.js:606-628 | resolution throws exactly when the node has an image whose cleaned and coloured text holds a character above U+00FF |
| Clusters.AddSymbolImage | frontend/dotHandler.js:607-615 | the new image is the SVG data-URL prefix and a payload that decodes to the trimmed, `fill="none"`-free image with the fill colour inserted; no other attribute changes |
| Clusters.AddSymbolDefault | frontend/dotHandler.js:616-625 | a node with neither image nor shape gets the seven fallback attributes and keeps every other attribute |
| Clusters.AddSymbolSettles | frontend/dotHandler.js:606-628 | a node without image is settled: resolving it again changes nothing |
| Clusters.RemoveNodeById | frontend/dotHandler.js:558-563 | a missing id leaves the list unchanged; otherwise the list is one shorter and its ids lose the first occurrence of the id |
| Clusters.ChangeSymbolIn | frontend/dotHandler.js:575-584 | an absent id changes nothing and returns `undefined`; node count and node ids never change |
| Clusters.ChangeSymbolToImage | frontend/dotHandler.js:575-584 | changing a present node's symbol to an image gives it the colour and an image decoding to the coloured new image, returns that image, and leaves every other node alone |
| Clusters.ResolveWithResolves | frontend/dotHandler.js:649-654 | the nodes `setNodes` adds are the resolutions of a prefix of its input, in order |
| Clusters.ResolveWithStops | frontend/dotHandler.js:649-654 | `setNodes` stops at the first node whose resolution throws; without a throw every node was resolved |
| Clusters.ResolveNodes | frontend/dotHandler.js:649-654 | the `forEach` loop computes that prefix and the error |
| Clusters.Cluster.constructor | frontend/dotHandler.js:527-529 | a new cluster has the name and empty settings and nodes |
| Clusters.Cluster.SetNodeSettings | frontend/dotHandler.js:536-541 | the node settings become the merge, and nothing else changes |
| Clusters.Cluster.SetClusterSettings | frontend/dotHandler.js:547-551 | the cluster settings become the merge, and nothing else changes |
| Clusters.Cluster.RemoveNode | frontend/dotHandler.js:558-563 | the first node with the id goes, if there is one |
| Clusters.Cluster.HasNode | frontend/dotHandler.js:594-596 | true exactly when some node has the id |
| Clusters.Cluster.ChangeSymbol | frontend/dotHandler.js:575-584 | the node list and result are those of `ChangeSymbolIn`; a throw leaves the two assignments in place |
| Clusters.Cluster.AddNode | frontend/dotHandler.js:638-642 | the resolved node is appended and returned; a throwing resolution appends nothing |
| Clusters.Cluster.SetNodes | frontend/dotHandler.js:649-654 | the nodes resolved before the first throw are appended, and that throw is reported |
| Colors.ColorRepeat | frontend/script.js:575-598 | asking again for a key gives the same colour and assigns nothing new |
| Colors.AssignColorNew | frontend/script.js:575-598 | a new key takes a colour from the configured set and is the one key added |
| Colors.AssignColorRest | frontend/script.js:575-598 | the queue stays what is left of the configured set, refilled when empty |
| Colors.ColorFromSet | frontend/script.js:575-598 | the queue stays a rest of the set, a new key gets a configured colour, and every assigned key keeps its colour |
| DatabaseService.EndpointsAt | frontend/databaseService.js:32-57 | record `i` contributes its source, then its target |
| DatabaseService.FirstOccurrencesDistinct | frontend/databaseService.js:41-57 | no node id is kept twice |
| DatabaseService.FirstOccurrencesIds | frontend/databaseService.js:41-57 | an id is kept exactly when some end node has it |
| DatabaseService.FirstOccurrenceAt | frontend/databaseService.js:41-57 | every kept node is the first end node with its id |
| DatabaseService.EdgesOfAll | frontend/databaseService.js:33-39 | edge `i` is the conversion of record `i` |
| DatabaseService.ScenarioToD3 | frontend/databaseService.js:27-65 | the nodes are the end nodes at their first occurrence, source before target, and there is one edge per record in order |
| DatabaseService.ScenarioNodesCoverEdges | frontend/databaseService.js:27-65 | node ids are distinct, and both ends of every edge are among them |
| DotWriter.AlnumOnly | frontend/dotHandler.js:385-389 | the sanitised name holds only ASCII letters and digits and is no longer than the input |
| DotWriter.AlnumOnlyConcat | frontend/dotHandler.js:385-389 | sanitising keeps the order of the surviving characters |
| DotWriter.AlnumOnlyKeeps | frontend/dotHandler.js:385-389 | a name of letters and digits is kept as it is |
| DotWriter.PrepareClusterName | frontend/dotHandler.js:385-389 | `undefined` stays `undefined` and only it does; a name keeps only letters and digits |
| DotWriter.PrepareClusterNameIdempotent | frontend/dotHandler.js:385-389 | sanitising twice is sanitising once |
| DotWriter.OriginIds | frontend/dotHandler.js:436-439 | the collected ids are exactly those of the origin nodes |
| DotWriter.ClusterOriginsAreOrigins | frontend/dotHandler.js:416-465 | a rank line is written for every origin node of every cluster, named or not, and for nothing else |
| DotWriter.EdgeKeyPair | frontend/dotHandler.js:363 | when no end contains a comma, two edges share a grouping key exactly when they share both ends |
| DotWriter.DuplicatesOfEdge | frontend/dotHandler.js:351-375 | with unique ids, an edge's id is a key of the duplicate map exactly when it is the first of two or more edges with the same ends; it then maps to all their ids in edge order |
| DotWriter.MergedIdSplits | frontend/dotHandler.js:476-478 | a merged id splits at the commas back into the group's ids |
| DotWriter.SkipAddsOwnId | frontend/dotHandler.js:474-481 | a written edge adds exactly its own group to the skip list |
| DotWriter.ViewerEdgeSettings | frontend/dotHandler.js:474-491 | an edge built as `{type, id}` writes a dashed style only when conditional, then its merged ids when it heads a group and its own id otherwise |
| DotWriter.PassEdgesSkip | frontend/dotHandler.js:467-499 | after `n` edges the skip list holds the ids of every group of two or more whose first edge is among them |
| DotWriter.EdgeSuppression | frontend/dotHandler.js:467-499 | an edge is written exactly when no earlier edge joins the same ends: one line per group |
| DotWriter.Dot | frontend/dotHandler.js:505 | the text is wrapped in the `digraph G{` boilerplate |
| Groups.KeyIndexes | frontend/dotHandler.js:354-361 | every listed index holds the key |
| Groups.KeyIndexesComplete | frontend/dotHandler.js:354-361 | every index holding the key is listed, in ascending order |
| Groups.GroupStart | frontend/dotHandler.js:365-371 | a group contains its item, and starts at the first item with its key |
| Groups.DuplicatesAt | frontend/dotHandler.js:362-372 | with distinct ids, an item's id is a key exactly when the item heads a group of two or more, and then maps to the group's ids |
| Groups.DuplicatesHeads | frontend/dotHandler.js:362-372 | after any prefix that contains a group head, the head's id maps to the ids of its whole group |
| Groups.DuplicatesKeys | frontend/dotHandler.js:362-372 | every key of the duplicate map is the id of an item heading a group of two or more |
| Groups.HeadGroupsMembers | frontend/dotHandler.js:368 | the recorded groups are exactly the groups of the heads seen so far |
| Groups.DuplicatesStep | frontend/dotHandler.js:366-371 | one step records a group exactly when it has two or more items and is new, under the id of its first item |
| Groups.HeadGroupsRecorded | frontend/dotHandler.js:368 | the `tempIds` test finds a group already recorded exactly when the item is not its first |
| Groups.SkipUpToOwnId | frontend/dotHandler.js:472-481 | with distinct ids, an item's id is already skipped exactly when an earlier item has its key |
| Handler.RegisterImage | frontend/dotHandler.js:202-208 | the registry gains the image when it is defined and new, keeps no duplicates, and holds exactly the old images and the new one |
| Handler.RegisterImagesMembers | frontend/dotHandler.js:199-217 | after a cluster, the registry holds exactly the old images and every defined node image |
| Handler.ParentIdsAreNodeIds | frontend/dotHandler.js:199-217 | every recorded parent id is a recorded node id, counting repeats |
| Handler.EdgesAvoiding | frontend/dotHandler.js:243-253 | the kept edges are exactly those with neither end at the id |
| Handler.RemoveEdgesPartition | frontend/dotHandler.js:243-253 | every edge is either kept or reported, never both |
| Handler.PositionsPick | frontend/dotHandler.js:243-253 | the positions of the kept (or dropped) edges ascend and select only such edges |
| Handler.PositionsComplete | frontend/dotHandler.js:243-253 | every kept (or dropped) edge's position is listed |
| Handler.EdgesAvoidingPositions | frontend/dotHandler.js:243-253 | the survivors are the edges at the kept positions, in their relative order |
| Handler.EdgeIdsTouchingPositions | frontend/dotHandler.js:243-253 | the returned ids are the ids of the dropped edges, in edge order |
| Handler.RemoveEdgesOrder | frontend/dotHandler.js:243-253 | edge `j` is either a survivor at its rank among the kept positions or reported at its rank among the dropped ones |
| Handler.WriteEntries | frontend/dotHandler.js:401-413 | a `for...in` over attributes writes one entry per key, in key order |
| Handler.WriteNodes | frontend/dotHandler.js:435-452 | writes each node line and collects the origin ids |
| Handler.AllIndexes | frontend/dotHandler.js:354-361 | `getAllIndexes` computes the ascending indices of the key |
| Handler.RecordDuplicates | frontend/dotHandler.js:362-372 | the `forEach` builds the duplicate map |
| Handler.DuplicateEdges | frontend/dotHandler.js:351-375 | `_getDuplicateEdges` is the duplicate map of the edges |
| Handler.WriteEdgeSettings | frontend/dotHandler.js:474-491 | writes one edge's attributes and collects its skip additions |
| Handler.WriteEdges | frontend/dotHandler.js:467-499 | the edge loop computes the edge text and the skip list |
| Handler.WriteRanks | frontend/dotHandler.js:501-503 | one rank line per origin id |
| Handler.WriteCluster | frontend/dotHandler.js:416-465 | a named cluster becomes a `subgraph`, an unnamed one its bare node lines, with the cluster's origin ids |
| Handler.WriteClusters | frontend/dotHandler.js:416-465 | the text of every cluster in order, with all origin ids |
| Handler.WriteHeader | frontend/dotHandler.js:396-414 | the `graph`, `node` and `edge` attribute lines |
| Handler.WriteDot | frontend/dotHandler.js:393-506 | `_updateDotString` computes the DOT text of the engine state |
| Handler.ClusterIndexByName | frontend/dotHandler.js:100-102 | finds the first cluster with the name, and finds none only when no cluster has it |
| Handler.ClustersHolding | frontend/dotHandler.js:83-90 | lists the clusters holding the id: each listed one holds it and each holding one is listed |
| Handler.ChangeAcrossStops | frontend/dotHandler.js:281-285 | once a cluster throws, the later clusters are untouched and the error stands |
| Handler.ChangeAcrossKeeps | frontend/dotHandler.js:281-285 | changing a symbol touches only node lists |
| Handler.RecordNodes | frontend/dotHandler.js:199-217 | appends each node id and parent id and offers each image, in node order |
| Handler.RemoveFromClusters | frontend/dotHandler.js:224-226 | every cluster loses its first node with the id |
| Handler.AddAt | frontend/dotHandler.js:261-263 | the chosen cluster gains the resolved node, and a throw changes nothing |
| Handler.ChangeInClusters | frontend/dotHandler.js:281-286 | `_changeSymbol` runs on every cluster holding the node until one throws |
| Handler.FilterEdges | frontend/dotHandler.js:243-253 | the `filter` keeps the avoiding edges and reports the ids of the others |
| Handler.ForgetId | frontend/dotHandler.js:227-232 | a numeral id that is recorded loses its first occurrence in both registries; any other id changes nothing |
| Handler.DotHandler.constructor | frontend/dotHandler.js:1-73 | a new engine is empty and has no DOT text |
| Handler.DotHandler.GetClusterByNode | frontend/dotHandler.js:83-90 | returns exactly the clusters holding the node |
| Handler.DotHandler.GetClusterByName | frontend/dotHandler.js:100-102 | returns a cluster with the name, or nothing exactly when none has it |
| Handler.DotHandler.SetGraphSettings | frontend/dotHandler.js:125-129 | the graph settings become the merge, and nothing else changes |
| Handler.DotHandler.SetNodeSettings | frontend/dotHandler.js:136-140 | the node settings become the merge, and nothing else changes |
| Handler.DotHandler.SetEdgeSettings | frontend/dotHandler.js:147-151 | the edge settings become the merge, and nothing else changes |
| Handler.DotHandler.SetCluster | frontend/dotHandler.js:199-217 | the cluster is appended and its node ids, parent ids and images are recorded in order |
| Handler.DotHandler.AddNode | frontend/dotHandler.js:261-272 | a missing cluster and a throwing resolution are errors that change nothing; otherwise the named cluster gains the resolved node and the registries record it |
| Handler.DotHandler.RemoveNode | frontend/dotHandler.js:224-233 | every cluster loses the node; the registries lose it only for a numeral id they hold |
| Handler.ForgetRecordedAt | frontend/dotHandler.js:224-233 | removing a numeral node that was just added restores both id lists; only its saved image stays |
| Handler.DotHandler.RemoveEdgeByNode | frontend/dotHandler.js:243-253 | the edges become the avoiding edges, and the ids of the others are returned in order |
| Handler.DotHandler.ChangeSymbol | frontend/dotHandler.js:281-296 | the clusters change as `_changeSymbol` changes them; without a throw the truthy new image is registered and the DOT text is rebuilt |
| Handler.DotHandler.UpdateDotString | frontend/dotHandler.js:393-506 | the DOT text becomes the text of the current state, and nothing else changes |
| Handler.DotHandler.ResetEdges | frontend/dotHandler.js:300-302 | no edges remain, and nothing else changes |
| Handler.DotHandler.ResetClusters | frontend/dotHandler.js:322-326 | no clusters, node ids or parent ids remain |
| Handler.DotHandler.SetEdges | frontend/dotHandler.js:333-335 | the edges are replaced |
| Handler.DotHandler.AddEdge | frontend/dotHandler.js:342-344 | the edge is appended |
| Handler.DotHandler.Destruct | frontend/dotHandler.js:306-318 | edges, clusters, registries and settings are emptied |
| Hierarchy.ReadParentChild | frontend/script.js:107-113 | the root candidates are the object's keys in order, the map holds each key's list, and the child list holds every listed id exactly once |
| Hierarchy.PruneRootsAsWritten | frontend/script.js:114-118 | the splice inside `forEach` is the walk that skips the element after each removal |
| Hierarchy.SpliceCounterexample | frontend/script.js:114-118 | for the object `{"1":["2"],"2":["4"],"3":["1","2","4"]}` the written walk keeps the child "2" as a root |
| Hierarchy.SpliceChainCounterexample | frontend/script.js:114-118 | for `{"1":["2","3","4"],"2":["3","4"],"3":["4"]}` the written walk gives the roots "1" and "3"; the intended roots are just "1" |
| Hierarchy.SpliceWalkBounds | frontend/script.js:114-118 | the written walk keeps only candidates, and keeps every true root |
| Hierarchy.Unlisted | frontend/script.js:114-118 | a root is a candidate that no entry lists as a descendant |
| Hierarchy.PruneRoots | frontend/script.js:114-118 | the intended roots: the candidates no entry lists, in order |
| Hierarchy.ChildRootsWitness | frontend/script.js:122-130 | a mapped child maps to the last root that lists it |
| Hierarchy.ChildRootsComplete | frontend/script.js:122-130 | every child of a root is mapped |
| Hierarchy.SetAllUnion | frontend/script.js:125-127 | setting each child in turn maps every child to the root |
| Hierarchy.MapChildrenToRoots | frontend/script.js:122-130 | the loop builds the child→root map |
| Hierarchy.MapOfPairs | frontend/script.js:134 | with distinct children, the child→parent map holds exactly the fetched pairs |
| Hierarchy.MapOfKeys | frontend/script.js:134 | its keys are the fetched children |
| Hierarchy.InvertParents | frontend/script.js:135-143 | the inversion maps each parent to its children, in fetch order |
| Hierarchy.DirectChildrenInvert | frontend/script.js:132-144 | `c` is listed under `p` exactly when `p` is the parent of `c` |
| Hierarchy.InitialEdgeOrigin | frontend/script.js:204-241 | every initial edge is the rerouted form of a non-`includes` data edge |
| Hierarchy.InitialEdgesHideChildren | frontend/script.js:211-236 | in collapsed mode every initial edge has two defined ends and neither is a mapped child, when no root is itself mapped |
| Hierarchy.SelectEdges | frontend/script.js:204-241 | the loop keeps the non-`includes` edges, in order, rerouted to roots in collapsed mode |
| Hierarchy.ClimbEnds | frontend/script.js:338-353 | a walk that ends stops at the nearest visible ancestor |
| Hierarchy.ClimbUndefined | frontend/script.js:341-344 | a walk from `undefined` never ends |
| Hierarchy.ClimbNone | frontend/script.js:341-344 | a walk cut after `fuel` steps passed only invisible nodes |
| Hierarchy.ClimbForever | frontend/script.js:341-344 | if the walk has not ended after one step more than the map has keys, no ancestor is ever visible, so the source's loop never ends |
| Hierarchy.CappedClimbEnds | frontend/script.js:420-438 | collapse's capped walk stops at the nearest visible ancestor, or after ten steps over invisible ones |
| Multimap.GroupingStep | backend/src/main/java/backend/endpoint/NodeEndpoint.java:184-191 | appending a value under its key keeps the map a grouping of one more pair |
| Multimap.GroupingMembers | backend/src/main/java/backend/endpoint/NodeEndpoint.java:174-195 | in a grouping, a value is listed under a key exactly when that pair occurs |
| NodeEndpoint.ValidLabelsMembers | backend/src/main/java/backend/endpoint/NodeEndpoint.java:310-322 | a label is kept exactly when it is an input label naming an enum constant |
| NodeEndpoint.ValidLabelsAppend | backend/src/main/java/backend/endpoint/NodeEndpoint.java:313-322 | the kept labels keep their input order |
| NodeEndpoint.ValidLabelsAllValid | backend/src/main/java/backend/endpoint/NodeEndpoint.java:313-322 | valid labels are kept as they are, each exactly once |
| NodeEndpoint.BuildNodeLabels | backend/src/main/java/backend/endpoint/NodeEndpoint.java:310-330 | 422 exactly when no label is valid; otherwise the colon-joined text splits back into the kept labels |
| NodeEndpoint.AddNodeLabels | backend/src/main/java/backend/endpoint/NodeEndpoint.java:283-291 | 422 for missing or empty labels, a missing `name` or no valid label; otherwise the label part of the query |
| NodeEndpoint.GroupByParent | backend/src/main/java/backend/endpoint/NodeEndpoint.java:174-195 | the fold maps each parent to its descendants in record order |
| NodeEndpoint.DropTrailingEmpty | backend/src/main/java/backend/endpoint/NodeEndpoint.java:77 | `split` keeps a prefix of the pieces whose last piece, if any, is not empty |
| NodeEndpoint.IdentityOfElementId | backend/src/main/java/backend/endpoint/NodeEndpoint.java:299 | an element id of three colon-free parts, the last non-empty, yields its last part |
| NodeEndpoint.IdentityOfEmptyLast | backend/src/main/java/backend/endpoint/NodeEndpoint.java:299 | an element id ending in a colon has no third piece, and the index throws (500) |
| NodeEndpoint.DirectParent | backend/src/main/java/backend/endpoint/NodeEndpoint.java:237-252 | no record gives an empty array, one record gives that parent, and more make `single()` throw |
| ScenarioEndpoint.OrderedShape | backend/src/main/java/backend/endpoint/ScenarioEndpoint.java:116-130 | the loop puts the recognised labels first, in reverse order, then the others in order |
| ScenarioEndpoint.OrderedPermutation | backend/src/main/java/backend/endpoint/ScenarioEndpoint.java:116-130 | the loop only rearranges the labels |
| ScenarioEndpoint.OrderedNoneRecognised | backend/src/main/java/backend/endpoint/ScenarioEndpoint.java:116-130 | with no label recognised, the order is kept |
| ScenarioEndpoint.OrderedStartsRecognised | backend/src/main/java/backend/endpoint/ScenarioEndpoint.java:111-130 | when a label is recognised, the list starts with one |
| ScenarioEndpoint.OrderLabelsWith | backend/src/main/java/backend/endpoint/ScenarioEndpoint.java:116-130 | the loop computes that order for a given test |
| ScenarioEndpoint.OrderLabelsAsWritten | backend/src/main/java/backend/endpoint/ScenarioEndpoint.java:116-130 | as written, `EnumSet.contains` never holds for a string, so the labels come back unchanged |
| ScenarioEndpoint.OrderLabelsCounterexample | backend/src/main/java/backend/endpoint/ScenarioEndpoint.java:121 | `["parent","event"]` stays as it is, while the documented order is `["event","parent"]` |
| ScenarioEndpoint.OrderLabels | backend/src/main/java/backend/endpoint/ScenarioEndpoint.java:111-130 | the documented order: a permutation starting with a type label when there is one |
| ScenarioEndpoint.ToNodeObject | backend/src/main/java/backend/endpoint/ScenarioEndpoint.java:94-98 | fails exactly when the element id has no third piece; otherwise the identity, properties and ordered labels |
| ScenarioEndpoint.NodeLabelsAsWritten | backend/src/main/java/backend/endpoint/ScenarioEndpoint.java:94-98 | the written order equals the input labels; the model's labels are a permutation of them, and equal them when none is a type label |
| ScenarioEndpoint.ToRelationship | backend/src/main/java/backend/endpoint/ScenarioEndpoint.java:91-103 | fails exactly when one of the three element ids has no third piece; otherwise the identity, type, properties and both end objects |
| ScenarioEndpoint.ToRelationshipObject | backend/src/main/java/backend/endpoint/ScenarioEndpoint.java:91-103 | builds that relationship object |
| ScenarioEndpoint.ConvertNext | backend/src/main/java/backend/endpoint/ScenarioEndpoint.java:88-104 | one loop pass converts the next record or fails |
| ScenarioEndpoint.GetAllByScenario | backend/src/main/java/backend/endpoint/ScenarioEndpoint.java:77-108 | 500 exactly when some record fails; otherwise one relationship per record, in order |
| Viewer.NodeIndex | frontend/viewers.js:69 | the node index maps exactly the data ids, each to a node with that id |
| Viewer.EdgeIndex | frontend/viewers.js:70 | the edge index maps every data edge's id to an edge with that id |
| Viewer.ChosenMembers | frontend/script.js:166-193 | a cluster receives exactly the data nodes of its group that the display mode selects |
| Viewer.BuildNodesRest | frontend/script.js:166-193 | building nodes keeps the colour queue a rest of the configured set |
| Viewer.BuiltAt | frontend/script.js:172-191 | the built node at place `i` carries the id, first label, parent and origin flags of data node `i` |
| Viewer.BuildNodesFrom | frontend/script.js:172-191 | every built node comes from the data node at the same place |
| Viewer.BuiltIds | frontend/script.js:172-191 | the built nodes carry the data node ids, in order |
| Viewer.GroupsOnce | frontend/script.js:146 | every node's group has exactly one cluster |
| Viewer.ChosenIdsMembers | frontend/script.js:146-201 | an id is received by some cluster exactly when a data node with that id belongs to one of the filled groups and the display mode selects it |
| Viewer.LoadedIds | frontend/script.js:146-201 | after loading, the engine holds exactly every data node that is not a parent when all nodes are shown, and every data node that is not a child otherwise |
| Viewer.RecordedChosen | frontend/dotHandler.js:199-217 | clusters that hold the selected ids of the groups in turn record exactly those ids, in that order |
| Viewer.ResolvedIds | frontend/dotHandler.js:649-654 | resolution without a throw keeps every node id |
| Viewer.PresentMembers | frontend/script.js:298-302 | expand adds exactly the listed children the node index knows |
| Viewer.AdditionsGrow | frontend/script.js:298-324 | expand's additions only append, to the cluster of each added node's group |
| Viewer.ExpandEdgesStuck | frontend/script.js:326-353 | once the edges up to some point contain one whose walk never ends, expand as a whole fails |
| Viewer.ExpandEdgesDiverge | frontend/script.js:326-353 | when expand fails, some touched edge has an end none of whose ancestors is ever visible |
| Viewer.ExpandEndpointVisible | frontend/script.js:330-353 | every end that expand computes is visible, once the added nodes are |
| Viewer.ExpandEdgesVisible | frontend/script.js:326-363 | every edge expand adds has both ends among the visible nodes |
| Viewer.StripAllKeeps | frontend/script.js:375-382 | collapse keeps exactly the edges touching none of the removed children |
| Viewer.StripAllCounts | frontend/script.js:375-382 | every edge collapse drops is reported once |
| Viewer.CollapseEdgesShape | frontend/script.js:405-447 | re-adding fails exactly when a removed id is missing from the edge index; otherwise one rerouted edge per removed id, in order |
| Viewer.CollapseEndpointEnds | frontend/script.js:410-438 | a removed child's end moves to the visible parent; any other end climbs to the nearest visible ancestor within ten steps |
| Viewer.NextColor | frontend/script.js:575-598 | `getColor`'s body assigns the colour as `AssignColor` does |
| Viewer.NewCluster | frontend/script.js:148-150 | a new cluster has the group's name, node settings exactly `imagescale: true`, cluster settings exactly the group colour then the style `rounded, dashed, bold`, and the resolved nodes |
| Viewer.GroupSettingsMerged | frontend/script.js:149-150 | the node and cluster settings set on a new cluster come out as given, in that order |
| Viewer.GroupClusterHolds | frontend/script.js:148-198 | a group's cluster, when resolving does not throw, is named after the group and holds exactly the ids of the nodes the group selects |
| Viewer.FillWithStopped | frontend/script.js:146-201 | once a group's pass throws, the later groups change neither the clusters nor the palette |
| Viewer.FillWithDone | frontend/script.js:146-201 | a loop that throws at some group ends as it stood at that group |
| Viewer.FilledDone | frontend/script.js:146-201 | once a group throws, `setScenarioData` sets no further cluster and assigns no further colour |
| Viewer.FillWithShape | frontend/script.js:146-201 | when every pass that does not throw sets a cluster holding its group's ids, cluster `j` holds those of group `j`, and the loop stops short of the last group exactly when a group throws |
| Viewer.FilledShape | frontend/script.js:146-201 | cluster `j` is the cluster of group `j`, holding exactly the ids that group selects; fewer clusters than groups are set exactly when a group throws |
| Viewer.BuildHierarchy | frontend/script.js:107-144 | each empty map is filled from the fetched data and a filled one is kept |
| Viewer.ReadParentChildMap | frontend/script.js:107-119 | the parent→children map and the roots, computed as intended |
| Viewer.ReadChildParentMap | frontend/script.js:132-144 | the child→parent map and its inversion, empty together |
| Viewer.UnlistedSameMembers | frontend/script.js:111 | the roots depend on the child list only through membership |
| Viewer.EmptyParents | frontend/script.js:132-144 | the inversion is empty exactly when the child→parent map is |
| Viewer.ScenarioViewer.constructor | frontend/script.js:246-266 | a fresh viewer holds the data, its indexes, empty hierarchy maps and the configured palette |
| Viewer.ScenarioViewer.GetColor | frontend/script.js:575-598 | the colour and new palette are those of `AssignColor` for the subject's key |
| Viewer.ScenarioViewer.IsChild | frontend/script.js:472-474 | a node is a child exactly when the child→parent map gives it a parent |
| Viewer.ScenarioViewer.SetScenarioData | frontend/script.js:98-242 | the data and engine settings are kept and the maps are read as intended. The clusters and the palette are exactly those of `Filled`: one cluster per group, in order, with its name, colour, style, image scaling and resolved nodes (label, image and node colour included), until one throws; the call fails exactly when one throws. The registries hold exactly what those clusters record over an empty engine, keeping only the saved images. On success the node ids are exactly the selected ids, group after group, and the edges are the initial edges; after a throw no edges are set |
| Viewer.ScenarioViewer.LoadClusters | frontend/script.js:146-241 | the clusters and the palette are exactly those of `Filled` from the old palette, with the registries recording each cluster. The data edges are handed over exactly when no cluster throws; otherwise no edges are set |
| Viewer.ScenarioViewer.ResetEngine | frontend/script.js:99-100 | the engine has no clusters, no edges and no recorded ids; the saved images, settings and DOT text are kept |
| Viewer.ScenarioViewer.SetInitialEdges | frontend/script.js:204-241 | the engine's edges become the initial edges; clusters, registries, settings and DOT text are kept |
| Viewer.ScenarioViewer.FillGroups | frontend/script.js:146-201 | the clusters and the palette are exactly those of `Filled` for the unique groups, and the call fails exactly when a group throws. Cluster `j` holds the selected nodes of group `j`, and every group has a cluster exactly on success. The recorded node ids gain exactly the selected ids of the filled groups, group after group |
| Viewer.ScenarioViewer.FillClusters | frontend/script.js:148-201 | the loop over the groups leaves exactly the clusters and palette of `Filled` from the old palette, fails exactly when a group throws, and stops there; the registries record every cluster set, and the data, edges and settings are kept |
| Viewer.ScenarioViewer.FillNext | frontend/script.js:148-200 | one pass of that loop takes the clusters and palette from those of `Filled` for the groups before it to those for the groups up to it |
| Viewer.ScenarioViewer.FillCluster | frontend/script.js:148-200 | the palette becomes that of `GroupCluster`; on success its cluster view is appended and its nodes recorded, and the call fails exactly when resolving throws, with that symbol error, leaving the clusters and registries unchanged |
| Viewer.ScenarioViewer.GroupClusterOf | frontend/script.js:148-197 | the new cluster's view, the palette and the resolution error are exactly those of `GroupCluster`; the engine is untouched |
| Viewer.ScenarioViewer.ColoredNodes | frontend/script.js:151-193 | the group colour and the built nodes are the ones `GroupCluster` computes from the old palette |
| Viewer.ScenarioViewer.AddCluster | frontend/script.js:199 | `handler.setCluster` appends the cluster and records its nodes; edges, settings and DOT text are kept |
| Viewer.ScenarioViewer.SelectNodes | frontend/script.js:155-193 | the built nodes and palette for the group's selected nodes |
| Viewer.ScenarioViewer.SelectNode | frontend/script.js:157-192 | a selected node is built with its colour; any other is skipped and the palette is kept |
| Viewer.ScenarioViewer.ExpandNode | frontend/script.js:291-365 | a non-parent changes nothing. A parent without direct children fails after leaving the engine. Otherwise the parent leaves the clusters, the registries and its edges. Its known direct children are then added to their clusters, and the registries record them, with the colours `getColor` assigns. On success the touched data edges are appended with both ends visible; a walk that never ends is `Diverged`. Settings and DOT text are kept |
| Viewer.ScenarioViewer.ExpandChildren | frontend/script.js:296-363 | unless the engine throws, the cluster views, palette and registries are those of adding the known children in order, and the node ids gain exactly them. On success the added edges are the rewritten touched edges, with visible ends |
| Viewer.ScenarioViewer.LeaveEngine | frontend/script.js:292-294 | the node leaves every cluster, the registries (when a numeral) and every edge touching it; settings and DOT text are kept |
| Viewer.ScenarioViewer.AddChildren | frontend/script.js:296-324 | each known child is added in list order: the node ids gain exactly the known children, and the views, palette and registries are those of the additions; edges and settings are kept; a failure is an engine throw |
| Viewer.ScenarioViewer.AddDataNode | frontend/script.js:302-322 | the data node's engine node, with its assigned colour, is added to its group's cluster and recorded, exactly when that cluster exists and the symbol resolves; otherwise nothing is recorded |
| Viewer.ScenarioViewer.AddEngineNode | frontend/script.js:310-322 | `handler.addNode` seen from the viewer: the named cluster gains the node and the registries record it, or the call fails and records nothing |
| Viewer.ScenarioViewer.AddExpandedEdges | frontend/script.js:326-363 | the edge loop appends the rewritten touched edges, or fails with `Diverged` when a walk does not end; clusters, registries and settings are kept |
| Viewer.ScenarioViewer.AddExpandedEdge | frontend/script.js:327-361 | one edge of that loop: an edge not touching the added nodes is skipped; a touching one is appended rewritten, unless its walk does not end |
| Viewer.ScenarioViewer.RewriteExpanded | frontend/script.js:328-355 | the rewritten ends of one edge |
| Viewer.ScenarioViewer.ClimbToVisible | frontend/script.js:338-345 | the ancestor walk of expand |
| Viewer.ScenarioViewer.CollapseNode | frontend/script.js:369-449 | a node without parent, or whose parent has no children list, changes nothing. Otherwise every child of the parent leaves the clusters, the registries and its edges. The parent is then added back with its colour, when the node index knows it, and the removed edges are re-added rerouted. Each error case states the edges, views and registries it leaves |
| Viewer.ScenarioViewer.CollapseInto | frontend/script.js:375-447 | for a known parent: the children leave, the parent comes back into its cluster and the registries, and on success the removed edges are re-added rerouted; an unknown parent is `MissingNode` after the removal |
| Viewer.ScenarioViewer.RestoreParent | frontend/script.js:385-403 | the parent node, with its assigned colour, is added back to its cluster and recorded; the node ids gain it exactly when the engine accepts it |
| Viewer.ScenarioViewer.RemoveChildren | frontend/script.js:375-382 | each child leaves the edges, the registries and the clusters, in order, and its edge ids are collected in removal order; settings are kept |
| Viewer.ScenarioViewer.RemoveChild | frontend/script.js:378-381 | one child's removal: its edges and their ids, the registries and every cluster |
| Viewer.ScenarioViewer.ReAddEdges | frontend/script.js:405-447 | every removed edge id is looked up and its rerouted edge appended; a missing id fails with `MissingEdge`; clusters, registries and settings are kept |
| Viewer.ScenarioViewer.RewriteCollapsed | frontend/script.js:407-438 | the rerouted ends of one removed edge |
| Viewer.ScenarioViewer.CappedClimbToVisible | frontend/script.js:420-438 | the capped walk of collapse |

## Left out

- I/O is not modelled: database sessions and queries, `fetch`, `await`, the DOM, the info box, d3 transitions and the Graphviz renderer. Query results and fetched objects are parameters. So are the symbol images (`getImage` is a function `images` passed in) and the child lists of `getAllChildrenSpring` (a function `childrenOf`).
- Handler.DotHandler.UpdateDotString: `render()` is not modelled beyond building the DOT text. Expand and collapse end with `render()`, but the model does not rebuild `dotSrc` after them, so their `dotSrc` is the one from before.
- Handler.IsNonNegativeNumeral: stands in for JavaScript's `nodeID >= 0` (dotHandler.js:227) as "after trimming, only ASCII digits, the empty string included". JavaScript also accepts "1.5", "1e3", "0x1F", "+5" and "Infinity", and the model says false for them. The viewer's ids are database identities, which are digit strings.
- Viewer.ScenarioViewer.constructor: every viewer starts from a fresh copy of the configured palette. In the source, `currentGroupColors` is the `settings.groupColors` object itself (script.js:47 and 262), so colours assigned by one viewer are still there after a reset.
- Attributes.Assign: JavaScript enumerates integer-like keys first, in ascending order; the association list keeps plain insertion order for every key. The same holds for Attributes.Merge.
- Viewer.ScenarioViewer.ExpandNode: the endless `while` of script.js:341-344 gets a bound of one step more than the child→parent map has keys. Running out of steps is reported as `Diverged`. Hierarchy.ClimbForever shows that this happens exactly when the source's loop never ends.
- Viewer.ReadParentChildMap: the viewer uses the intended root computation (PruneRoots), not the splice inside `forEach` that script.js:114-118 runs (see Findings). For `{"1":["2","3","4"],"2":["3","4"],"3":["4"]}` the source takes "1" and "3" as roots and maps "4" to "3"; the model takes only "1" and maps "4" to "1". The same holds for Viewer.ScenarioViewer.SetScenarioData and Viewer.BuildHierarchy.
- ScenarioEndpoint.ToNodeObject: node labels use the documented order (OrderLabels), not the written one, which keeps the input order (see Findings). A node labelled `["parent","event"]` gets `["event","parent"]` in the model and keeps `["parent","event"]` in the source. ScenarioEndpoint.NodeLabelsAsWritten states the written result. The same holds for ScenarioEndpoint.ToRelationship, ScenarioEndpoint.ToRelationshipObject and ScenarioEndpoint.GetAllByScenario.
- NodeEndpoint.AddNodeLabels: a `null` property map cannot be expressed, because the properties are always a list; in the source it raises a NullPointerException and then a 500. A `null` label list is modelled. A `null` element inside the label list is not: labels are always strings.
- NodeEndpoint.BuildNodeLabels: labels are always strings, so a `null` element is not modelled. In the source, the enum's `valueOf` throws a NullPointerException for such an element, which the `IllegalArgumentException` handler does not catch, so the request ends in a 500 (NodeEndpoint.java:315).
- Strings.ReplaceFirst: the replacement is inserted literally. JavaScript's `replace` expands `$&`, `` $` ``, `$'` and `$$` in a string replacement. The only replacement used holds a palette colour, and the configured colours contain no `$`.
- Viewer.ScenarioViewer.ExpandNode: after an engine throw while adding the children, the views, palette, registries and edges left by the children added before it are not stated. After `Diverged`, the edges appended before the walk that did not end are not stated. The same holds for Viewer.ScenarioViewer.ExpandChildren, Viewer.ScenarioViewer.AddChildren and Viewer.ScenarioViewer.AddExpandedEdges.
- Viewer.ScenarioViewer.CollapseNode: after `MissingEdge`, the edges re-added before the missing id are not stated. The same holds for Viewer.ScenarioViewer.CollapseInto and Viewer.ScenarioViewer.ReAddEdges.
- Entities.NodeObject: property values are reduced to their string form. Numbers, lists and nested maps from the database are not distinguished.
- Concurrency is not modelled. The `await` inside the expand and collapse handlers lets other events interleave.
- Node and edge objects are values. The source mutates a node in place during `_addSymbol`; every such node is a fresh literal that nothing else references, so no aliasing is lost.
- The overview (neato) viewer, `viewers.js` beyond the two indexes, the symbol, relationship and other node endpoints, and `UIElements.js` are not part of this model.

## Findings

| source | as written | input that shows it | evidently intended | confidence | as-written member | corrected member |
|---|---|---|---|---|---|---|
| frontend/script.js:114-118 | `rootNodes.splice` inside `rootNodes.forEach` shifts the array, so the element after each removed one is never tested | `{"1":["2","3","4"],"2":["3","4"],"3":["4"]}` gives roots `["1","3"]`; `{"1":["2"],"2":["4"],"3":["1","2","4"]}` gives `["2","3"]` | the roots are the keys that no entry lists as a descendant: `["1"]` and `["3"]` | not executed | Hierarchy.PruneRootsAsWritten, Hierarchy.SpliceChainCounterexample, Hierarchy.SpliceCounterexample | Hierarchy.PruneRoots, Hierarchy.Unlisted |
| backend/src/main/java/backend/endpoint/ScenarioEndpoint.java:118-124 | `EnumSet<TypeLabels>.contains(label)` with a `String` label is always false, so no label is moved to the front | labels `["parent","event"]` come back as `["parent","event"]` | the type label first, as the method's comment says: `["event","parent"]` | not executed | ScenarioEndpoint.OrderLabelsAsWritten, ScenarioEndpoint.OrderLabelsCounterexample | ScenarioEndpoint.OrderLabels, ScenarioEndpoint.OrderedShape |
