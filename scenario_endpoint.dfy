/** The scenario endpoint of the back end, without its database session:
    the mapping of each query record to a relationship object and the
    ordering of node labels that puts the symbol-selecting label first. */
module ScenarioEndpoint {
  import opened Wrappers
  import opened Attributes
  import opened Entities
  import opened NodeEndpoint

  /** An object handed to `EnumSet.contains`: a constant of `TypeLabels`
      or a string. */
  datatype JavaObject = TypeConstant(name: string) | JavaString(text: string)

  /** `EnumSet.allOf(TypeLabels.class).contains(o)`: the set holds the
      constants, and a constant equals only itself, never a string. */
  predicate TypeSetContains(o: JavaObject) {
    o.TypeConstant? && IsTypeLabel(o.name)
  }

  /** The test `orderLabels` performs on a label, as written: the label is
      passed to the enum set as a string. */
  predicate ContainsAsWritten(name: string) {
    TypeSetContains(JavaString(name))
  }

  /** The list built by `orderLabels`' loop when `isType` recognises the
      type labels: a recognised label goes to the front, any other to the
      end. */
  function Ordered(labels: seq<string>, isType: string -> bool): seq<string> {
    if labels == [] then []
    else
      var l := labels[|labels| - 1];
      var prev := Ordered(labels[..|labels| - 1], isType);
      if isType(l) then [l] + prev else prev + [l]
  }

  /** The labels `isType` answers `want` for, in order. */
  function FilterBy(labels: seq<string>, isType: string -> bool, want: bool): (r: seq<string>)
    ensures forall i :: 0 <= i < |r| ==> isType(r[i]) == want
  {
    if labels == [] then []
    else
      var l := labels[|labels| - 1];
      FilterBy(labels[..|labels| - 1], isType, want) + (if isType(l) == want then [l] else [])
  }

  function Reverse(s: seq<string>): (r: seq<string>)
    ensures |r| == |s|
  {
    if s == [] then [] else Reverse(s[1..]) + [s[0]]
  }

  lemma {:induction false} ReverseAppend(s: seq<string>, x: string)
    ensures Reverse(s + [x]) == [x] + Reverse(s)
  {
    if s != [] {
      ReverseAppend(s[1..], x);
      assert (s + [x])[1..] == s[1..] + [x];
    }
  }

  /** The loop's list is the recognised labels in reverse order of
      appearance followed by the others in order. */
  lemma {:induction false} OrderedShape(labels: seq<string>, isType: string -> bool)
    ensures Ordered(labels, isType) == Reverse(FilterBy(labels, isType, true)) + FilterBy(labels, isType, false)
  {
    if labels != [] {
      var init := labels[..|labels| - 1];
      var l := labels[|labels| - 1];
      OrderedShape(init, isType);
      var yes, no := FilterBy(init, isType, true), FilterBy(init, isType, false);
      if isType(l) {
        assert FilterBy(labels, isType, true) == yes + [l];
        assert FilterBy(labels, isType, false) == no;
        ReverseAppend(yes, l);
        assert Ordered(labels, isType) == [l] + (Reverse(yes) + no);
      } else {
        assert FilterBy(labels, isType, true) == yes;
        assert FilterBy(labels, isType, false) == no + [l];
        assert Ordered(labels, isType) == (Reverse(yes) + no) + [l];
      }
    }
  }

  /** The loop only rearranges: the same labels, as often as before. */
  lemma {:induction false} OrderedPermutation(labels: seq<string>, isType: string -> bool)
    ensures multiset(Ordered(labels, isType)) == multiset(labels)
  {
    if labels != [] {
      var init := labels[..|labels| - 1];
      OrderedPermutation(init, isType);
      assert labels == init + [labels[|labels| - 1]];
    }
  }

  /** When nothing is recognised, every label is appended and the order
      stays. */
  lemma {:induction false} OrderedNoneRecognised(labels: seq<string>, isType: string -> bool)
    requires forall i :: 0 <= i < |labels| ==> !isType(labels[i])
    ensures Ordered(labels, isType) == labels
  {
    if labels != [] {
      OrderedNoneRecognised(labels[..|labels| - 1], isType);
    }
  }

  /** When something is recognised, the list starts with a recognised
      label: the last one. */
  lemma {:induction false} OrderedStartsRecognised(labels: seq<string>, isType: string -> bool, i: nat)
    requires i < |labels| && isType(labels[i])
    ensures Ordered(labels, isType) != [] && isType(Ordered(labels, isType)[0])
  {
    var init := labels[..|labels| - 1];
    if !isType(labels[|labels| - 1]) {
      OrderedStartsRecognised(init, isType, i);
    }
  }

  lemma OrderedStep(labels: seq<string>, isType: string -> bool, i: nat)
    requires i < |labels|
    ensures Ordered(labels[..i + 1], isType) ==
      if isType(labels[i]) then [labels[i]] + Ordered(labels[..i], isType) else Ordered(labels[..i], isType) + [labels[i]]
  {
    assert labels[..i + 1][..i] == labels[..i];
  }

  /** `orderLabels`' loop: `add(0, label)` for a recognised label,
      `add(label)` for any other. */
  method OrderLabelsWith(labels: seq<string>, isType: string -> bool) returns (ordered: seq<string>)
    ensures ordered == Ordered(labels, isType)
  {
    ordered := [];
    var i := 0;
    while i < |labels|
      invariant 0 <= i <= |labels|
      invariant ordered == Ordered(labels[..i], isType)
    {
      var l := labels[i];
      OrderedStep(labels, isType, i);
      if isType(l) {
        ordered := [l] + ordered;
      } else {
        ordered := ordered + [l];
      }
      i := i + 1;
    }
    assert labels[..i] == labels;
  }

  /** `orderLabels` as written: no string is ever contained in the enum
      set, so the labels come back in their input order. */
  method OrderLabelsAsWritten(labels: seq<string>) returns (ordered: seq<string>)
    ensures ordered == labels
  {
    ordered := OrderLabelsWith(labels, ContainsAsWritten);
    OrderedNoneRecognised(labels, ContainsAsWritten);
  }

  /** As written, a type label after a functional label stays behind it,
      where the documented ordering puts it first. */
  lemma OrderLabelsCounterexample()
    ensures Ordered(["parent", "event"], ContainsAsWritten) == ["parent", "event"]
    ensures Ordered(["parent", "event"], IsTypeLabel) == ["event", "parent"]
  {
    assert ["parent", "event"][..1] == ["parent"];
    assert IsTypeLabel("event") && !IsTypeLabel("parent");
  }

  /** `orderLabels` as documented: the type labels at the front, in
      reverse order of appearance, then the other labels in order. No
      label is gained or lost, and a list with a type label starts with
      one. */
  method OrderLabels(labels: seq<string>) returns (ordered: seq<string>)
    ensures ordered == Ordered(labels, IsTypeLabel)
    ensures ordered == Reverse(FilterBy(labels, IsTypeLabel, true)) + FilterBy(labels, IsTypeLabel, false)
    ensures multiset(ordered) == multiset(labels)
    ensures (exists i :: 0 <= i < |labels| && IsTypeLabel(labels[i])) ==> IsTypeLabel(ordered[0])
  {
    ordered := OrderLabelsWith(labels, IsTypeLabel);
    OrderedShape(labels, IsTypeLabel);
    OrderedPermutation(labels, IsTypeLabel);
    if i :| 0 <= i < |labels| && IsTypeLabel(labels[i]) {
      OrderedStartsRecognised(labels, IsTypeLabel, i);
    }
  }

  /** A node as the driver returns it. */
  datatype DbNode = DbNode(elementId: string, labels: seq<string>, props: Attrs)

  /** A relationship as the driver returns it: its element id, its single
      type and its properties. */
  datatype DbRelationship = DbRelationship(elementId: string, kind: string, props: Attrs)

  /** One record of the scenario query: `p`, `r` and `q`. */
  datatype ScenarioRecord = ScenarioRecord(p: DbNode, r: DbRelationship, q: DbNode)

  /** The node object for a record's end node. */
  function ToNodeObject(n: DbNode): (r: Result<NodeObject, Status>)
    ensures r.Ok? <==> Identity(n.elementId).Ok?
    ensures r.Ok? ==> r.value.identity == Identity(n.elementId).value && r.value.props == n.props
    ensures r.Ok? ==> r.value.labels == Ordered(n.labels, IsTypeLabel)
  {
    match Identity(n.elementId)
    case Err(e) => Err(e)
    case Ok(id) => Ok(NodeObject(id, Ordered(n.labels, IsTypeLabel), n.props))
  }

  /** The node object as written carries the labels in their input order;
      the documented ordering only moves them: the same labels, and the
      same list when none of them is a type label. */
  lemma {:induction false} NodeLabelsAsWritten(n: DbNode)
    ensures Ordered(n.labels, ContainsAsWritten) == n.labels
    ensures ToNodeObject(n).Ok? ==> multiset(ToNodeObject(n).value.labels) == multiset(n.labels)
    ensures (forall i :: 0 <= i < |n.labels| ==> !IsTypeLabel(n.labels[i])) ==>
      ToNodeObject(n).Ok? ==> ToNodeObject(n).value.labels == n.labels
  {
    OrderedNoneRecognised(n.labels, ContainsAsWritten);
    OrderedPermutation(n.labels, IsTypeLabel);
    if forall i :: 0 <= i < |n.labels| ==> !IsTypeLabel(n.labels[i]) {
      OrderedNoneRecognised(n.labels, IsTypeLabel);
    }
  }

  /** The relationship object for one record, or the 500 of a too-short
      element id. */
  function ToRelationship(rec: ScenarioRecord): (r: Result<RelationshipObject, Status>)
    ensures r.Ok? <==> Identity(rec.p.elementId).Ok? && Identity(rec.q.elementId).Ok? && Identity(rec.r.elementId).Ok?
    ensures r.Ok? ==>
      && r.value.identity == Identity(rec.r.elementId).value
      && r.value.labels == rec.r.kind && r.value.props == rec.r.props
      && r.value.source == ToNodeObject(rec.p).value && r.value.target == ToNodeObject(rec.q).value
  {
    var source := ToNodeObject(rec.p);
    var target := ToNodeObject(rec.q);
    var id := Identity(rec.r.elementId);
    if source.Err? || target.Err? || id.Err? then Err(InternalServerError)
    else Ok(RelationshipObject(id.value, rec.r.kind, rec.r.props, source.value, target.value))
  }

  /** The body of `getAllByScenario`'s loop: both end nodes with ordered
      labels and their identities, then the relationship. */
  method ToRelationshipObject(rec: ScenarioRecord) returns (r: Result<RelationshipObject, Status>)
    ensures r == ToRelationship(rec)
  {
    var sourceLabels := OrderLabels(rec.p.labels);
    var sourceId := Identity(rec.p.elementId);
    if sourceId.Err? {
      return Err(InternalServerError);
    }
    var sourceObj := NodeObject(sourceId.value, sourceLabels, rec.p.props);
    var targetLabels := OrderLabels(rec.q.labels);
    var targetId := Identity(rec.q.elementId);
    if targetId.Err? {
      return Err(InternalServerError);
    }
    var targetObj := NodeObject(targetId.value, targetLabels, rec.q.props);
    var edgeId := Identity(rec.r.elementId);
    if edgeId.Err? {
      return Err(InternalServerError);
    }
    r := Ok(RelationshipObject(edgeId.value, rec.r.kind, rec.r.props, sourceObj, targetObj));
  }

  /** The relationship list built from the first `i` records holds each one's conversion. */
  predicate ConvertedPrefix(records: seq<ScenarioRecord>, list: seq<RelationshipObject>, i: nat)
    requires i <= |records|
  {
    && |list| == i
    && forall j :: 0 <= j < i ==> ToRelationship(records[j]).Ok? && list[j] == ToRelationship(records[j]).value
  }

  /** One step of the loop in GetAllByScenario: convert record `i` and append it, or fail. */
  method ConvertNext(records: seq<ScenarioRecord>, list: seq<RelationshipObject>, i: nat) returns (r: Result<seq<RelationshipObject>, Status>)
    requires i < |records| && ConvertedPrefix(records, list, i)
    ensures r.Ok? <==> ToRelationship(records[i]).Ok?
    ensures r.Ok? ==> ConvertedPrefix(records, r.value, i + 1)
  {
    var relationship := ToRelationshipObject(records[i]);
    if relationship.Err? {
      return Err(InternalServerError);
    }
    var next := list + [relationship.value];
    forall j | 0 <= j <= i
      ensures ToRelationship(records[j]).Ok? && next[j] == ToRelationship(records[j]).value
    {
      if j < i {
        assert next[j] == list[j];
      }
    }
    r := Ok(next);
  }

  /** `getAllByScenario`'s loop: one relationship object per record, in
      record order; the first too-short element id ends the request with
      500. */
  method GetAllByScenario(records: seq<ScenarioRecord>) returns (r: Result<seq<RelationshipObject>, Status>)
    ensures r.Ok? <==> forall i :: 0 <= i < |records| ==> ToRelationship(records[i]).Ok?
    ensures r.Err? ==> r.error == InternalServerError
    ensures r.Ok? ==> |r.value| == |records|
    ensures r.Ok? ==> forall i :: 0 <= i < |records| ==> r.value[i] == ToRelationship(records[i]).value
  {
    var relationshipList: seq<RelationshipObject> := [];
    var i := 0;
    while i < |records|
      invariant 0 <= i <= |records|
      invariant ConvertedPrefix(records, relationshipList, i)
    {
      var next := ConvertNext(records, relationshipList, i);
      if next.Err? {
        return Err(InternalServerError);
      }
      relationshipList := next.value;
      i := i + 1;
    }
    r := Ok(relationshipList);
  }
}
