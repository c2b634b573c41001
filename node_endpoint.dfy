/** The node endpoint of the back end, without its database sessions: the
    label check of node creation, the input check of `addNode`, the fold
    that groups hierarchy query results by parent, node identities taken
    from element ids, and the answer of the direct-parent query. */
module NodeEndpoint {
  import opened Wrappers
  import opened Strings
  import opened Attributes
  import opened Entities
  import opened Multimap
  import opened Seqs

  /** The statuses the endpoint fails with: 404, 422, and the 500 an
      uncaught exception becomes. */
  datatype Status = NotFound | UnprocessableEntity | InternalServerError

  /** The labels `buildNodeLabels` keeps: a label is kept once for each
      enum with a constant of its name, in input order. */
  function ValidLabels(labels: seq<string>): (r: seq<string>)
  {
    if labels == [] then []
    else
      var l := labels[|labels| - 1];
      ValidLabels(labels[..|labels| - 1])
        + (if IsTypeLabel(l) then [l] else [])
        + (if IsFunctionalLabel(l) then [l] else [])
  }

  predicate IsValidLabel(name: string) {
    IsTypeLabel(name) || IsFunctionalLabel(name)
  }

  /** A label is kept exactly when it is an input label naming a constant
      of one of the two enums. */
  lemma {:induction false} ValidLabelsMembers(labels: seq<string>, x: string)
    ensures x in ValidLabels(labels) <==> x in labels && IsValidLabel(x)
  {
    if labels != [] {
      var init := labels[..|labels| - 1];
      ValidLabelsMembers(init, x);
      assert labels == init + [labels[|labels| - 1]];
    }
  }

  /** The kept labels keep their input order: validating two lists one
      after the other gives the validation of their concatenation. */
  lemma {:induction false} ValidLabelsAppend(a: seq<string>, b: seq<string>)
    ensures ValidLabels(a + b) == ValidLabels(a) + ValidLabels(b)
  {
    if b == [] {
      assert a + b == a;
    } else {
      var init, l := b[..|b| - 1], b[|b| - 1];
      var x := if IsTypeLabel(l) then [l] else [];
      var y := if IsFunctionalLabel(l) then [l] else [];
      ValidLabelsAppend(a, init);
      assert (a + b)[..|a + b| - 1] == a + init && (a + b)[|a + b| - 1] == l;
      var va, vi := ValidLabels(a), ValidLabels(init);
      assert ValidLabels(a + b) == (va + vi) + x + y;
      assert ValidLabels(b) == vi + x + y;
      AppendAssoc(va, vi, x);
      AppendAssoc(va, vi + x, y);
    }
  }

  /** Labels that are all valid are kept as they are, each exactly once. */
  lemma {:induction false} ValidLabelsAllValid(labels: seq<string>)
    requires forall i :: 0 <= i < |labels| ==> IsValidLabel(labels[i])
    ensures ValidLabels(labels) == labels
  {
    if labels != [] {
      var init, l := labels[..|labels| - 1], labels[|labels| - 1];
      assert forall i :: 0 <= i < |init| ==> init[i] == labels[i];
      ValidLabelsAllValid(init);
      var a := if IsTypeLabel(l) then [l] else [];
      var b := if IsFunctionalLabel(l) then [l] else [];
      KeptOnce(l);
      assert ValidLabels(labels) == init + a + b;
      AppendAssoc(init, a, b);
      FrontLast(labels);
    }
  }

  /** A valid label is kept by exactly one of the two enums. */
  lemma KeptOnce(l: string)
    requires IsValidLabel(l)
    ensures (if IsTypeLabel(l) then [l] else []) + (if IsFunctionalLabel(l) then [l] else []) == [l]
  {
    LabelEnumsDisjoint(l);
    if IsTypeLabel(l) {
      assert [l] + [] == [l];
    } else {
      assert [] + [l] == [l];
    }
  }

  lemma {:induction false} ValidLabelsColonFree(labels: seq<string>)
    ensures forall i :: 0 <= i < |ValidLabels(labels)| ==> ':' !in ValidLabels(labels)[i]
  {
    forall i | 0 <= i < |ValidLabels(labels)|
      ensures ':' !in ValidLabels(labels)[i]
    {
      var x := ValidLabels(labels)[i];
      ValidLabelsMembers(labels, x);
      LabelsColonFree(x);
    }
  }

  /** One more label for the `forEach` of `buildNodeLabels`. */
  lemma ValidLabelsStep(labels: seq<string>, i: nat)
    requires i < |labels|
    ensures ValidLabels(labels[..i + 1]) == ValidLabels(labels[..i])
      + (if IsTypeLabel(labels[i]) then [labels[i]] else [])
      + (if IsFunctionalLabel(labels[i]) then [labels[i]] else [])
  {
    assert labels[..i + 1][..i] == labels[..i];
  }

  /** `buildNodeLabels`: 422 when no label names an enum constant,
      otherwise the kept labels joined with colons, which split back into
      exactly the kept labels. */
  method BuildNodeLabels(labels: seq<string>) returns (r: Result<string, Status>)
    ensures r.Err? <==> forall i :: 0 <= i < |labels| ==> !IsValidLabel(labels[i])
    ensures r.Err? ==> r.error == UnprocessableEntity
    ensures r.Ok? ==> Split(r.value, ':') == ValidLabels(labels)
  {
    var labelList: seq<string> := [];
    var i := 0;
    while i < |labels|
      invariant 0 <= i <= |labels|
      invariant labelList == ValidLabels(labels[..i])
    {
      var l := labels[i];
      ValidLabelsStep(labels, i);
      if IsTypeLabel(l) {
        labelList := labelList + [l];
      }
      if IsFunctionalLabel(l) {
        labelList := labelList + [l];
      }
      i := i + 1;
    }
    assert labels[..i] == labels;
    if labelList == [] {
      forall j | 0 <= j < |labels|
        ensures !IsValidLabel(labels[j])
      {
        ValidLabelsMembers(labels, labels[j]);
      }
      return Err(UnprocessableEntity);
    }
    var j :| 0 <= j < |labelList|;
    ValidLabelsMembers(labels, labelList[j]);
    ValidLabelsColonFree(labels);
    SplitJoin(labelList, ':');
    r := Ok(Join(labelList, ':'));
  }

  /** The request body of `addNode`; its label list may be `null`. */
  datatype NodeRequest = NodeRequest(labels: Option<seq<string>>, props: Attrs)

  /** `addNode` up to its query: 422 for a missing or empty label list, a
      missing `name` property, or labels none of which is valid; otherwise
      the label part of the query, which splits into the valid labels. */
  method AddNodeLabels(node: NodeRequest) returns (r: Result<string, Status>)
    ensures r.Ok? <==>
      && node.labels.Some? && node.labels.value != [] && HasKey(node.props, "name")
      && exists i :: 0 <= i < |node.labels.value| && IsValidLabel(node.labels.value[i])
    ensures r.Err? ==> r.error == UnprocessableEntity
    ensures r.Ok? ==> Split(r.value, ':') == ValidLabels(node.labels.value)
  {
    if node.labels.None? || node.labels.value == [] || !HasKey(node.props, "name") {
      return Err(UnprocessableEntity);
    }
    r := BuildNodeLabels(node.labels.value);
  }

  /** The fold of the parent→descendants query: each `(parent,
      descendant)` record is appended to the list under its parent, and
      the first record of a parent starts a list of one. */
  method GroupByParent(records: seq<(string, string)>) returns (res: map<string, seq<string>>)
    ensures IsGrouping(res, records)
  {
    res := map[];
    var i := 0;
    while i < |records|
      invariant 0 <= i <= |records|
      invariant IsGrouping(res, records[..i])
    {
      var (key, value) := records[i];
      GroupingStep(res, records, i);
      if key in res {
        var temp := res[key];
        temp := temp + [value];
        res := res[key := temp];
      } else {
        res := res[key := [value]];
      }
      i := i + 1;
    }
    assert records[..i] == records;
  }

  /** Java's `String.split` with a one-character pattern: a string without
      the separator is its own single piece; otherwise every separator
      splits and the empty pieces at the end are dropped. */
  function JavaSplit(s: string, sep: char): seq<string> {
    if sep !in s then [s] else DropTrailingEmpty(Split(s, sep))
  }

  function DropTrailingEmpty(parts: seq<string>): (r: seq<string>)
    ensures r <= parts
    ensures r != [] ==> r[|r| - 1] != ""
  {
    if parts != [] && parts[|parts| - 1] == "" then DropTrailingEmpty(parts[..|parts| - 1]) else parts
  }

  /** `elementId.split(":")[2]`: the third piece, or the 500 that the
      out-of-bounds index becomes. */
  function Identity(elementId: string): Result<string, Status> {
    var parts := JavaSplit(elementId, ':');
    if |parts| > 2 then Ok(parts[2]) else Err(InternalServerError)
  }

  lemma JoinThree(a: string, b: string, c: string)
    ensures Join([a, b, c], ':') == a + ":" + b + ":" + c
  {
    assert [a, b, c][1..] == [b, c];
    assert [b, c][1..] == [c];
    assert Join([b, c], ':') == b + ":" + c;
  }

  /** An element id of three colon-free parts, the last non-empty, yields
      its last part. */
  lemma IdentityOfElementId(db: string, uuid: string, id: string)
    requires ':' !in db && ':' !in uuid && ':' !in id && id != ""
    ensures Identity(db + ":" + uuid + ":" + id) == Ok(id)
  {
    var s := db + ":" + uuid + ":" + id;
    JoinThree(db, uuid, id);
    SplitJoin([db, uuid, id], ':');
    assert s[|db|] == ':';
  }

  /** An element id whose third part is empty has no third piece once the
      trailing empty piece is dropped: the index throws. */
  lemma IdentityOfEmptyLast(db: string, uuid: string)
    requires ':' !in db && ':' !in uuid
    ensures Identity(db + ":" + uuid + ":") == Err(InternalServerError)
  {
    var s := db + ":" + uuid + ":";
    JoinThree(db, uuid, "");
    assert db + ":" + uuid + ":" + "" == s;
    SplitJoin([db, uuid, ""], ':');
    assert s[|db|] == ':';
    var r := DropTrailingEmpty([db, uuid, ""]);
    assert |r| != 3 by {
      if |r| == 3 {
        assert r == [db, uuid, ""];
      }
    }
    assert ':' in s;
  }

  /** `getDirectParent` on the records of its query: none gives an empty
      array, one gives an array of that parent, and `single()` throws on
      more. */
  function DirectParent(parents: seq<string>): (r: Result<seq<string>, Status>)
    ensures r.Err? <==> |parents| > 1
    ensures r.Ok? ==> |r.value| <= 1 && r.value <= parents
    ensures r.Ok? ==> (r.value == [] <==> parents == [])
  {
    if parents == [] then Ok([])
    else if |parents| == 1 then Ok([parents[0]])
    else Err(InternalServerError)
  }
}
