/** Attribute objects of the graph engine (graph, node, edge and cluster
    settings, a node's own `settings`): plain JavaScript objects whose keys
    keep their insertion order. They are association lists here. */
module Attributes {
  import opened Seqs

  /** A property value as it is written into the DOT text: its string form,
      or `undefined`. */
  datatype Value = Str(text: string) | Undefined

  /** `'' + v`. */
  function Render(v: Value): string {
    match v
    case Str(t) => t
    case Undefined => "undefined"
  }

  type Attrs = seq<(string, Value)>

  function Keys(a: Attrs): (ks: seq<string>)
    ensures |ks| == |a|
    ensures forall i :: 0 <= i < |a| ==> ks[i] == a[i].0
  {
    if a == [] then [] else [a[0].0] + Keys(a[1..])
  }

  /** A JavaScript object never holds the same key twice. */
  predicate DistinctKeys(a: Attrs) {
    NoDuplicates(Keys(a))
  }

  predicate HasKey(a: Attrs, k: string) {
    k in Keys(a)
  }

  /** `obj[k]`: the value stored under `k`, `undefined` when absent. */
  function Lookup(a: Attrs, k: string): (v: Value)
    ensures !HasKey(a, k) ==> v == Undefined
  {
    if a == [] then Undefined
    else if a[0].0 == k then a[0].1
    else Lookup(a[1..], k)
  }

  /** `obj[k] = v`: an existing key keeps its place and takes the new value,
      a new key goes at the end. */
  function Assign(a: Attrs, k: string, v: Value): (r: Attrs)
  {
    if a == [] then [(k, v)]
    else if a[0].0 == k then [(k, v)] + a[1..]
    else [a[0]] + Assign(a[1..], k, v)
  }

  /** An assignment keeps the key order: an existing key stays where it is
      and a new key is appended. */
  lemma {:induction false} AssignKeys(a: Attrs, k: string, v: Value)
    ensures Keys(Assign(a, k, v)) == if HasKey(a, k) then Keys(a) else Keys(a) + [k]
  {
    if a != [] && a[0].0 != k {
      AssignKeys(a[1..], k, v);
      assert Keys(a) == [a[0].0] + Keys(a[1..]);
    } else if a != [] {
      assert Keys(a) == [k] + Keys(a[1..]);
    }
  }

  /** After an assignment the key reads back the new value, every other key
      reads what it read before, and the keys stay distinct. */
  lemma {:induction false} AssignLookup(a: Attrs, k: string, v: Value, other: string)
    requires DistinctKeys(a)
    ensures Lookup(Assign(a, k, v), k) == v
    ensures other != k ==> Lookup(Assign(a, k, v), other) == Lookup(a, other)
    ensures DistinctKeys(Assign(a, k, v))
  {
    AssignKeys(a, k, v);
    AssignReads(a, k, v, other);
    if !HasKey(a, k) {
      NoDuplicatesAppend(Keys(a), k);
    }
  }

  lemma {:induction false} AssignReads(a: Attrs, k: string, v: Value, other: string)
    ensures Lookup(Assign(a, k, v), k) == v
    ensures other != k ==> Lookup(Assign(a, k, v), other) == Lookup(a, other)
  {
    if a != [] && a[0].0 != k {
      AssignReads(a[1..], k, v, other);
    }
  }

  /** `for (const key in src) { dst[key] = src[key]; }`, one key after the
      other. */
  function Merge(dst: Attrs, src: Attrs): (r: Attrs)
    decreases |src|
  {
    if src == [] then dst
    else
      var last := src[|src| - 1];
      Assign(Merge(dst, src[..|src| - 1]), last.0, last.1)
  }

  /** After a merge every key of the source reads its source value, every
      other key reads its old value, and the keys stay distinct. */
  lemma {:induction false} MergeLookup(dst: Attrs, src: Attrs, k: string)
    requires DistinctKeys(dst) && DistinctKeys(src)
    ensures DistinctKeys(Merge(dst, src))
    ensures Lookup(Merge(dst, src), k) == if HasKey(src, k) then Lookup(src, k) else Lookup(dst, k)
    decreases |src|
  {
    if src != [] {
      var init, last := src[..|src| - 1], src[|src| - 1];
      SplitLast(src, k);
      MergeLookup(dst, init, k);
      AssignLookup(Merge(dst, init), last.0, last.1, k);
    }
  }

  /** The reads after a merge need distinct keys only in the source: an
      assignment updates the first entry of its key, which is the one read. */
  lemma {:induction false} MergeReads(dst: Attrs, src: Attrs, k: string)
    requires DistinctKeys(src)
    ensures Lookup(Merge(dst, src), k) == if HasKey(src, k) then Lookup(src, k) else Lookup(dst, k)
    decreases |src|
  {
    if src != [] {
      var init, last := src[..|src| - 1], src[|src| - 1];
      SplitLast(src, k);
      MergeReads(dst, init, k);
      AssignReads(Merge(dst, init), last.0, last.1, k);
    }
  }

  /** A list with distinct keys read as its last entry after the others. */
  lemma SplitLast(src: Attrs, k: string)
    requires src != [] && DistinctKeys(src)
    ensures var init, last := src[..|src| - 1], src[|src| - 1];
      && DistinctKeys(init) && !HasKey(init, last.0)
      && (HasKey(src, k) <==> HasKey(init, k) || last.0 == k)
      && Lookup(src, k) == if HasKey(init, k) then Lookup(init, k) else if last.0 == k then last.1 else Undefined
  {
    var init, last := src[..|src| - 1], src[|src| - 1];
    assert src == init + [last];
    AppendKeys(init, last);
    LookupAppend(init, last, k);
    assert Keys(src)[..|init|] == Keys(init);
  }

  lemma {:induction false} AppendKeys(init: Attrs, last: (string, Value))
    ensures Keys(init + [last]) == Keys(init) + [last.0]
  {
    if init != [] {
      assert (init + [last])[1..] == init[1..] + [last];
      AppendKeys(init[1..], last);
    }
  }

  lemma {:induction false} LookupAppend(init: Attrs, last: (string, Value), k: string)
    ensures Lookup(init + [last], k) == if HasKey(init, k) then Lookup(init, k) else if last.0 == k then last.1 else Undefined
  {
    if init != [] {
      assert (init + [last])[1..] == init[1..] + [last];
      LookupAppend(init[1..], last, k);
      assert Keys(init) == [init[0].0] + Keys(init[1..]);
    }
  }

  /** `setGraphSettings` and its kin: the merge loop of the source. */
  method MergeSettings(dst: Attrs, src: Attrs) returns (r: Attrs)
    ensures r == Merge(dst, src)
  {
    r := dst;
    var i := 0;
    while i < |src|
      invariant 0 <= i <= |src|
      invariant r == Merge(dst, src[..i])
    {
      assert src[..i + 1][..i] == src[..i];
      r := Assign(r, src[i].0, src[i].1);
      i := i + 1;
    }
    assert src[..i] == src;
  }
}
