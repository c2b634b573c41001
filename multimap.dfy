/** Grouping key/value pairs into a map from each key to its values in the
    order they came: the fold over the back end's parent/descendant query
    results and the front end's inversion of the child→parent map. */
module Multimap {

  function Firsts(pairs: seq<(string, string)>): (r: seq<string>)
    ensures |r| == |pairs|
    ensures forall i :: 0 <= i < |pairs| ==> r[i] == pairs[i].0
  {
    if pairs == [] then [] else [pairs[0].0] + Firsts(pairs[1..])
  }

  /** The values paired with `k`, in order. */
  function ValuesUnder(pairs: seq<(string, string)>, k: string): (r: seq<string>)
    ensures |r| <= |pairs|
  {
    if pairs == [] then []
    else
      var last := pairs[|pairs| - 1];
      ValuesUnder(pairs[..|pairs| - 1], k) + (if last.0 == k then [last.1] else [])
  }

  /** `m` maps exactly the keys of `pairs`, each to its values in order. */
  ghost predicate IsGrouping(m: map<string, seq<string>>, pairs: seq<(string, string)>) {
    && (forall k :: k in m <==> k in Firsts(pairs))
    && (forall k :: k in m ==> m[k] == ValuesUnder(pairs, k))
  }

  /** Appending one pair to the list under its key keeps the map a
      grouping of one more pair. */
  lemma GroupingStep(m: map<string, seq<string>>, pairs: seq<(string, string)>, i: nat)
    requires i < |pairs| && IsGrouping(m, pairs[..i])
    ensures
      var (k, v) := pairs[i];
      IsGrouping(m[k := (if k in m then m[k] else []) + [v]], pairs[..i + 1])
  {
    var (k, v) := pairs[i];
    var prev, next := pairs[..i], pairs[..i + 1];
    var m' := m[k := (if k in m then m[k] else []) + [v]];
    FirstsStep(pairs, i);
    forall k' ensures k' in m' <==> k' in Firsts(next) {
      assert k' in Firsts(prev) + [k] <==> k' in Firsts(prev) || k' == k;
    }
    forall k' | k' in m'
      ensures m'[k'] == ValuesUnder(next, k')
    {
      ValuesUnderStep(pairs, i, k');
      if k' == k && k !in m && ValuesUnder(prev, k) != [] {
        ValuesUnderKeys(prev, k);
      }
    }
  }

  /** The keys after one more pair. */
  lemma FirstsStep(pairs: seq<(string, string)>, i: nat)
    requires i < |pairs|
    ensures Firsts(pairs[..i + 1]) == Firsts(pairs[..i]) + [pairs[i].0]
  {
    var a, b := Firsts(pairs[..i + 1]), Firsts(pairs[..i]) + [pairs[i].0];
    assert |a| == |b|;
    forall j | 0 <= j < |a|
      ensures a[j] == b[j]
    {
      if j < i {
        assert pairs[..i + 1][j] == pairs[..i][j];
      }
    }
  }

  /** The values under a key after one more pair. */
  lemma ValuesUnderStep(pairs: seq<(string, string)>, i: nat, k: string)
    requires i < |pairs|
    ensures pairs[i].0 == k ==> ValuesUnder(pairs[..i + 1], k) == ValuesUnder(pairs[..i], k) + [pairs[i].1]
    ensures pairs[i].0 != k ==> ValuesUnder(pairs[..i + 1], k) == ValuesUnder(pairs[..i], k)
  {
    assert pairs[..i + 1][..i] == pairs[..i];
    if pairs[i].0 != k {
      assert ValuesUnder(pairs[..i], k) + [] == ValuesUnder(pairs[..i], k);
    }
  }

  lemma {:induction false} ValuesUnderKeys(pairs: seq<(string, string)>, k: string)
    requires ValuesUnder(pairs, k) != []
    ensures k in Firsts(pairs)
  {
    var init := pairs[..|pairs| - 1];
    if pairs[|pairs| - 1].0 != k {
      var prev := ValuesUnder(init, k);
      assert ValuesUnder(pairs, k) == prev + [];
      assert prev + [] == prev;
      ValuesUnderKeys(init, k);
      var j :| 0 <= j < |init| && Firsts(init)[j] == k;
      assert pairs[j] == init[j];
      assert Firsts(pairs)[j] == k;
    } else {
      assert Firsts(pairs)[|pairs| - 1] == k;
    }
  }

  /** `v` is listed under `k` exactly when the pair `(k, v)` occurs. */
  lemma {:induction false} ValuesUnderMembers(pairs: seq<(string, string)>, k: string, v: string)
    ensures v in ValuesUnder(pairs, k) <==> (k, v) in pairs
  {
    if pairs != [] {
      var init := pairs[..|pairs| - 1];
      ValuesUnderMembers(init, k, v);
      assert pairs == init + [pairs[|pairs| - 1]];
    }
  }

  /** The values under a key follow the pairs: grouping the concatenation
      of two lists appends the values of the second. */
  lemma {:induction false} ValuesUnderAppend(a: seq<(string, string)>, b: seq<(string, string)>, k: string)
    ensures ValuesUnder(a + b, k) == ValuesUnder(a, k) + ValuesUnder(b, k)
  {
    if b != [] {
      var init := b[..|b| - 1];
      ValuesUnderAppend(a, init, k);
      assert (a + b)[..|a + b| - 1] == a + init;
    } else {
      assert a + b == a;
    }
  }

  /** The empty map groups no pairs. */
  lemma GroupingEmpty(pairs: seq<(string, string)>)
    requires pairs == []
    ensures IsGrouping(map[], pairs)
  {
  }

  /** In a grouping, `v` is listed under `k` exactly when the pair `(k, v)`
      occurs. */
  lemma GroupingMembers(m: map<string, seq<string>>, pairs: seq<(string, string)>, k: string, v: string)
    requires IsGrouping(m, pairs) && k in m
    ensures v in m[k] <==> (k, v) in pairs
  {
    ValuesUnderMembers(pairs, k, v);
  }
}
