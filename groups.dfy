/** Grouping a list by a key, as the DOT serialiser does to merge edges
    that join the same two nodes. Items are given as two parallel lists: the
    key of each item and its id. */
module Groups {
  import opened Seqs

  /** `getAllIndexes(keys, key)`: the indices holding `key`, ascending. */
  function KeyIndexes<K(==)>(keys: seq<K>, key: K): (r: seq<nat>)
    ensures forall k :: 0 <= k < |r| ==> r[k] < |keys| && keys[r[k]] == key
    decreases |keys|
  {
    if keys == [] then []
    else
      var init := KeyIndexes(keys[..|keys| - 1], key);
      if keys[|keys| - 1] == key then init + [|keys| - 1] else init
  }

  /** Every index holding the key is listed, and the list ascends. */
  lemma {:induction false} KeyIndexesComplete<K>(keys: seq<K>, key: K)
    ensures forall i :: 0 <= i < |keys| && keys[i] == key ==> i in KeyIndexes(keys, key)
    ensures forall k, l :: 0 <= k < l < |KeyIndexes(keys, key)| ==> KeyIndexes(keys, key)[k] < KeyIndexes(keys, key)[l]
    decreases |keys|
  {
    if keys != [] {
      var init := keys[..|keys| - 1];
      KeyIndexesComplete(init, key);
      var r0 := KeyIndexes(init, key);
      var r := KeyIndexes(keys, key);
      assert r == if keys[|keys| - 1] == key then r0 + [|keys| - 1] else r0;
      forall i | 0 <= i < |keys| && keys[i] == key ensures i in r {
        if i < |init| {
          assert init[i] == keys[i];
          assert i in r0;
        }
      }
    }
  }

  /** The group of item `i`. */
  function Group<K(==)>(keys: seq<K>, i: nat): (g: seq<nat>)
    requires i < |keys|
    ensures forall k :: 0 <= k < |g| ==> g[k] < |keys|
  {
    KeyIndexes(keys, keys[i])
  }

  /** No earlier item has the key of item `i`. */
  predicate First<K(==)>(keys: seq<K>, i: nat)
    requires i < |keys|
  {
    forall j :: 0 <= j < i ==> keys[j] != keys[i]
  }

  /** Item `i` is the first of a group of two or more. */
  predicate Head<K(==)>(keys: seq<K>, i: nat)
    requires i < |keys|
  {
    |Group(keys, i)| > 1 && First(keys, i)
  }

  /** A group starts at the first item holding its key, and holds item `i`. */
  lemma GroupStart<K>(keys: seq<K>, i: nat)
    requires i < |keys|
    ensures i in Group(keys, i)
    ensures |Group(keys, i)| > 0
    ensures Group(keys, i)[0] <= i && keys[Group(keys, i)[0]] == keys[i]
    ensures First(keys, i) <==> Group(keys, i)[0] == i
    ensures First(keys, Group(keys, i)[0])
  {
    var g := Group(keys, i);
    KeyIndexesComplete(keys, keys[i]);
    assert i in g;
    assert Min: forall k :: 0 <= k < |g| ==> g[0] <= g[k] by {
      forall k | 0 < k < |g| ensures g[0] < g[k] { }
    }
    forall j | 0 <= j < |keys| && keys[j] == keys[i] ensures g[0] <= j {
      assert j in g;
    }
  }

  /** Items with the same key have the same group. */
  lemma GroupShared<K>(keys: seq<K>, i: nat, j: nat)
    requires i < |keys| && j < |keys| && keys[i] == keys[j]
    ensures Group(keys, i) == Group(keys, j)
  {
  }

  /** The values at the given indices. */
  function Pick<V>(vs: seq<V>, idx: seq<nat>): (r: seq<V>)
    requires forall k :: 0 <= k < |idx| ==> idx[k] < |vs|
    ensures |r| == |idx| && forall k :: 0 <= k < |idx| ==> r[k] == vs[idx[k]]
  {
    if idx == [] then [] else [vs[idx[0]]] + Pick(vs, idx[1..])
  }

  /** The duplicate map after the first `n` items have been visited: a
      group of two or more gets an entry when its first item is visited,
      keyed by that item's id and holding the group's ids in order. */
  function DuplicatesUpTo<K(==), V(==)>(keys: seq<K>, ids: seq<V>, n: nat): map<V, seq<V>>
    requires |keys| == |ids| && n <= |keys|
  {
    if n == 0 then map[]
    else
      var m := DuplicatesUpTo(keys, ids, n - 1);
      var g := Group(keys, n - 1);
      if |g| > 1 && g[0] == n - 1 then m[ids[n - 1] := Pick(ids, g)] else m
  }

  /** With distinct ids, every group of two or more whose first item is
      among the first `n` has an entry, keyed by that item's id and holding
      the group's ids in order. */
  lemma {:induction false} DuplicatesHeads<K, V>(keys: seq<K>, ids: seq<V>, n: nat, i: nat)
    requires |keys| == |ids| && i < n <= |keys| && NoDuplicates(ids) && Head(keys, i)
    ensures ids[i] in DuplicatesUpTo(keys, ids, n)
    ensures DuplicatesUpTo(keys, ids, n)[ids[i]] == Pick(ids, Group(keys, i))
    decreases n
  {
    if i < n - 1 {
      DuplicatesHeads(keys, ids, n - 1, i);
      assert ids[i] != ids[n - 1];
    } else {
      GroupStart(keys, i);
    }
  }

  /** No other id is a key: each key is the id of an item among the first
      `n` that heads a group of two or more. */
  lemma {:induction false} DuplicatesKeys<K, V>(keys: seq<K>, ids: seq<V>, n: nat, v: V) returns (i: nat)
    requires |keys| == |ids| && n <= |keys| && v in DuplicatesUpTo(keys, ids, n)
    ensures i < n && Head(keys, i) && ids[i] == v
    decreases n
  {
    if v in DuplicatesUpTo(keys, ids, n - 1) {
      i := DuplicatesKeys(keys, ids, n - 1, v);
    } else {
      GroupStart(keys, n - 1);
      i := n - 1;
    }
  }

  /** With distinct ids, item `n`'s id is a key of the duplicate map exactly
      when the item heads a group of two or more, and then maps to the
      group's ids. */
  lemma DuplicatesAt<K, V>(keys: seq<K>, ids: seq<V>, n: nat)
    requires |keys| == |ids| && n < |keys| && NoDuplicates(ids)
    ensures ids[n] in DuplicatesUpTo(keys, ids, |keys|) <==> Head(keys, n)
    ensures Head(keys, n) ==> DuplicatesUpTo(keys, ids, |keys|)[ids[n]] == Pick(ids, Group(keys, n))
  {
    if Head(keys, n) {
      DuplicatesHeads(keys, ids, |keys|, n);
    }
    if ids[n] in DuplicatesUpTo(keys, ids, |keys|) {
      var i := DuplicatesKeys(keys, ids, |keys|, ids[n]);
    }
  }

  /** The skip list expected after `n` items: the ids of every group of two
      or more whose first item is among them, group by group. */
  function SkipUpTo<K(==), V>(keys: seq<K>, ids: seq<V>, n: nat): seq<V>
    requires |keys| == |ids| && n <= |keys|
  {
    if n == 0 then []
    else SkipUpTo(keys, ids, n - 1) + (if Head(keys, n - 1) then Pick(ids, Group(keys, n - 1)) else [])
  }

  /** The ids of every group of two or more whose first item comes before
      `n` are in the expected skip list. */
  lemma {:induction false} SkipUpToHas<K, V>(keys: seq<K>, ids: seq<V>, n: nat, i: nat, k: nat)
    requires |keys| == |ids| && i < n <= |keys| && Head(keys, i) && k < |Group(keys, i)|
    ensures ids[Group(keys, i)[k]] in SkipUpTo(keys, ids, n)
    decreases n
  {
    if i < n - 1 {
      SkipUpToHas(keys, ids, n - 1, i, k);
    } else {
      var picked := Pick(ids, Group(keys, i));
      assert picked[k] == ids[Group(keys, i)[k]];
    }
  }

  /** Nothing else is: each listed id belongs to such a group. */
  lemma {:induction false} SkipUpToFrom<K, V>(keys: seq<K>, ids: seq<V>, n: nat, v: V) returns (i: nat, k: nat)
    requires |keys| == |ids| && n <= |keys| && v in SkipUpTo(keys, ids, n)
    ensures i < n && Head(keys, i) && k < |Group(keys, i)| && ids[Group(keys, i)[k]] == v
    decreases n
  {
    if v in SkipUpTo(keys, ids, n - 1) {
      i, k := SkipUpToFrom(keys, ids, n - 1, v);
    } else {
      i := n - 1;
      var picked := Pick(ids, Group(keys, i));
      k :| 0 <= k < |picked| && picked[k] == v;
    }
  }

  /** With distinct ids, item `n`'s id is in the expected skip list exactly
      when an earlier item has the same key. */
  lemma SkipUpToOwnId<K, V>(keys: seq<K>, ids: seq<V>, n: nat)
    requires |keys| == |ids| && n < |keys| && NoDuplicates(ids)
    ensures ids[n] in SkipUpTo(keys, ids, n) <==> !First(keys, n)
  {
    GroupStart(keys, n);
    var g := Group(keys, n);
    if ids[n] in SkipUpTo(keys, ids, n) {
      var i, k := SkipUpToFrom(keys, ids, n, ids[n]);
      assert Group(keys, i)[k] == n;
      assert keys[i] == keys[n];
    }
    if !First(keys, n) {
      var f := g[0];
      GroupStart(keys, f);
      GroupShared(keys, f, n);
      var k :| 0 <= k < |g| && g[k] == n;
      SkipUpToHas(keys, ids, n, f, k);
    }
  }

  /** One step of a pass that skips an item whose id is already listed and
      otherwise lists what the item adds: when an unlisted item adds its
      group exactly when it heads one, the pass keeps matching the
      expected skip list. */
  lemma SkipStep<K, V>(keys: seq<K>, ids: seq<V>, n: nat, prev: seq<V>, added: seq<V>, next: seq<V>)
    requires |keys| == |ids| && 0 < n <= |keys| && NoDuplicates(ids)
    requires prev == SkipUpTo(keys, ids, n - 1)
    requires next == if ids[n - 1] in prev then prev else prev + added
    requires ids[n - 1] !in prev ==> added == if Head(keys, n - 1) then Pick(ids, Group(keys, n - 1)) else []
    ensures next == SkipUpTo(keys, ids, n)
  {
    SkipUpToOwnId(keys, ids, n - 1);
    if ids[n - 1] in prev {
      SkipUpToLater(keys, ids, n);
    } else {
      assert SkipUpTo(keys, ids, n) == prev + added;
    }
  }

  /** An item that is not the first of its key adds nothing to the list. */
  lemma SkipUpToLater<K, V>(keys: seq<K>, ids: seq<V>, n: nat)
    requires |keys| == |ids| && 0 < n <= |keys| && !First(keys, n - 1)
    ensures SkipUpTo(keys, ids, n) == SkipUpTo(keys, ids, n - 1)
  {
    assert !Head(keys, n - 1);
    assert SkipUpTo(keys, ids, n - 1) + [] == SkipUpTo(keys, ids, n - 1);
  }

  /** The groups of two or more recorded after `n` items, in the order
      their first items come. */
  function HeadGroups<K(==)>(keys: seq<K>, n: nat): seq<seq<nat>>
    requires n <= |keys|
  {
    if n == 0 then []
    else HeadGroups(keys, n - 1) + (if Head(keys, n - 1) then [Group(keys, n - 1)] else [])
  }

  /** A group is recorded exactly when its first item comes before `n`. */
  lemma {:induction false} HeadGroupsMembers<K>(keys: seq<K>, n: nat, g: seq<nat>)
    requires n <= |keys|
    ensures g in HeadGroups(keys, n) <==> exists f :: 0 <= f < n && Head(keys, f) && Group(keys, f) == g
    decreases n
  {
    if n > 0 {
      HeadGroupsMembers(keys, n - 1, g);
    }
  }

  /** A group of two or more is already recorded when item `i` is visited
      exactly when `i` is not its first item. */
  lemma HeadGroupsRecorded<K>(keys: seq<K>, i: nat)
    requires i < |keys|
    ensures |Group(keys, i)| > 1 ==> (Group(keys, i) in HeadGroups(keys, i) <==> !First(keys, i))
  {
    var g := Group(keys, i);
    HeadGroupsMembers(keys, i, g);
    GroupStart(keys, i);
    if |g| > 1 {
      if g in HeadGroups(keys, i) {
        var f :| 0 <= f < i && Head(keys, f) && Group(keys, f) == g;
        GroupStart(keys, f);
        assert keys[f] == keys[i];
      }
      if !First(keys, i) {
        var f := g[0];
        GroupStart(keys, f);
        GroupShared(keys, f, i);
        assert Head(keys, f);
      }
    }
  }

  /** One step of the recording loop: a group of two or more not yet
      recorded is recorded now, under the id of its first item. */
  lemma DuplicatesStep<K, V>(keys: seq<K>, ids: seq<V>, i: nat)
    requires |keys| == |ids| && i < |keys|
    ensures var g := Group(keys, i);
      if |g| > 1 && g !in HeadGroups(keys, i) then
        && DuplicatesUpTo(keys, ids, i + 1) == DuplicatesUpTo(keys, ids, i)[ids[g[0]] := Pick(ids, g)]
        && HeadGroups(keys, i + 1) == HeadGroups(keys, i) + [g]
      else
        && DuplicatesUpTo(keys, ids, i + 1) == DuplicatesUpTo(keys, ids, i)
        && HeadGroups(keys, i + 1) == HeadGroups(keys, i)
  {
    HeadGroupsRecorded(keys, i);
    GroupStart(keys, i);
  }
}
