/** Grouping a list by a key into an insertion-ordered dictionary, the way
    Laravel's `Collection::groupBy` and a JavaScript object filled by a
    `forEach` both do it: a key is added the first time an element carries
    it, and each group keeps its elements in input order. */
module Grouping {
  import opened Common

  /** A dictionary of groups: its keys in insertion order, and each key's elements. */
  datatype Groups<K, T> = Groups(keys: seq<K>, members: map<K, seq<T>>)

  /** Adding one element: appended to its key's group, or a new group at the end. */
  function Add<K, T>(g: Groups<K, T>, k: K, x: T): Groups<K, T> {
    if k in g.members then g.(members := g.members[k := g.members[k] + [x]])
    else Groups(g.keys + [k], g.members[k := [x]])
  }

  function GroupBy<T, K>(s: seq<T>, key: T -> K): Groups<K, T>
    decreases |s|
  {
    if s == [] then Groups([], map[])
    else
      var n := |s| - 1;
      Add(GroupBy(s[..n], key), key(s[n]), s[n])
  }

  /** One step of `GroupBy`. */
  lemma {:induction false} GroupByStep<T, K>(s: seq<T>, key: T -> K, x: T)
    ensures GroupBy(s + [x], key) == Add(GroupBy(s, key), key(x), x)
  {
    assert (s + [x])[..|s|] == s;
  }

  /** The keys are listed once each, and exactly the keys that have a group. */
  lemma {:induction false} GroupByKeys<T, K>(s: seq<T>, key: T -> K)
    ensures forall i, j :: 0 <= i < j < |GroupBy(s, key).keys| ==> GroupBy(s, key).keys[i] != GroupBy(s, key).keys[j]
    ensures forall k :: k in GroupBy(s, key).keys <==> k in GroupBy(s, key).members
    decreases |s|
  {
    if s != [] {
      var n := |s| - 1;
      GroupByKeys(s[..n], key);
      var p := GroupBy(s[..n], key);
      assert forall k :: k in p.keys <==> k in p.members;
      assert GroupBy(s, key) == Add(p, key(s[n]), s[n]);
    }
  }

  /** The test "element carries key `k`". */
  function HasKey<T, K(==)>(key: T -> K, k: K): T -> bool {
    (x: T) => key(x) == k
  }

  /** Each group is exactly the elements carrying its key, in input order;
      a key no element carries has no group. */
  lemma {:induction false} GroupIsFilter<T, K>(s: seq<T>, key: T -> K, k: K)
    ensures (if k in GroupBy(s, key).members then GroupBy(s, key).members[k] else []) == Filter(s, HasKey(key, k))
    decreases |s|
  {
    if s != [] {
      GroupIsFilter(s[..|s| - 1], key, k);
    }
  }

  /** No group is empty. */
  lemma {:induction false} NoEmptyGroup<T, K>(s: seq<T>, key: T -> K)
    ensures forall k :: k in GroupBy(s, key).members ==> GroupBy(s, key).members[k] != []
    decreases |s|
  {
    if s != [] {
      var n := |s| - 1;
      NoEmptyGroup(s[..n], key);
      var p := GroupBy(s[..n], key);
      assert GroupBy(s, key) == Add(p, key(s[n]), s[n]);
    }
  }

  /** An element lies in the group of its own key and of no other. */
  lemma {:induction false} GroupOfElement<T, K>(s: seq<T>, key: T -> K, i: nat, k: K)
    requires i < |s|
    ensures (k in GroupBy(s, key).members && s[i] in GroupBy(s, key).members[k]) <==> key(s[i]) == k
  {
    GroupIsFilter(s, key, k);
  }

  /** A relation that holds from every earlier to every later element of
      the input holds within each group. */
  lemma {:induction false} GroupKeepsPairs<T, K>(s: seq<T>, key: T -> K, k: K, rel: (T, T) -> bool)
    requires forall i, j :: 0 <= i < j < |s| ==> rel(s[i], s[j])
    requires k in GroupBy(s, key).members
    ensures var group := GroupBy(s, key).members[k];
      forall i, j :: 0 <= i < j < |group| ==> rel(group[i], group[j])
  {
    GroupIsFilter(s, key, k);
    FilterKeepsPairs(s, HasKey(key, k), rel);
  }

  /** The number of elements held by the groups listed in `keys`. */
  function GroupedCount<K, T>(keys: seq<K>, members: map<K, seq<T>>): nat
    requires forall k :: k in keys ==> k in members
  {
    if keys == [] then 0
    else GroupedCount(keys[..|keys| - 1], members) + |members[keys[|keys| - 1]]|
  }

  lemma {:induction false} CountIgnoresOthers<K, T>(keys: seq<K>, members: map<K, seq<T>>, k: K, v: seq<T>)
    requires (forall j :: j in keys ==> j in members) && k !in keys
    ensures GroupedCount(keys, members[k := v]) == GroupedCount(keys, members)
    decreases |keys|
  {
    if keys != [] {
      CountIgnoresOthers(keys[..|keys| - 1], members, k, v);
    }
  }

  lemma {:induction false} CountGrowsAt<K, T>(keys: seq<K>, members: map<K, seq<T>>, k: K, x: T)
    requires forall j :: j in keys ==> j in members
    requires forall i, j :: 0 <= i < j < |keys| ==> keys[i] != keys[j]
    requires k in keys
    ensures GroupedCount(keys, members[k := members[k] + [x]]) == GroupedCount(keys, members) + 1
    decreases |keys|
  {
    var n := |keys| - 1;
    if keys[n] == k {
      assert k !in keys[..n];
      CountIgnoresOthers(keys[..n], members, k, members[k] + [x]);
    } else {
      assert k in keys[..n];
      CountGrowsAt(keys[..n], members, k, x);
    }
  }

  /** The group sizes add up to the number of elements. */
  lemma {:induction false} GroupSizesSum<T, K>(s: seq<T>, key: T -> K)
    ensures forall k :: k in GroupBy(s, key).keys ==> k in GroupBy(s, key).members
    ensures GroupedCount(GroupBy(s, key).keys, GroupBy(s, key).members) == |s|
    decreases |s|
  {
    GroupByKeys(s, key);
    if s != [] {
      var n := |s| - 1;
      var p := GroupBy(s[..n], key);
      GroupSizesSum(s[..n], key);
      GroupByKeys(s[..n], key);
      var k := key(s[n]);
      assert GroupBy(s, key) == Add(p, k, s[n]);
      if k in p.members {
        assert k in p.keys;
        CountGrowsAt(p.keys, p.members, k, s[n]);
      } else {
        CountIgnoresOthers(p.keys, p.members, k, [s[n]]);
      }
    }
  }

  /** The position of the first element carrying key `k`, or `|s|` if none does. */
  function FirstIndex<T, K(==)>(s: seq<T>, key: T -> K, k: K): (i: nat)
    ensures i <= |s|
    ensures i < |s| ==> key(s[i]) == k
    ensures forall j :: 0 <= j < i ==> key(s[j]) != k
  {
    if s == [] then 0
    else if key(s[0]) == k then 0
    else 1 + FirstIndex(s[1..], key, k)
  }

  lemma {:induction false} FirstIndexAppend<T, K>(s: seq<T>, key: T -> K, x: T, k: K)
    ensures FirstIndex(s + [x], key, k) ==
      if FirstIndex(s, key, k) < |s| then FirstIndex(s, key, k)
      else if key(x) == k then |s| else |s| + 1
    decreases |s|
  {
    if s != [] && key(s[0]) != k {
      assert (s + [x])[1..] == s[1..] + [x];
      FirstIndexAppend(s[1..], key, x, k);
    }
  }

  /** Groups appear in the order in which their keys first occur. */
  lemma {:induction false} KeysInFirstOccurrenceOrder<T, K>(s: seq<T>, key: T -> K)
    ensures forall i :: 0 <= i < |GroupBy(s, key).keys| ==> FirstIndex(s, key, GroupBy(s, key).keys[i]) < |s|
    ensures forall i, j :: 0 <= i < j < |GroupBy(s, key).keys| ==>
      FirstIndex(s, key, GroupBy(s, key).keys[i]) < FirstIndex(s, key, GroupBy(s, key).keys[j])
    decreases |s|
  {
    if s != [] {
      var n := |s| - 1;
      var p, x := s[..n], s[n];
      assert s == p + [x];
      KeysInFirstOccurrenceOrder(p, key);
      GroupByKeys(p, key);
      var g0 := GroupBy(p, key);
      var g := GroupBy(s, key);
      forall i | 0 <= i < |g0.keys|
        ensures FirstIndex(s, key, g0.keys[i]) == FirstIndex(p, key, g0.keys[i])
      {
        assert FirstIndex(p, key, g0.keys[i]) < |p|;
        FirstIndexAppend(p, key, x, g0.keys[i]);
      }
      if key(x) !in g0.members {
        GroupIsFilter(p, key, key(x));
        FilterFirstIndex(p, key, key(x));
        FirstIndexAppend(p, key, x, key(x));
        assert g.keys == g0.keys + [key(x)];
        assert FirstIndex(s, key, key(x)) == |p|;
      } else {
        assert g.keys == g0.keys;
      }
      forall i | 0 <= i < |g.keys|
        ensures FirstIndex(s, key, g.keys[i]) < |s|
      {
        if i < |g0.keys| {
          assert g.keys[i] == g0.keys[i];
        }
      }
      forall i, j | 0 <= i < j < |g.keys|
        ensures FirstIndex(s, key, g.keys[i]) < FirstIndex(s, key, g.keys[j])
      {
        assert g.keys[i] == g0.keys[i];
        if j < |g0.keys| {
          assert g.keys[j] == g0.keys[j];
        }
      }
    }
  }

  /** A key with no element has no first position. */
  lemma {:induction false} FilterFirstIndex<T, K>(s: seq<T>, key: T -> K, k: K)
    requires Filter(s, HasKey(key, k)) == []
    ensures FirstIndex(s, key, k) == |s|
  {
  }

  /** The dictionary as a record: each key with its group, in key order. */
  function ToRecord<T>(g: Groups<string, T>): (r: Record<seq<T>>)
    requires forall k :: k in g.keys ==> k in g.members
    ensures |r| == |g.keys|
    ensures forall i :: 0 <= i < |r| ==> r[i] == (g.keys[i], g.members[g.keys[i]])
  {
    seq(|g.keys|, i requires 0 <= i < |g.keys| => (g.keys[i], g.members[g.keys[i]]))
  }
}
