/** Small shared vocabulary: optional values, order-preserving filtering,
    string-keyed records kept in key order (a JavaScript object or a PHP
    array as JSON sees it), and id-ordered listings of a table. */
module Common {

  datatype Option<T> = None | Some(value: T) {
    function GetOr(default: T): T {
      if Some? then value else default
    }
  }

  datatype Result<T, E> = Ok(value: T) | Err(error: E)

  function Max(a: int, b: int): int {
    if a >= b then a else b
  }

  /** The elements of `s` that satisfy `p`, in their original order. */
  function Filter<T>(s: seq<T>, p: T -> bool): (r: seq<T>)
    ensures |r| <= |s|
    ensures forall i :: 0 <= i < |r| ==> r[i] in s && p(r[i])
    ensures forall i :: 0 <= i < |s| && p(s[i]) ==> s[i] in r
  {
    if s == [] then [] else Filter(s[..|s| - 1], p) + (if p(s[|s| - 1]) then [s[|s| - 1]] else [])
  }

  /** An element is kept exactly when it is in `s` and satisfies `p`. */
  lemma FilterMember<T>(s: seq<T>, p: T -> bool, x: T)
    ensures x in Filter(s, p) <==> x in s && p(x)
  {
    var r := Filter(s, p);
    if x in r {
      var i :| 0 <= i < |r| && r[i] == x;
      assert r[i] in s && p(r[i]);
    }
    if x in s && p(x) {
      var i :| 0 <= i < |s| && s[i] == x;
      assert s[i] in r;
    }
  }

  lemma {:induction false} FilterAppend<T>(a: seq<T>, b: seq<T>, p: T -> bool)
    ensures Filter(a + b, p) == Filter(a, p) + Filter(b, p)
    decreases |b|
  {
    if b == [] {
      assert a + b == a;
    } else {
      var n := |b| - 1;
      assert (a + b)[..|a + b| - 1] == a + b[..n];
      assert (a + b)[|a + b| - 1] == b[n];
      FilterAppend(a, b[..n], p);
    }
  }

  lemma {:induction false} FilterAll<T>(s: seq<T>, p: T -> bool)
    requires forall i :: 0 <= i < |s| ==> p(s[i])
    ensures Filter(s, p) == s
    decreases |s|
  {
    if s != [] {
      var n := |s| - 1;
      var front := s[..n];
      assert forall i :: 0 <= i < |front| ==> front[i] == s[i];
      FilterAll(front, p);
      assert s == front + [s[n]];
    }
  }

  lemma {:induction false} FilterNone<T>(s: seq<T>, p: T -> bool)
    requires forall i :: 0 <= i < |s| ==> !p(s[i])
    ensures Filter(s, p) == []
    decreases |s|
  {
    if s != [] {
      var n := |s| - 1;
      var front := s[..n];
      assert forall i :: 0 <= i < |front| ==> front[i] == s[i];
      FilterNone(front, p);
    }
  }

  /** A relation that holds between every earlier and later element still holds after filtering. */
  lemma {:induction false} FilterKeepsPairs<T>(s: seq<T>, p: T -> bool, rel: (T, T) -> bool)
    requires forall i, j :: 0 <= i < j < |s| ==> rel(s[i], s[j])
    ensures forall i, j :: 0 <= i < j < |Filter(s, p)| ==> rel(Filter(s, p)[i], Filter(s, p)[j])
    decreases |s|
  {
    if s != [] {
      var n := |s| - 1;
      var r0 := Filter(s[..n], p);
      FilterKeepsPairs(s[..n], p, rel);
      var r := Filter(s, p);
      assert r == r0 + (if p(s[n]) then [s[n]] else []);
      forall i, j | 0 <= i < j < |r|
        ensures rel(r[i], r[j])
      {
        if j < |r0| {
          assert r[i] == r0[i] && r[j] == r0[j];
        } else {
          assert r[j] == s[n] && r[i] == r0[i];
          var m :| 0 <= m < n && s[..n][m] == r0[i];
          assert rel(s[m], s[n]);
        }
      }
    }
  }

  /** An ordered record: key/value pairs in insertion order. */
  type Record<V> = seq<(string, V)>

  function Keys<V>(r: Record<V>): (ks: seq<string>)
    ensures |ks| == |r|
    ensures forall i :: 0 <= i < |r| ==> ks[i] == r[i].0
  {
    seq(|r|, i requires 0 <= i < |r| => r[i].0)
  }

  predicate DistinctKeys<V>(r: Record<V>) {
    forall i, j :: 0 <= i < j < |r| ==> r[i].0 != r[j].0
  }

  /** The position of key `k`, or `|r|` when it is absent. */
  function IndexOf<V>(r: Record<V>, k: string): (i: nat)
    ensures i <= |r|
    ensures i < |r| ==> r[i].0 == k
    ensures forall j :: 0 <= j < i ==> r[j].0 != k
  {
    if r == [] then 0 else if r[0].0 == k then 0 else 1 + IndexOf(r[1..], k)
  }

  lemma IndexOfIs<V>(r: Record<V>, k: string, i: nat)
    requires i <= |r| && (i < |r| ==> r[i].0 == k) && forall j :: 0 <= j < i ==> r[j].0 != k
    ensures IndexOf(r, k) == i
  {
  }

  /** The value stored under `k`, looked up as a JavaScript object would. */
  function Lookup<V>(r: Record<V>, k: string): (v: Option<V>)
    ensures v.None? <==> k !in Keys(r)
    ensures v.Some? ==> (k, v.value) in r
  {
    var i := IndexOf(r, k);
    if i < |r| then Some(r[i].1) else None
  }

  /** A last pair under another key does not change a lookup. */
  lemma LookupLast<V>(r: Record<V>, k: string)
    requires r != [] && r[|r| - 1].0 != k
    ensures Lookup(r, k) == Lookup(r[..|r| - 1], k)
  {
    var front := r[..|r| - 1];
    var i := IndexOf(front, k);
    assert forall j :: 0 <= j < |front| ==> front[j] == r[j];
    if i < |front| {
      IndexOfIs(r, k, i);
    } else {
      IndexOfIs(r, k, |r|);
    }
  }

  lemma LookupAt<V>(r: Record<V>, i: nat)
    requires DistinctKeys(r) && i < |r|
    ensures Lookup(r, r[i].0) == Some(r[i].1)
  {
    assert IndexOf(r, r[i].0) == i;
  }

  /** Assigning `r[k] = v`: a present key keeps its place and takes the new
      value, an absent key is appended (a PHP array assignment, a JavaScript
      property write or `{ ...r, [k]: v }`). */
  function Put<V>(r: Record<V>, k: string, v: V): (r': Record<V>)
    ensures k in Keys(r) ==> |r'| == |r|
    ensures k !in Keys(r) ==> r' == r + [(k, v)]
    ensures forall i :: 0 <= i < |r| && r[i].0 != k ==> r'[i] == r[i]
    ensures DistinctKeys(r) ==> DistinctKeys(r')
  {
    var i := IndexOf(r, k);
    if i < |r| then r[i := (k, v)] else r + [(k, v)]
  }

  /** After `r[k] = v`, `k` holds `v` and every other key holds what it held. */
  lemma LookupPut<V>(r: Record<V>, k: string, v: V, j: string)
    ensures Lookup(Put(r, k, v), j) == if j == k then Some(v) else Lookup(r, j)
  {
    var i, r' := IndexOf(r, k), Put(r, k, v);
    if j == k {
      IndexOfIs(r', j, i);
    } else {
      var m := IndexOf(r, j);
      if m < |r| {
        IndexOfIs(r', j, m);
      } else {
        IndexOfIs(r', j, |r'|);
      }
    }
  }

  /** `delete r[k]`: the other keys keep their order and values. */
  function Without<V>(r: Record<V>, k: string): (r': Record<V>)
    ensures forall i :: 0 <= i < |r'| ==> r'[i] in r && r'[i].0 != k
    ensures forall i :: 0 <= i < |r| && r[i].0 != k ==> r[i] in r'
  {
    Filter(r, (e: (string, V)) => e.0 != k)
  }

  lemma LookupWithout<V>(r: Record<V>, k: string, j: string)
    requires DistinctKeys(r)
    ensures Lookup(Without(r, k), j) == if j == k then None else Lookup(r, j)
  {
    var r' := Without(r, k);
    WithoutDistinct(r, k);
    if j != k {
      var m := IndexOf(r, j);
      if m < |r| {
        LookupAt(r, m);
        var x :| 0 <= x < |r'| && r'[x] == r[m];
        LookupAt(r', x);
      }
    }
  }

  lemma {:induction false} WithoutDistinct<V>(r: Record<V>, k: string)
    requires DistinctKeys(r)
    ensures DistinctKeys(Without(r, k))
    decreases |r|
  {
    if r != [] {
      var n := |r| - 1;
      WithoutDistinct(r[..n], k);
      assert forall e :: e in Without(r[..n], k) ==> e in r[..n];
    }
  }

  /** The rows of table `m` whose ids are below `n`, in ascending id order:
      the order in which an unordered query returns them. */
  function InIdOrder<V>(m: map<nat, V>, n: nat): (rows: seq<(nat, V)>)
    ensures forall i :: 0 <= i < |rows| ==> rows[i].0 < n && rows[i].0 in m && m[rows[i].0] == rows[i].1
    ensures forall k :: k < n && k in m ==> (k, m[k]) in rows
    ensures forall i, j :: 0 <= i < j < |rows| ==> rows[i].0 < rows[j].0
  {
    if n == 0 then [] else InIdOrder(m, n - 1) + (if n - 1 in m then [(n - 1, m[n - 1])] else [])
  }

  /** The keys of `m` whose value is `v`. */
  function KeysWith<V(==)>(m: map<nat, V>, v: V): (ks: set<nat>)
    ensures forall k :: k in ks <==> k in m && m[k] == v
  {
    set k | k in m && m[k] == v
  }

  lemma KeysWithoutOne<V>(m: map<nat, V>, k: nat, v: V)
    requires k in m
    ensures |KeysWith(m, v)| == |KeysWith(m - {k}, v)| + (if m[k] == v then 1 else 0)
  {
    var all, others := KeysWith(m, v), KeysWith(m - {k}, v);
    if m[k] == v {
      assert all == others + {k};
    } else {
      assert all == others;
    }
  }
}
