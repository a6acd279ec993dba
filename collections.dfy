/**
 * Go's iteration over a map visits its entries in an unspecified
 * order. The loops below pick the next key with `:|`, so they hold for
 * every visiting order, and their results are stated up to order: as the
 * multiset of the map's values, or as exactly the set of its keys.
 */
module Collections {

  /** n copies of x. */
  function Repeat<T>(x: T, n: nat): (r: seq<T>)
    ensures |r| == n && forall k :: 0 <= k < n ==> r[k] == x
  {
    seq(n, _ => x)
  }

  /** x occurs n times in n copies of itself, and nothing else occurs. */
  lemma {:induction false} RepeatCount<T>(x: T, n: nat, y: T)
    ensures multiset(Repeat(x, n))[y] == if y == x then n else 0
  {
    if n > 0 {
      RepeatCount(x, n - 1, y);
      assert Repeat(x, n) == Repeat(x, n - 1) + [x];
    }
  }

  /** Some key of a non-empty map: the one a traversal would take next. */
  ghost function Pick<K, V>(m: map<K, V>): (k: K)
    requires |m| != 0
    ensures k in m
  {
    var k :| k in m; k
  }

  lemma RemoveTwice<K, V>(m: map<K, V>, j: K, k: K)
    ensures m - {j} - {k} == m - {k} - {j}
  {
  }

  lemma UpdateThenRemove<K, V>(m: map<K, V>, k: K, v: V)
    ensures m[k := v] - {k} == m - {k}
  {
  }

  lemma RemoveAbsent<K, V>(m: map<K, V>, k: K)
    requires k !in m
    ensures m - {k} == m
  {
  }

  /** The values of `m`, one per key, as a multiset. */
  ghost function Bag<K, V>(m: map<K, V>): multiset<V>
    decreases |m|
  {
    if |m| == 0 then multiset{}
    else
      var k := Pick(m);
      multiset{m[k]} + Bag(m - {k})
  }

  /** Taking out any key takes out exactly its value. */
  lemma {:induction false} BagRemove<K, V>(m: map<K, V>, k: K)
    requires k in m
    ensures Bag(m) == multiset{m[k]} + Bag(m - {k})
    decreases |m|
  {
    var j := Pick(m);
    if j != k {
      var mj, mk := m - {j}, m - {k};
      RemoveTwice(m, j, k);
      BagRemove(mj, k);
      BagRemove(mk, j);
      assert Bag(m) == multiset{m[j]} + multiset{m[k]} + Bag(mk - {j});
    }
  }

  lemma {:induction false} BagSize<K, V>(m: map<K, V>)
    ensures |Bag(m)| == |m|
    decreases |m|
  {
    if |m| != 0 {
      var k :| k in m;
      BagRemove(m, k);
      BagSize(m - {k});
    }
  }

  /** A value is in the bag exactly when some key maps to it. */
  lemma {:induction false} BagMember<K, V>(m: map<K, V>, v: V)
    ensures v in Bag(m) <==> exists k :: k in m && m[k] == v
    decreases |m|
  {
    if |m| != 0 {
      var k :| k in m;
      BagRemove(m, k);
      BagMember(m - {k}, v);
      if v in Bag(m - {k}) {
        var j :| j in m - {k} && (m - {k})[j] == v;
        assert j in m && m[j] == v;
      }
      if exists j :: j in m && m[j] == v {
        var j :| j in m && m[j] == v;
        if j != k {
          assert j in m - {k} && (m - {k})[j] == v;
        }
      }
    }
  }

  /** The values of a map gathered into a list, in whatever order the map is iterated. */
  method CollectValues<K, V>(m: map<K, V>) returns (out: seq<V>)
    ensures multiset(out) == Bag(m)
    ensures |out| == |m|
  {
    out := [];
    var rest := m;
    while |rest| != 0
      invariant multiset(out) + Bag(rest) == Bag(m)
      decreases |rest|
    {
      var k :| k in rest;
      BagRemove(rest, k);
      assert multiset(out + [rest[k]]) == multiset(out) + multiset{rest[k]};
      out := out + [rest[k]];
      rest := rest - {k};
    }
    BagSize(m);
    assert |multiset(out)| == |out|;
  }

  /** The keys of a map used as a set gathered into a list, in whatever order the map is iterated. */
  method CollectKeys<K>(s: set<K>) returns (out: seq<K>)
    ensures |out| == |s|
    ensures forall x :: x in out <==> x in s
  {
    out := [];
    var rest := s;
    while rest != {}
      invariant rest <= s
      invariant forall x :: x in out <==> x in s - rest
      invariant |out| == |s - rest|
      decreases rest
    {
      var k :| k in rest;
      assert s - (rest - {k}) == (s - rest) + {k};
      out := out + [k];
      rest := rest - {k};
    }
  }
}
