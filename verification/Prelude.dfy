/** Shared vocabulary: results, bytes, digests, and sums over finite maps. */
module Prelude {
  datatype Option<+T> = None | Some(value: T)

  datatype Result<+T, +E> = Ok(value: T) | Err(error: E)

  newtype Byte = x: int | 0 <= x < 256

  type Bytes = seq<Byte>

  /** A BLAKE3 digest, kept symbolic: two digests are equal exactly when the
      hashed bytes are. This is the collision-freedom the store relies on. */
  datatype Digest = Blake3(of: Bytes)

  /** Concatenation of a list of byte strings. */
  function Concat(parts: seq<Bytes>): Bytes {
    if parts == [] then [] else parts[0] + Concat(parts[1..])
  }

  lemma {:induction false} ConcatSnoc(parts: seq<Bytes>, last: Bytes)
    ensures Concat(parts + [last]) == Concat(parts) + last
  {
    if parts == [] {
      assert parts + [last] == [last];
      assert Concat([last]) == last + Concat([]);
    } else {
      assert (parts + [last])[1..] == parts[1..] + [last];
      ConcatSnoc(parts[1..], last);
    }
  }

  // ---------- sums over finite maps ----------

  lemma Shrinks<K, V>(m: map<K, V>, k: K)
    requires k in m
    ensures |m - {k}| < |m| && m == (m - {k})[k := m[k]]
  {
    assert m.Keys == (m - {k}).Keys + {k};
  }

  /** The sum of the values of a finite map. */
  ghost function Sum<K(!new)>(m: map<K, nat>): nat
    decreases |m|
  {
    if m == map[] then 0
    else
      var k :| k in m;
      Shrinks(m, k);
      m[k] + Sum(m - {k})
  }

  lemma {:induction false} SumRemove<K(!new)>(m: map<K, nat>, k: K)
    requires k in m
    ensures Sum(m) == m[k] + Sum(m - {k})
    decreases |m|
  {
    var j :| j in m && Sum(m) == m[j] + Sum(m - {j});
    if j != k {
      Shrinks(m, j);
      SumRemove(m - {j}, k);
      Shrinks(m, k);
      SumRemove(m - {k}, j);
      assert m - {j} - {k} == m - {k} - {j};
    }
  }

  lemma SumInsert<K(!new)>(m: map<K, nat>, k: K, n: nat)
    requires k !in m
    ensures Sum(m[k := n]) == Sum(m) + n
  {
    SumRemove(m[k := n], k);
    assert m[k := n] - {k} == m;
  }

  lemma UnionInsert<K, V>(a: map<K, V>, b: map<K, V>, k: K, v: V)
    requires k !in b
    ensures a[k := v] + b == (a + b)[k := v]
  {
    var l, r := a[k := v] + b, (a + b)[k := v];
    assert l.Keys == r.Keys;
    forall x | x in l ensures l[x] == r[x] {
      if x in b { assert l[x] == b[x]; }
    }
  }

  lemma SumUnionStep<K(!new)>(rest: map<K, nat>, b: map<K, nat>, k: K, n: nat)
    requires k !in rest && k !in b
    requires Sum(rest + b) == Sum(rest) + Sum(b)
    ensures Sum(rest[k := n] + b) == Sum(rest[k := n]) + Sum(b)
  {
    SumInsert(rest, k, n);
    SumInsert(rest + b, k, n);
    UnionInsert(rest, b, k, n);
  }

  lemma {:induction false} SumUnion<K(!new)>(a: map<K, nat>, b: map<K, nat>)
    requires a.Keys !! b.Keys
    ensures Sum(a + b) == Sum(a) + Sum(b)
    decreases |a|
  {
    if a == map[] {
      assert a + b == b;
    } else {
      var k :| k in a;
      Shrinks(a, k);
      SumUnion(a - {k}, b);
      SumUnionStep(a - {k}, b, k, a[k]);
    }
  }

  lemma {:induction false} SumMonotone<K(!new)>(a: map<K, nat>, b: map<K, nat>)
    requires forall k :: k in a ==> k in b && a[k] <= b[k]
    ensures Sum(a) <= Sum(b)
    decreases |a|
  {
    if a == map[] {
    } else {
      var k :| k in a;
      SumRemove(a, k);
      SumRemove(b, k);
      Shrinks(a, k);
      SumMonotone(a - {k}, b - {k});
    }
  }
}
