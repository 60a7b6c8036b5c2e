// PHP's ordered associative arrays with string keys, as a sequence of
// key/value pairs. Assigning to an existing key replaces the value in its
// original position; assigning to a new key appends; `+` is the left-biased
// union that keeps every key of the left operand.
module OrderedMap {
  import opened Common

  type OMap<V> = seq<(string, V)>

  function Keys<V>(m: OMap<V>): (ks: seq<string>)
    ensures |ks| == |m|
    ensures forall i :: 0 <= i < |m| ==> ks[i] == m[i].0
  {
    if m == [] then [] else [m[0].0] + Keys(m[1..])
  }

  function Values<V>(m: OMap<V>): (vs: seq<V>)
    ensures |vs| == |m|
    ensures forall i :: 0 <= i < |m| ==> vs[i] == m[i].1
  {
    seq(|m|, i requires 0 <= i < |m| => m[i].1)
  }

  predicate HasKey<V>(m: OMap<V>, k: string)
  {
    k in Keys(m)
  }

  /** No key appears twice: the shape every PHP array has. */
  predicate UniqueKeys<V>(m: OMap<V>)
  {
    forall i, j :: 0 <= i < j < |m| ==> m[i].0 != m[j].0
  }

  /** `$m[$k] ?? null`. */
  function Get<V>(m: OMap<V>, k: string): Option<V>
  {
    if m == [] then None
    else if m[0].0 == k then Some(m[0].1)
    else Get(m[1..], k)
  }

  /** `$m[$k] = $v`. */
  function Put<V>(m: OMap<V>, k: string, v: V): OMap<V>
  {
    if m == [] then [(k, v)]
    else if m[0].0 == k then [(k, v)] + m[1..]
    else [m[0]] + Put(m[1..], k, v)
  }

  /** `unset($m[$k])`. */
  function Remove<V>(m: OMap<V>, k: string): OMap<V>
  {
    if m == [] then []
    else if m[0].0 == k then Remove(m[1..], k)
    else [m[0]] + Remove(m[1..], k)
  }

  /** The entries of `m` whose key is not in `ks`. */
  function Without<V>(m: OMap<V>, ks: seq<string>): OMap<V>
  {
    if m == [] then []
    else if m[0].0 in ks then Without(m[1..], ks)
    else [m[0]] + Without(m[1..], ks)
  }

  /** `$a + $b`: every entry of `a`, then the entries of `b` with new keys. */
  function Union<V>(a: OMap<V>, b: OMap<V>): OMap<V>
  {
    a + Without(b, Keys(a))
  }

  lemma {:induction false} GetSome<V>(m: OMap<V>, k: string)
    ensures Get(m, k).Some? <==> HasKey(m, k)
    ensures Get(m, k).Some? ==> (k, Get(m, k).value) in m
  {
    if m != [] {
      GetSome(m[1..], k);
      assert Keys(m) == [m[0].0] + Keys(m[1..]);
    }
  }

  /** In a map with unique keys, `Get` finds the one entry with that key. */
  lemma {:induction false} GetAt<V>(m: OMap<V>, i: nat)
    requires UniqueKeys(m) && i < |m|
    ensures Get(m, m[i].0) == Some(m[i].1)
  {
    if i > 0 {
      GetAt(m[1..], i - 1);
    }
  }

  lemma {:induction false} PutKeys<V>(m: OMap<V>, k: string, v: V)
    ensures HasKey(m, k) ==> Keys(Put(m, k, v)) == Keys(m)
    ensures !HasKey(m, k) ==> Keys(Put(m, k, v)) == Keys(m) + [k]
  {
    if m != [] {
      assert Keys(m) == [m[0].0] + Keys(m[1..]);
      if m[0].0 != k {
        PutKeys(m[1..], k, v);
        assert Keys(Put(m, k, v)) == [m[0].0] + Keys(Put(m[1..], k, v));
      } else {
        assert Keys(Put(m, k, v)) == [k] + Keys(m[1..]);
      }
    }
  }

  /** Assignment keeps the keys unique, replaces `k` in place or appends it. */
  lemma PutUnique<V>(m: OMap<V>, k: string, v: V)
    requires UniqueKeys(m)
    ensures UniqueKeys(Put(m, k, v))
  {
    PutKeys(m, k, v);
  }

  lemma {:induction false} GetPut<V>(m: OMap<V>, k: string, v: V, k': string)
    ensures Get(Put(m, k, v), k') == if k' == k then Some(v) else Get(m, k')
  {
    if m != [] && m[0].0 != k {
      GetPut(m[1..], k, v, k');
    }
  }

  lemma {:induction false} RemoveKeys<V>(m: OMap<V>, k: string, k': string)
    ensures HasKey(Remove(m, k), k') <==> HasKey(m, k') && k' != k
  {
    if m != [] {
      RemoveKeys(m[1..], k, k');
      if m[0].0 != k {
        assert Remove(m, k) == [m[0]] + Remove(m[1..], k);
        assert Keys(Remove(m, k)) == [m[0].0] + Keys(Remove(m[1..], k));
      }
    }
  }

  lemma {:induction false} RemoveSubset<V>(m: OMap<V>, k: string)
    ensures forall e :: e in Remove(m, k) ==> e in m
  {
    if m != [] {
      RemoveSubset(m[1..], k);
    }
  }

  lemma RemoveUnique<V>(m: OMap<V>, k: string)
    requires UniqueKeys(m)
    ensures UniqueKeys(Remove(m, k))
  {
    if m != [] {
      assert UniqueKeys(m[1..]);
      RemoveUnique(m[1..], k);
      if m[0].0 != k {
        var r := Remove(m[1..], k);
        forall i | 0 <= i < |r| ensures r[i].0 != m[0].0 {
          RemoveSubset(m[1..], k);
          assert r[i] in m[1..];
        }
      }
    }
  }

  /** No value appears twice (used for maps of objects that must not alias). */
  predicate DistinctValues<V(==)>(m: OMap<V>)
  {
    forall i, j :: 0 <= i < j < |m| ==> m[i].1 != m[j].1
  }

  lemma {:induction false} PutEntries<V>(m: OMap<V>, k: string, v: V)
    ensures forall e :: e in Put(m, k, v) ==> e in m || e == (k, v)
  {
    if m != [] && m[0].0 != k {
      PutEntries(m[1..], k, v);
    }
  }

  /** Assigning a value the map does not hold yet keeps its values distinct. */
  lemma {:induction false} PutDistinct<V>(m: OMap<V>, k: string, v: V)
    requires DistinctValues(m)
    requires forall i :: 0 <= i < |m| ==> m[i].1 != v
    ensures DistinctValues(Put(m, k, v))
  {
    if m != [] {
      var p := Put(m, k, v);
      if m[0].0 == k {
        assert p == [(k, v)] + m[1..];
        forall i, j | 0 <= i < j < |p| ensures p[i].1 != p[j].1 {
          assert p[j] == m[j];
          if i > 0 {
            assert p[i] == m[i];
          }
        }
      } else {
        var r := Put(m[1..], k, v);
        PutDistinct(m[1..], k, v);
        PutEntries(m[1..], k, v);
        assert p == [m[0]] + r;
        forall i, j | 0 <= i < j < |p| ensures p[i].1 != p[j].1 {
          assert p[j] == r[j - 1];
          if i == 0 {
            assert r[j - 1] in r;
            if r[j - 1] != (k, v) {
              var n :| 0 <= n < |m[1..]| && m[1..][n] == r[j - 1];
              assert m[n + 1] == p[j];
            }
          } else {
            assert p[i] == r[i - 1];
          }
        }
      }
    }
  }

  lemma {:induction false} RemoveDistinct<V>(m: OMap<V>, k: string)
    requires DistinctValues(m)
    ensures DistinctValues(Remove(m, k))
  {
    if m != [] {
      var p, r := Remove(m, k), Remove(m[1..], k);
      assert DistinctValues(m[1..]) by {
        forall i, j | 0 <= i < j < |m[1..]| ensures m[1..][i].1 != m[1..][j].1 {
          assert m[1..][i] == m[i + 1] && m[1..][j] == m[j + 1];
        }
      }
      RemoveDistinct(m[1..], k);
      RemoveSubset(m[1..], k);
      if m[0].0 != k {
        assert p == [m[0]] + r;
        forall i, j | 0 <= i < j < |p| ensures p[i].1 != p[j].1 {
          assert p[j] == r[j - 1];
          if i == 0 {
            assert r[j - 1] in r;
            var n :| 0 <= n < |m[1..]| && m[1..][n] == r[j - 1];
            assert m[n + 1] == p[j];
          } else {
            assert p[i] == r[i - 1];
          }
        }
      }
    }
  }

  lemma {:induction false} GetRemove<V>(m: OMap<V>, k: string, k': string)
    ensures Get(Remove(m, k), k') == if k' == k then None else Get(m, k')
  {
    if m != [] {
      GetRemove(m[1..], k, k');
    }
  }

  lemma {:induction false} WithoutKeys<V>(m: OMap<V>, ks: seq<string>, k: string)
    ensures HasKey(Without(m, ks), k) <==> HasKey(m, k) && k !in ks
    ensures k !in ks ==> Get(Without(m, ks), k) == Get(m, k)
  {
    if m != [] {
      WithoutKeys(m[1..], ks, k);
      if m[0].0 !in ks {
        assert Without(m, ks) == [m[0]] + Without(m[1..], ks);
        assert Keys(Without(m, ks)) == [m[0].0] + Keys(Without(m[1..], ks));
      }
    }
  }

  lemma {:induction false} WithoutSubset<V>(m: OMap<V>, ks: seq<string>)
    ensures forall e :: e in Without(m, ks) ==> e in m && e.0 !in ks
  {
    if m != [] {
      WithoutSubset(m[1..], ks);
    }
  }

  lemma WithoutUnique<V>(m: OMap<V>, ks: seq<string>)
    requires UniqueKeys(m)
    ensures UniqueKeys(Without(m, ks))
  {
    if m != [] {
      assert UniqueKeys(m[1..]);
      WithoutUnique(m[1..], ks);
      if m[0].0 !in ks {
        var r := Without(m[1..], ks);
        forall i | 0 <= i < |r| ensures r[i].0 != m[0].0 {
          WithoutSubset(m[1..], ks);
          assert r[i] in m[1..];
        }
      }
    }
  }

  lemma {:induction false} GetAppend<V>(a: OMap<V>, b: OMap<V>, k: string)
    ensures Get(a + b, k) == if HasKey(a, k) then Get(a, k) else Get(b, k)
  {
    if a != [] {
      assert (a + b)[0] == a[0];
      assert (a + b)[1..] == a[1..] + b;
      GetAppend(a[1..], b, k);
      if a[0].0 != k {
        assert HasKey(a, k) == HasKey(a[1..], k);
      }
    } else {
      assert a + b == b;
    }
  }

  lemma {:induction false} KeysAppend<V>(a: OMap<V>, b: OMap<V>)
    ensures Keys(a + b) == Keys(a) + Keys(b)
  {
    if a != [] {
      assert (a + b)[1..] == a[1..] + b;
      KeysAppend(a[1..], b);
    } else {
      assert a + b == b;
    }
  }

  /** `$a + $b` looks a key up in `a` first and falls back to `b`. */
  lemma UnionGet<V>(a: OMap<V>, b: OMap<V>, k: string)
    ensures Get(Union(a, b), k) == if HasKey(a, k) then Get(a, k) else Get(b, k)
    ensures HasKey(Union(a, b), k) <==> HasKey(a, k) || HasKey(b, k)
  {
    GetAppend(a, Without(b, Keys(a)), k);
    WithoutKeys(b, Keys(a), k);
    KeysAppend(a, Without(b, Keys(a)));
  }

  /** The union of maps with unique keys has unique keys. */
  lemma UnionUnique<V>(a: OMap<V>, b: OMap<V>)
    requires UniqueKeys(a) && UniqueKeys(b)
    ensures UniqueKeys(Union(a, b))
  {
    var w := Without(b, Keys(a));
    WithoutUnique(b, Keys(a));
    WithoutSubset(b, Keys(a));
    forall i, j | 0 <= i < j < |a + w| ensures (a + w)[i].0 != (a + w)[j].0 {
      if i < |a| && j >= |a| {
        assert w[j - |a|] in w;
        assert a[i].0 in Keys(a);
      }
    }
  }
}
