/**
 * A JavaScript plain object with string keys (`Record<string, V>`), as the
 * ordered list of its entries that `Object.entries` returns: keys are
 * distinct and listed in insertion order.
 */
module Records {
  import opened Wrappers
  import opened Seqs

  type Record<V> = seq<(string, V)>

  function Keys<V>(m: Record<V>): (ks: seq<string>)
    ensures |ks| == |m|
    ensures forall n :: 0 <= n < |m| ==> ks[n] == m[n].0
  {
    seq(|m|, n requires 0 <= n < |m| => m[n].0)
  }

  predicate DistinctKeys<V>(m: Record<V>) {
    NoDuplicates(Keys(m))
  }

  /** A prefix of a record with distinct keys has distinct keys. */
  lemma DistinctKeysPrefix<V>(m: Record<V>, n: nat)
    requires DistinctKeys(m) && n <= |m|
    ensures DistinctKeys(m[..n])
  {
    var p := m[..n];
    forall a, b | 0 <= a < b < |p| ensures Keys(p)[a] != Keys(p)[b] {
      assert Keys(p)[a] == Keys(m)[a] && Keys(p)[b] == Keys(m)[b];
    }
  }

  /** The keys of a non-empty record: those of all but its last entry, then the last key. */
  lemma KeysInit<V>(m: Record<V>)
    requires |m| > 0
    ensures Keys(m) == Keys(m[..|m| - 1]) + [m[|m| - 1].0]
  {
  }

  /** `m[k]`, or None for `undefined`. */
  function Lookup<V>(m: Record<V>, k: string): (r: Option<V>)
    ensures r.Some? <==> k in Keys(m)
    ensures r.Some? ==> m[IndexOf(Keys(m), k)] == (k, r.value)
  {
    var i := IndexOf(Keys(m), k);
    if i < |m| then Some(m[i].1) else None
  }

  /** `m[k] = v`: overwrite the value in place when the key exists, otherwise append a new entry. */
  function Set<V>(m: Record<V>, k: string, v: V): (r: Record<V>)
    ensures Keys(r) == if k in Keys(m) then Keys(m) else Keys(m) + [k]
    ensures DistinctKeys(m) ==> DistinctKeys(r)
    ensures Lookup(r, k) == Some(v)
    ensures forall n :: 0 <= n < |m| && m[n].0 != k ==> r[n] == m[n]
  {
    var i := IndexOf(Keys(m), k);
    if i < |m| then m[i := (k, v)] else m + [(k, v)]
  }

  /** In a record with distinct keys the entry at position `n` is what lookup finds. */
  lemma LookupEntry<V>(m: Record<V>, n: nat)
    requires DistinctKeys(m) && n < |m|
    ensures Lookup(m, m[n].0) == Some(m[n].1)
  {
    assert Keys(m)[n] == m[n].0;
  }

  /** The keys of a record with one entry in front. */
  lemma KeysCons<V>(entry: (string, V), m: Record<V>)
    ensures Keys([entry] + m) == [entry.0] + Keys(m)
  {
  }

  /** A key's position in a record with an entry of another key in front moves one place. */
  lemma IndexOfKeyCons<V>(entry: (string, V), m: Record<V>, k: string)
    requires entry.0 != k
    ensures IndexOf(Keys([entry] + m), k) == 1 + IndexOf(Keys(m), k)
  {
    KeysCons(entry, m);
    IndexOfCons(entry.0, Keys(m), k);
  }

  /** The keys of a record with one entry appended. */
  lemma KeysSnoc<V>(m: Record<V>, k: string, v: V)
    ensures Keys(m + [(k, v)]) == Keys(m) + [k]
  {
  }

  /** Looking up in a record with one entry appended. */
  lemma LookupSnoc<V>(m: Record<V>, k: string, v: V, q: string)
    ensures Lookup(m + [(k, v)], q) == if q in Keys(m) then Lookup(m, q) else if q == k then Some(v) else None
  {
    var r := m + [(k, v)];
    assert Keys(r) == Keys(m) + [k];
    if q in Keys(m) {
      IndexOfAppend(Keys(m), k, q);
    }
  }

  /** Setting a key the record does not have appends it. */
  lemma SetNew<V>(m: Record<V>, k: string, v: V)
    requires k !in Keys(m)
    ensures Set(m, k, v) == m + [(k, v)]
  {
  }

  /** Setting one key leaves the lookup of every other key unchanged. */
  lemma LookupSet<V>(m: Record<V>, k: string, v: V, q: string)
    requires q != k
    ensures Lookup(Set(m, k, v), q) == Lookup(m, q)
  {
    var r := Set(m, k, v);
    if k !in Keys(m) {
      SetNew(m, k, v);
      LookupSnoc(m, k, v, q);
    } else {
      assert Keys(r) == Keys(m);
      if q in Keys(m) {
        var i := IndexOf(Keys(m), q);
        assert r[i] == m[i];
      }
    }
  }
}
