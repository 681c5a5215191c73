/** `std::multimap` with string keys: its entries in order, equal keys in the order of insertion. */
module Multimap {
  import opened StringOrder

  type Entries<V> = seq<(string, V)>

  /** `insert`: at the upper bound of the key. */
  function Insert<V>(m: Entries<V>, k: string, v: V): Entries<V> {
    if m == [] then [(k, v)] else if Less(k, m[0].0) then [(k, v)] + m else [m[0]] + Insert(m[1..], k, v)
  }

  /** `equal_range`, as the values stored under the key. */
  function EqualRange<V>(m: Entries<V>, k: string): seq<V> {
    if m == [] then [] else if m[0].0 == k then [m[0].1] + EqualRange(m[1..], k) else EqualRange(m[1..], k)
  }

  /** `erase(key)`. */
  function Erase<V>(m: Entries<V>, k: string): Entries<V> {
    if m == [] then [] else if m[0].0 == k then Erase(m[1..], k) else [m[0]] + Erase(m[1..], k)
  }

  predicate Has<V>(m: Entries<V>, k: string) {
    exists i :: 0 <= i < |m| && m[i].0 == k
  }

  predicate Sorted<V>(m: Entries<V>) {
    forall i, j :: 0 <= i < j < |m| ==> !Less(m[j].0, m[i].0)
  }

  lemma {:induction false} HasMeans<V>(m: Entries<V>, k: string)
    ensures Has(m, k) <==> EqualRange(m, k) != []
  {
    if m != [] {
      HasMeans(m[1..], k);
      if Has(m, k) && m[0].0 != k {
        var i :| 0 <= i < |m| && m[i].0 == k;
        assert m[1..][i - 1].0 == k;
      }
      if m[0].0 == k {
      } else if Has(m[1..], k) {
        var i :| 0 <= i < |m[1..]| && m[1..][i].0 == k;
        assert m[i + 1].0 == k;
      }
    }
  }

  /** A sorted list whose first key is greater than `k` holds nothing under `k`. */
  lemma {:induction false} BelowAll<V>(m: Entries<V>, k: string)
    requires Sorted(m) && (m != [] ==> Less(k, m[0].0))
    ensures EqualRange(m, k) == []
  {
    if m != [] {
      LessIsTotal(k, m[0].0);
      if |m| > 1 {
        assert !Less(m[1].0, m[0].0);
        LessIsTotal(m[0].0, m[1].0);
        if m[0].0 != m[1].0 {
          LessIsTransitive(k, m[0].0, m[1].0);
        }
      }
      BelowAll(m[1..], k);
    }
  }

  /** A value is inserted behind the values of its key; other keys are not touched. */
  lemma {:induction false} InsertRange<V>(m: Entries<V>, k: string, v: V, other: string)
    requires Sorted(m)
    ensures EqualRange(Insert(m, k, v), other) == if k == other then EqualRange(m, k) + [v] else EqualRange(m, other)
  {
    if m == [] {
      assert [(k, v)][1..] == [];
    } else if Less(k, m[0].0) {
      BelowAll(m, k);
      assert ([(k, v)] + m)[1..] == m;
    } else {
      InsertRange(m[1..], k, v, other);
      assert Insert(m, k, v)[1..] == Insert(m[1..], k, v);
    }
  }

  lemma {:induction false} EraseRange<V>(m: Entries<V>, k: string, other: string)
    ensures EqualRange(Erase(m, k), other) == if k == other then [] else EqualRange(m, other)
  {
    if m != [] {
      EraseRange(m[1..], k, other);
      if m[0].0 != k {
        assert Erase(m, k)[1..] == Erase(m[1..], k);
      }
    }
  }

  /** Every entry of an erased or extended list was there, or is the new one. */
  lemma {:induction false} InsertMembers<V>(m: Entries<V>, k: string, v: V, e: (string, V))
    ensures e in Insert(m, k, v) <==> e in m || e == (k, v)
  {
    if m != [] && !Less(k, m[0].0) {
      InsertMembers(m[1..], k, v, e);
      assert m == [m[0]] + m[1..];
    }
  }

  lemma {:induction false} EraseMembers<V>(m: Entries<V>, k: string, e: (string, V))
    ensures e in Erase(m, k) <==> e in m && e.0 != k
  {
    if m != [] {
      EraseMembers(m[1..], k, e);
      assert m == [m[0]] + m[1..];
    }
  }

  lemma SortedCons<V>(e: (string, V), m: Entries<V>)
    requires Sorted(m) && forall x :: x in m ==> !Less(x.0, e.0)
    ensures Sorted([e] + m)
  {
  }

  lemma {:induction false} InsertSorted<V>(m: Entries<V>, k: string, v: V)
    requires Sorted(m)
    ensures Sorted(Insert(m, k, v))
  {
    if m == [] {
    } else if Less(k, m[0].0) {
      forall x | x in m ensures !Less(x.0, k) {
        NotBefore(m, x, k);
      }
      SortedCons((k, v), m);
    } else {
      InsertSorted(m[1..], k, v);
      forall x | x in Insert(m[1..], k, v) ensures !Less(x.0, m[0].0) {
        InsertMembers(m[1..], k, v, x);
      }
      SortedCons(m[0], Insert(m[1..], k, v));
    }
  }

  lemma NotBefore<V>(m: Entries<V>, x: (string, V), k: string)
    requires Sorted(m) && x in m && Less(k, m[0].0)
    ensures !Less(x.0, k)
  {
    if Less(x.0, k) {
      LessIsTransitive(x.0, k, m[0].0);
      LessIsTotal(x.0, m[0].0);
    }
  }

  lemma {:induction false} EraseSorted<V>(m: Entries<V>, k: string)
    requires Sorted(m)
    ensures Sorted(Erase(m, k))
  {
    if m != [] {
      EraseSorted(m[1..], k);
      if m[0].0 != k {
        forall x | x in Erase(m[1..], k) ensures !Less(x.0, m[0].0) {
          EraseMembers(m[1..], k, x);
        }
        SortedCons(m[0], Erase(m[1..], k));
      }
    }
  }

  /** Inserting a key that no entry exceeds appends. */
  lemma {:induction false} InsertAppends<V>(m: Entries<V>, k: string, v: V)
    requires forall x :: x in m ==> !Less(k, x.0)
    ensures Insert(m, k, v) == m + [(k, v)]
  {
    if m != [] {
      InsertAppends(m[1..], k, v);
      assert m == [m[0]] + m[1..];
    }
  }
}
