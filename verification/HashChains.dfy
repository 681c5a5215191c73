/** The bucket chains of utilmm/hash/bits/table.tcc as values: what the in-place operations of
    HashTable.dfy compute, and what that means for the multimap they implement. */
module HashChains {
  import opened Sequences

  /** How a table looks at its elements: key extractor, hash and equality of keys. */
  datatype Law<!K(!new), !T> = Law(key: T -> K, hash: K -> nat, eq: (K, K) -> bool)
  {
    ghost predicate Lawful() {
      && (forall a :: eq(a, a))
      && (forall a, b :: eq(a, b) ==> eq(b, a))
      && (forall a, b, c :: eq(a, b) && eq(b, c) ==> eq(a, c))
      && (forall a, b :: eq(a, b) ==> hash(a) == hash(b))
    }

    predicate Matches(k: K, t: T) {
      eq(k, key(t))
    }

    function Slot(t: T, buckets: nat): nat
      requires buckets > 0
    {
      hash(key(t)) % buckets
    }
  }

  // ----- iteration order -----

  /** The elements in the order iterators meet them: bucket after bucket. */
  function Order<T>(chains: seq<seq<T>>): seq<T> {
    if chains == [] then [] else Order(chains[..|chains| - 1]) + chains[|chains| - 1]
  }

  /** The place in the order where bucket `b` begins. */
  function Offset<T>(chains: seq<seq<T>>, b: nat): nat
    requires b <= |chains|
  {
    |Order(chains[..b])|
  }

  lemma {:induction false} OrderConcat<T>(a: seq<seq<T>>, b: seq<seq<T>>)
    ensures Order(a + b) == Order(a) + Order(b)
  {
    if b == [] {
      assert a + b == a;
    } else {
      OrderConcat(a, b[..|b| - 1]);
      ConcatButLast(a, b);
      Regroup(Order(a), Order(b[..|b| - 1]), b[|b| - 1]);
    }
  }

  lemma OrderOne<T>(c: seq<T>)
    ensures Order([c]) == c
  {
    assert [c][..0] == [];
  }

  lemma OrderThree<T>(a: seq<seq<T>>, c: seq<T>, b: seq<seq<T>>)
    ensures Order(a + [c] + b) == Order(a) + c + Order(b)
  {
    OrderConcat(a + [c], b);
    OrderConcat(a, [c]);
    OrderOne(c);
  }

  lemma OrderSplit<T>(chains: seq<seq<T>>, b: nat)
    requires b < |chains|
    ensures Order(chains) == Order(chains[..b]) + chains[b] + Order(chains[b + 1..])
  {
    SplitAt(chains, b);
    OrderThree(chains[..b], chains[b], chains[b + 1..]);
  }

  lemma OrderUpdate<T>(chains: seq<seq<T>>, b: nat, c: seq<T>)
    requires b < |chains|
    ensures Order(chains[b := c]) == Order(chains[..b]) + c + Order(chains[b + 1..])
  {
    OrderSplit(chains[b := c], b);
    assert chains[b := c][..b] == chains[..b];
    assert chains[b := c][b + 1..] == chains[b + 1..];
  }

  lemma OrderIndex<T>(chains: seq<seq<T>>, b: nat, p: nat)
    requires b < |chains| && p < |chains[b]|
    ensures Offset(chains, b) + p < |Order(chains)|
    ensures Order(chains)[Offset(chains, b) + p] == chains[b][p]
  {
    OrderSplit(chains, b);
  }

  lemma OffsetStep<T>(chains: seq<seq<T>>, b: nat)
    requires b < |chains|
    ensures Offset(chains, b + 1) == Offset(chains, b) + |chains[b]|
  {
    assert chains[..b + 1][..b] == chains[..b];
  }

  lemma OffsetEnd<T>(chains: seq<seq<T>>)
    ensures Offset(chains, |chains|) == |Order(chains)|
  {
    assert chains[..|chains|] == chains;
  }

  lemma {:induction false} OrderMember<T>(chains: seq<seq<T>>, x: T)
    ensures x in Order(chains) <==> exists b, p :: 0 <= b < |chains| && 0 <= p < |chains[b]| && chains[b][p] == x
  {
    if chains != [] {
      var n := |chains| - 1;
      var init := chains[..n];
      OrderMember(init, x);
      if x in Order(init) {
        var b, p :| 0 <= b < |init| && 0 <= p < |init[b]| && init[b][p] == x;
        assert chains[b][p] == x;
      } else if x in chains[n] {
        var p :| 0 <= p < |chains[n]| && chains[n][p] == x;
        assert chains[n][p] == x;
      }
      if b, p :| 0 <= b < |chains| && 0 <= p < |chains[b]| && chains[b][p] == x {
        if b < n {
          assert init[b][p] == x;
        }
      }
    }
  }

  /** Two places of a table without repetition hold different elements. */
  lemma PlacesDiffer<T>(chains: seq<seq<T>>, b: nat, p: nat)
    requires NoDup(Order(chains)) && b < |chains| && p < |chains[b]|
    ensures forall b', p' :: 0 <= b' < |chains| && 0 <= p' < |chains[b']| && chains[b'][p'] == chains[b][p] ==>
      b' == b && p' == p
  {
    forall b', p' | 0 <= b' < |chains| && 0 <= p' < |chains[b']| && chains[b'][p'] == chains[b][p]
      ensures b' == b && p' == p
    {
      OrderIndex(chains, b, p);
      OrderIndex(chains, b', p');
      OffsetsDisjoint(chains, b, p, b', p');
    }
  }

  lemma OffsetsDisjoint<T>(chains: seq<seq<T>>, b: nat, p: nat, b': nat, p': nat)
    requires b < |chains| && p < |chains[b]| && b' < |chains| && p' < |chains[b']|
    ensures b < b' ==> Offset(chains, b) + p < Offset(chains, b') + p'
    ensures b' < b ==> Offset(chains, b') + p' < Offset(chains, b) + p
    ensures Offset(chains, b) + p == Offset(chains, b') + p' ==> b == b' && p == p'
  {
    OffsetMonotone(chains, b, b');
    OffsetMonotone(chains, b', b);
  }

  lemma {:induction false} OffsetMonotone<T>(chains: seq<seq<T>>, a: nat, b: nat)
    requires a <= |chains| && b <= |chains|
    ensures a < b ==> Offset(chains, a) + |chains[a]| <= Offset(chains, b)
    decreases b
  {
    if a < b {
      OffsetStep(chains, b - 1);
      if a < b - 1 {
        OffsetMonotone(chains, a, b - 1);
      }
    }
  }

  // ----- the multimap -----

  /** The elements with a key equal to `k`, in order: the multimap a table stands for. */
  function Group<K(!new), T>(law: Law<K, T>, s: seq<T>, k: K): seq<T> {
    if s == [] then []
    else Group(law, s[..|s| - 1], k) + if law.Matches(k, s[|s| - 1]) then [s[|s| - 1]] else []
  }

  lemma {:induction false} GroupConcat<K(!new), T>(law: Law<K, T>, a: seq<T>, b: seq<T>, k: K)
    ensures Group(law, a + b, k) == Group(law, a, k) + Group(law, b, k)
  {
    if b == [] {
      assert a + b == a;
    } else {
      GroupConcat(law, a, b[..|b| - 1], k);
      ConcatButLast(a, b);
    }
  }

  lemma {:induction false} GroupNone<K(!new), T>(law: Law<K, T>, s: seq<T>, k: K)
    requires forall i :: 0 <= i < |s| ==> !law.Matches(k, s[i])
    ensures Group(law, s, k) == []
  {
    if s != [] {
      GroupNone(law, s[..|s| - 1], k);
    }
  }

  lemma {:induction false} GroupAll<K(!new), T>(law: Law<K, T>, s: seq<T>, k: K)
    requires forall i :: 0 <= i < |s| ==> law.Matches(k, s[i])
    ensures Group(law, s, k) == s
  {
    if s != [] {
      GroupAll(law, s[..|s| - 1], k);
    }
  }

  /** Every element stands in the bucket its hash selects. */
  ghost predicate WellPlaced<K(!new), T>(law: Law<K, T>, chains: seq<seq<T>>) {
    forall b, p :: 0 <= b < |chains| && 0 <= p < |chains[b]| ==> law.Slot(chains[b][p], |chains|) == b
  }

  /** Elements with equal keys are contiguous. */
  ghost predicate Grouped<K(!new), T>(law: Law<K, T>, c: seq<T>) {
    forall i, j, l :: 0 <= i < j < l < |c| && law.eq(law.key(c[i]), law.key(c[l])) ==>
      law.eq(law.key(c[i]), law.key(c[j]))
  }

  ghost predicate AllGrouped<K(!new), T>(law: Law<K, T>, chains: seq<seq<T>>) {
    forall b :: 0 <= b < |chains| ==> Grouped(law, chains[b])
  }

  /** The first place in a chain whose key equals `k`; its length if there is none. */
  function Find<K(!new), T>(law: Law<K, T>, c: seq<T>, k: K): (p: nat)
    ensures p <= |c|
    ensures forall i :: 0 <= i < p ==> !law.Matches(k, c[i])
    ensures p < |c| ==> law.Matches(k, c[p])
  {
    if c == [] then 0 else if law.Matches(k, c[0]) then 0 else 1 + Find(law, c[1..], k)
  }

  ghost predicate NoMatchBefore<K(!new), T>(law: Law<K, T>, c: seq<T>, k: K, p: nat) {
    p <= |c| && forall i :: 0 <= i < p ==> !law.Matches(k, c[i])
  }

  lemma FindUnique<K(!new), T>(law: Law<K, T>, c: seq<T>, k: K, p: nat)
    requires NoMatchBefore(law, c, k, p) && (p < |c| ==> law.Matches(k, c[p]))
    ensures p == Find(law, c, k)
  {
  }

  /** The end of the run of elements matching `k` that starts at `p`. */
  function RunEnd<K(!new), T>(law: Law<K, T>, c: seq<T>, k: K, p: nat): (e: nat)
    requires p <= |c|
    ensures p <= e <= |c|
    ensures forall i :: p <= i < e ==> law.Matches(k, c[i])
    ensures e < |c| ==> !law.Matches(k, c[e])
    decreases |c| - p
  {
    if p < |c| && law.Matches(k, c[p]) then RunEnd(law, c, k, p + 1) else p
  }

  lemma {:induction false} RunEndUnique<K(!new), T>(law: Law<K, T>, c: seq<T>, k: K, p: nat, e: nat)
    requires p <= e <= |c| && (forall i :: p <= i < e ==> law.Matches(k, c[i])) && (e < |c| ==> !law.Matches(k, c[e]))
    ensures e == RunEnd(law, c, k, p)
    decreases e - p
  {
    if p < e {
      RunEndUnique(law, c, k, p + 1, e);
    }
  }

  lemma RunEndNonempty<K(!new), T>(law: Law<K, T>, c: seq<T>, k: K, p: nat)
    requires p <= |c|
    ensures p < |c| && law.Matches(k, c[p]) ==> RunEnd(law, c, k, p) > p
  {
  }

  lemma BetweenMatches<K(!new), T>(law: Law<K, T>, c: seq<T>, k: K, i: nat, j: nat, l: nat)
    requires law.Lawful() && Grouped(law, c)
    ensures i < j < l < |c| && law.Matches(k, c[i]) && law.Matches(k, c[l]) ==> law.Matches(k, c[j])
  {
    if i < j < l < |c| && law.Matches(k, c[i]) && law.Matches(k, c[l]) {
      assert law.eq(law.key(c[i]), law.key(c[l]));
    }
  }

  lemma NothingAfterRun<K(!new), T>(law: Law<K, T>, c: seq<T>, k: K)
    requires law.Lawful() && Grouped(law, c)
    ensures forall i :: RunEnd(law, c, k, Find(law, c, k)) <= i < |c| ==> !law.Matches(k, c[i])
  {
    var p := Find(law, c, k);
    var e := RunEnd(law, c, k, p);
    forall i | e <= i < |c| ensures !law.Matches(k, c[i]) {
      BetweenMatches(law, c, k, p, e, i);
    }
  }

  /** In a grouped chain the group of `k` is one run, starting where `Find` stops. */
  lemma GroupIsRun<K(!new), T>(law: Law<K, T>, c: seq<T>, k: K)
    requires law.Lawful() && Grouped(law, c)
    ensures var p := Find(law, c, k); Group(law, c, k) == c[p..RunEnd(law, c, k, p)]
  {
    var p := Find(law, c, k);
    var e := RunEnd(law, c, k, p);
    NothingAfterRun(law, c, k);
    assert c == c[..p] + c[p..e] + c[e..];
    GroupMiddle(law, c[..p], c[p..e], c[e..], k);
  }

  lemma GroupMiddle<K(!new), T>(law: Law<K, T>, a: seq<T>, b: seq<T>, c: seq<T>, k: K)
    requires forall i :: 0 <= i < |a| ==> !law.Matches(k, a[i])
    requires forall i :: 0 <= i < |b| ==> law.Matches(k, b[i])
    requires forall i :: 0 <= i < |c| ==> !law.Matches(k, c[i])
    ensures Group(law, a + b + c, k) == b
  {
    GroupNone(law, a, k);
    GroupAll(law, b, k);
    GroupNone(law, c, k);
    GroupConcat(law, a + b, c, k);
    GroupConcat(law, a, b, k);
  }

  lemma {:induction false} GroupElsewhere<K(!new), T>(law: Law<K, T>, chains: seq<seq<T>>, k: K)
    requires forall b, p :: 0 <= b < |chains| && 0 <= p < |chains[b]| ==> !law.Matches(k, chains[b][p])
    ensures Group(law, Order(chains), k) == []
  {
    if chains != [] {
      var n := |chains| - 1;
      forall b, p | 0 <= b < |chains[..n]| && 0 <= p < |chains[..n][b]| ensures !law.Matches(k, chains[..n][b][p]) {
        assert chains[..n][b] == chains[b];
      }
      GroupElsewhere(law, chains[..n], k);
      GroupNone(law, chains[n], k);
      GroupConcat(law, Order(chains[..n]), chains[n], k);
    }
  }

  /** The whole group of a key stands in the bucket of that key. */
  lemma GroupInBucket<K(!new), T>(law: Law<K, T>, chains: seq<seq<T>>, k: K)
    requires law.Lawful() && WellPlaced(law, chains) && |chains| > 0
    ensures Group(law, Order(chains), k) == Group(law, chains[law.hash(k) % |chains|], k)
  {
    var h := law.hash(k) % |chains|;
    OrderSplit(chains, h);
    var front, back := chains[..h], chains[h + 1..];
    forall b, p | 0 <= b < |front| && 0 <= p < |front[b]| ensures !law.Matches(k, front[b][p]) {
      assert front[b] == chains[b];
      assert law.Slot(chains[b][p], |chains|) == b;
    }
    forall b, p | 0 <= b < |back| && 0 <= p < |back[b]| ensures !law.Matches(k, back[b][p]) {
      assert back[b] == chains[h + 1 + b];
      assert law.Slot(chains[h + 1 + b][p], |chains|) == h + 1 + b;
    }
    GroupElsewhere(law, chains[..h], k);
    GroupElsewhere(law, chains[h + 1..], k);
    GroupConcat(law, Order(chains[..h]) + chains[h], Order(chains[h + 1..]), k);
    GroupConcat(law, Order(chains[..h]), chains[h], k);
  }
}
