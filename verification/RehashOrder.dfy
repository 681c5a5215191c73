/** Where an insertion and a rehash put the elements of utilmm/hash/bits/table.tcc. */
module RehashOrder {
  import opened Sequences
  import opened HashChains
  import opened HashOperations

  // ----- insertion -----

  /** The place of a new element in its bucket: in front of the first element with its key, or behind
      all elements if there is none. */
  lemma InsertedPlace<K(!new), T>(law: Law<K, T>, chains: seq<seq<T>>, v: T) returns (p: nat)
    requires |chains| > 0
    ensures var h, r := law.Slot(v, |chains|), Insert(law, chains, v);
            && p <= |chains[h]| && |r| == |chains| && r[h] == chains[h][..p] + [v] + chains[h][p..]
            && (forall i :: 0 <= i < p ==> !law.Matches(law.key(v), chains[h][i]))
            && (p < |chains[h]| ==> law.Matches(law.key(v), chains[h][p]))
            && (forall b :: 0 <= b < |chains| && b != h ==> r[b] == chains[b])
  {
    p := Find(law, chains[law.Slot(v, |chains|)], law.key(v));
  }

  // ----- rehash -----

  /** `x` stands somewhere in front of `y`. */
  ghost predicate Ahead<T>(s: seq<T>, x: T, y: T) {
    exists i, j :: 0 <= i < j < |s| && s[i] == x && s[j] == y
  }

  lemma AheadInJoin<T>(a: seq<T>, b: seq<T>, x: T, y: T)
    requires x in a && y in b
    ensures Ahead(a + b, x, y)
  {
    var i :| 0 <= i < |a| && a[i] == x;
    var j :| 0 <= j < |b| && b[j] == y;
    assert (a + b)[i] == x && (a + b)[|a| + j] == y;
  }

  lemma AheadInEnd<T>(s: seq<T>, t: seq<T>, x: T, y: T)
    requires EndsWith(s, t) && Ahead(t, x, y)
    ensures Ahead(s, x, y)
  {
    var i, j :| 0 <= i < j < |t| && t[i] == x && t[j] == y;
    var d := |s| - |t|;
    assert s[d + i] == s[d..][i] && s[d + j] == s[d..][j];
  }

  lemma MemberInEnd<T>(s: seq<T>, t: seq<T>, x: T)
    requires EndsWith(s, t) && x in t
    ensures x in s
  {
    var i :| 0 <= i < |t| && t[i] == x;
    assert s[|s| - |t| + i] == s[|s| - |t|..][i];
  }

  /** Of what is in front of `y` in a concatenation, either all happens in one part, or `x` is in the
      first and `y` in the second. */
  lemma AheadSplits<T>(a: seq<T>, b: seq<T>, x: T, y: T)
    requires Ahead(a + b, x, y)
    ensures Ahead(a, x, y) || (x in a && y in b) || Ahead(b, x, y)
  {
    var s := a + b;
    var i, j :| 0 <= i < j < |s| && s[i] == x && s[j] == y;
    if j < |a| {
      assert a[i] == x && a[j] == y;
    } else if i < |a| {
      assert a[i] == x && b[j - |a|] == y;
    } else {
      assert b[i - |a|] == x && b[j - |a|] == y;
    }
  }

  /** A group goes to the bucket of each of its elements, in front of what is there. */
  lemma HeadGoesToFront<K(!new), T>(law: Law<K, T>, c: seq<T>, tmp: seq<seq<T>>, y: T)
    requires law.Lawful() && c != [] && |tmp| > 0 && y in c[..HeadRun(law, c)]
    ensures var h := law.Slot(y, |tmp|);
            PushGroup(law, c[..HeadRun(law, c)], tmp)[h] == c[..HeadRun(law, c)] + tmp[h]
  {
    var e := HeadRun(law, c);
    var i :| 0 <= i < |c[..e]| && c[..e][i] == y;
    assert i > 0 ==> law.Matches(law.key(c[0]), c[i]);
    assert law.Slot(c[0], |tmp|) == law.Slot(y, |tmp|);
  }

  lemma HeadKeysAgree<K(!new), T>(law: Law<K, T>, c: seq<T>, x: T, y: T)
    requires law.Lawful() && c != [] && x in c[..HeadRun(law, c)] && y in c[..HeadRun(law, c)]
    ensures law.eq(law.key(x), law.key(y))
  {
    var e := HeadRun(law, c);
    assert forall i :: 0 <= i < e ==> law.Matches(law.key(c[0]), c[i]);
    MatchesAgree(law, law.key(c[0]), x, y);
  }

  /** What is moved later comes in front of what is there. */
  lemma {:induction false} MovedLater<K(!new), T>(law: Law<K, T>, c: seq<T>, tmp: seq<seq<T>>, x: T, y: T)
    requires law.Lawful() && |tmp| > 0 && y in c && x in tmp[law.Slot(y, |tmp|)]
    ensures Ahead(MoveChain(law, c, tmp)[law.Slot(y, |tmp|)], y, x)
    decreases |c|
  {
    var e, h := HeadRun(law, c), law.Slot(y, |tmp|);
    var next := PushGroup(law, c[..e], tmp);
    SplitInTwo(c, e);
    if y in c[..e] {
      HeadGoesToFront(law, c, tmp, y);
      AheadInJoin(c[..e], tmp[h], y, x);
      MoveChainGrowsFront(law, c[e..], next, h);
      AheadInEnd(MoveChain(law, c, tmp)[h], next[h], y, x);
    } else {
      PushGroupEndsWith(law, c[..e], tmp, h);
      MemberInEnd(next[h], tmp[h], x);
      MovedLater(law, c[e..], next, x, y);
    }
  }

  lemma {:induction false} MovedThere<K(!new), T>(law: Law<K, T>, c: seq<T>, tmp: seq<seq<T>>, x: T)
    requires law.Lawful() && |tmp| > 0 && x in c
    ensures x in MoveChain(law, c, tmp)[law.Slot(x, |tmp|)]
    decreases |c|
  {
    var e, h := HeadRun(law, c), law.Slot(x, |tmp|);
    var next := PushGroup(law, c[..e], tmp);
    SplitInTwo(c, e);
    if x in c[..e] {
      HeadGoesToFront(law, c, tmp, x);
      MoveChainGrowsFront(law, c[e..], next, h);
      MemberInEnd(MoveChain(law, c, tmp)[h], next[h], x);
    } else {
      MovedThere(law, c[e..], next, x);
    }
  }

  /** Within one chain, different keys that go to the same bucket change places. */
  lemma {:induction false} ChainReverses<K(!new), T>(law: Law<K, T>, c: seq<T>, tmp: seq<seq<T>>, x: T, y: T)
    requires law.Lawful() && |tmp| > 0 && Ahead(c, x, y) && !law.eq(law.key(x), law.key(y))
    requires law.Slot(x, |tmp|) == law.Slot(y, |tmp|)
    ensures Ahead(MoveChain(law, c, tmp)[law.Slot(x, |tmp|)], y, x)
    decreases |c|
  {
    var e, h := HeadRun(law, c), law.Slot(x, |tmp|);
    var next := PushGroup(law, c[..e], tmp);
    SplitInTwo(c, e);
    AheadSplits(c[..e], c[e..], x, y);
    if Ahead(c[..e], x, y) {
      HeadKeysAgree(law, c, x, y);
    } else if Ahead(c[e..], x, y) {
      ChainReverses(law, c[e..], next, x, y);
    } else {
      HeadGoesToFront(law, c, tmp, x);
      MovedLater(law, c[e..], next, x, y);
    }
  }

  lemma {:induction false} AllGrowFront<K(!new), T>(law: Law<K, T>, chains: seq<seq<T>>, tmp: seq<seq<T>>, h: nat)
    requires h < |tmp|
    ensures EndsWith(MoveAll(law, chains, tmp)[h], tmp[h])
    decreases |chains|
  {
    if chains != [] {
      var next := MoveChain(law, chains[0], tmp);
      MoveChainGrowsFront(law, chains[0], tmp, h);
      AllGrowFront(law, chains[1..], next, h);
      EndsWithTwice(MoveAll(law, chains, tmp)[h], next[h], tmp[h]);
    }
  }

  lemma {:induction false} AllMovedLater<K(!new), T>(law: Law<K, T>, chains: seq<seq<T>>, tmp: seq<seq<T>>, x: T, y: T)
    requires law.Lawful() && |tmp| > 0 && y in Order(chains) && x in tmp[law.Slot(y, |tmp|)]
    ensures Ahead(MoveAll(law, chains, tmp)[law.Slot(y, |tmp|)], y, x)
    decreases |chains|
  {
    var next, h := MoveChain(law, chains[0], tmp), law.Slot(y, |tmp|);
    OrderHead(chains);
    if y in chains[0] {
      MovedLater(law, chains[0], tmp, x, y);
      AllGrowFront(law, chains[1..], next, h);
      AheadInEnd(MoveAll(law, chains, tmp)[h], next[h], y, x);
    } else {
      MoveChainGrowsFront(law, chains[0], tmp, h);
      MemberInEnd(next[h], tmp[h], x);
      AllMovedLater(law, chains[1..], next, x, y);
    }
  }

  lemma {:induction false} AllReverse<K(!new), T>(law: Law<K, T>, chains: seq<seq<T>>, tmp: seq<seq<T>>, x: T, y: T)
    requires law.Lawful() && |tmp| > 0 && Ahead(Order(chains), x, y) && !law.eq(law.key(x), law.key(y))
    requires law.Slot(x, |tmp|) == law.Slot(y, |tmp|)
    ensures Ahead(MoveAll(law, chains, tmp)[law.Slot(x, |tmp|)], y, x)
    decreases |chains|
  {
    var next, h := MoveChain(law, chains[0], tmp), law.Slot(x, |tmp|);
    OrderHead(chains);
    AheadSplits(chains[0], Order(chains[1..]), x, y);
    if Ahead(chains[0], x, y) {
      ChainReverses(law, chains[0], tmp, x, y);
      AllGrowFront(law, chains[1..], next, h);
      AheadInEnd(MoveAll(law, chains, tmp)[h], next[h], y, x);
    } else if Ahead(Order(chains[1..]), x, y) {
      AllReverse(law, chains[1..], next, x, y);
    } else {
      MovedThere(law, chains[0], tmp, x);
      AllMovedLater(law, chains[1..], next, x, y);
    }
  }

  lemma AheadOnce<T>(s: seq<T>, x: T, y: T)
    requires NoDup(s)
    ensures !(Ahead(s, x, y) && Ahead(s, y, x))
  {
  }

  lemma AheadOrBehind<T>(s: seq<T>, x: T, y: T)
    requires x in s && y in s && x != y
    ensures Ahead(s, x, y) || Ahead(s, y, x)
  {
    var i :| 0 <= i < |s| && s[i] == x;
    var j :| 0 <= j < |s| && s[j] == y;
    assert i < j || j < i;
  }

  lemma BucketNoDup<T>(chains: seq<seq<T>>, h: nat)
    requires NoDup(Order(chains)) && h < |chains|
    ensures NoDup(chains[h])
  {
    forall i, j | 0 <= i < j < |chains[h]| ensures chains[h][i] != chains[h][j] {
      OrderIndex(chains, h, i);
      OrderIndex(chains, h, j);
    }
  }

  /** A rehash reverses, in every bucket, the order in which the different keys that it holds were met
      before. With `RehashMultimap`, which keeps the order of equal keys, this says where everything is. */
  lemma RehashReverses<K(!new), T>(law: Law<K, T>, chains: seq<seq<T>>, m: nat, x: T, y: T)
    requires WellFormed(law, chains) && m > 0 && x in Order(chains) && y in Order(chains)
    requires law.Slot(x, m) == law.Slot(y, m) && !law.eq(law.key(x), law.key(y))
    ensures Ahead(Order(chains), x, y) <==> Ahead(Rehash(law, chains, m)[law.Slot(x, m)], y, x)
  {
    var r, h := Rehash(law, chains, m), law.Slot(x, m);
    RehashKeeps(law, chains, m);
    BucketNoDup(r, h);
    AheadOrBehind(Order(chains), x, y);
    AheadOnce(r[h], x, y);
    if Ahead(Order(chains), x, y) {
      AllReverse(law, chains, NoChains(m), x, y);
    } else {
      AllReverse(law, chains, NoChains(m), y, x);
    }
  }
}
