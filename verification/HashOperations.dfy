/** The modifying operations of the hash table on chain values, and what they keep. */
module HashOperations {
  import opened Sequences
  import opened HashChains

  /** What a table keeps between operations. */
  ghost predicate WellFormed<K(!new), T>(law: Law<K, T>, chains: seq<seq<T>>) {
    && law.Lawful()
    && WellPlaced(law, chains)
    && AllGrouped(law, chains)
    && NoDup(Order(chains))
  }

  // ----- insertion -----

  function InsertAt<T>(c: seq<T>, p: nat, v: T): seq<T>
    requires p <= |c|
  {
    c[..p] + [v] + c[p..]
  }

  /** Insert `v` in front of its group, or at the end of its bucket when the key is new. */
  function Insert<K(!new), T>(law: Law<K, T>, chains: seq<seq<T>>, v: T): seq<seq<T>>
    requires |chains| > 0
  {
    var h := law.Slot(v, |chains|);
    chains[h := InsertAt(chains[h], Find(law, chains[h], law.key(v)), v)]
  }

  /** Nothing in front of a group shares a key with anything from the group on. */
  lemma FrontSeparate<K(!new), T>(law: Law<K, T>, c: seq<T>, k: K, i: nat, l: nat)
    requires law.Lawful() && Grouped(law, c)
    ensures i < Find(law, c, k) <= l < |c| ==> !law.eq(law.key(c[i]), law.key(c[l]))
  {
    EqualKeysBetween(law, c, i, Find(law, c, k), l);
  }

  lemma EqualKeysBetween<K(!new), T>(law: Law<K, T>, c: seq<T>, i: nat, j: nat, l: nat)
    requires Grouped(law, c)
    ensures i < j <= l < |c| && law.eq(law.key(c[i]), law.key(c[l])) ==> law.eq(law.key(c[i]), law.key(c[j]))
  {
  }

  lemma InsertKeepsGrouped<K(!new), T>(law: Law<K, T>, c: seq<T>, v: T)
    requires law.Lawful() && Grouped(law, c)
    ensures Grouped(law, InsertAt(c, Find(law, c, law.key(v)), v))
  {
    var k := law.key(v);
    var p := Find(law, c, k);
    var d := InsertAt(c, p, v);
    forall i, j, l | 0 <= i < j < l < |d|
      ensures law.eq(law.key(d[i]), law.key(d[l])) ==> law.eq(law.key(d[i]), law.key(d[j]))
    {
      if i == p {
        BetweenMatches(law, c, k, p, j - 1, l - 1);
      } else if i < p < l {
        FrontSeparate(law, c, k, i, l - 1);
      } else if l < p {
        assert law.eq(law.key(c[i]), law.key(c[l])) ==> law.eq(law.key(c[i]), law.key(c[j]));
      } else if p < i {
        assert law.eq(law.key(c[i - 1]), law.key(c[l - 1])) ==> law.eq(law.key(c[i - 1]), law.key(c[j - 1]));
      }
    }
  }

  lemma InsertGroup<K(!new), T>(law: Law<K, T>, c: seq<T>, v: T, k: K)
    requires law.Lawful()
    ensures var d := InsertAt(c, Find(law, c, law.key(v)), v);
      Group(law, d, k) == if law.Matches(k, v) then [v] + Group(law, c, k) else Group(law, c, k)
  {
    var p := Find(law, c, law.key(v));
    var a, b := c[..p], c[p..];
    assert c == a + b;
    forall i | 0 <= i < |a| ensures law.Matches(k, v) ==> !law.Matches(k, a[i]) {
      assert !law.Matches(law.key(v), c[i]);
    }
    InsertGroupParts(law, a, v, b, k);
  }

  lemma InsertGroupParts<K(!new), T>(law: Law<K, T>, a: seq<T>, v: T, b: seq<T>, k: K)
    requires forall i :: 0 <= i < |a| && law.Matches(k, v) ==> !law.Matches(k, a[i])
    ensures Group(law, a + [v] + b, k) == if law.Matches(k, v) then [v] + Group(law, a + b, k) else Group(law, a + b, k)
  {
    GroupConcat(law, a + [v], b, k);
    GroupConcat(law, a, [v], k);
    GroupConcat(law, a, b, k);
    GroupOne(law, v, k);
    if law.Matches(k, v) {
      GroupNone(law, a, k);
      assert [] + [v] == [v] && [] + Group(law, b, k) == Group(law, b, k);
    } else {
      assert Group(law, a, k) + [] == Group(law, a, k);
    }
  }

  lemma GroupOne<K(!new), T>(law: Law<K, T>, v: T, k: K)
    ensures Group(law, [v], k) == if law.Matches(k, v) then [v] else []
  {
    if law.Matches(k, v) {
      GroupAll(law, [v], k);
    } else {
      GroupNone(law, [v], k);
    }
  }

  lemma InsertNoDup<T>(a: seq<T>, v: T, b: seq<T>)
    requires NoDup(a + b) && v !in a + b
    ensures NoDup(a + [v] + b)
  {
    var s, t := a + b, a + [v] + b;
    forall i, j | 0 <= i < j < |t| ensures t[i] != t[j] {
      if i == |a| {
        assert t[j] == s[j - 1];
      } else if j == |a| {
        assert t[i] == s[i];
      } else {
        assert t[i] == s[if i < |a| then i else i - 1] && t[j] == s[if j < |a| then j else j - 1];
      }
    }
  }

  lemma InsertInMiddle<T>(a: seq<T>, c: seq<T>, b: seq<T>, p: nat, v: T)
    requires p <= |c|
    ensures a + InsertAt(c, p, v) + b == (a + c + b)[..|a| + p] + [v] + (a + c + b)[|a| + p..]
  {
  }

  lemma InsertOrder<K(!new), T>(law: Law<K, T>, chains: seq<seq<T>>, v: T)
    requires |chains| > 0
    ensures var h := law.Slot(v, |chains|);
      var g := Offset(chains, h) + Find(law, chains[h], law.key(v));
      g <= |Order(chains)| && Order(Insert(law, chains, v)) == Order(chains)[..g] + [v] + Order(chains)[g..]
  {
    var h := law.Slot(v, |chains|);
    InsertInBucket(chains, h, Find(law, chains[h], law.key(v)), v);
  }

  lemma InsertInBucket<T>(chains: seq<seq<T>>, h: nat, p: nat, v: T)
    requires h < |chains| && p <= |chains[h]|
    ensures var s, g := Order(chains), Offset(chains, h) + p;
            g <= |s| && Order(chains[h := InsertAt(chains[h], p, v)]) == s[..g] + [v] + s[g..]
  {
    var front, r, back := Order(chains[..h]), InsertAt(chains[h], p, v), Order(chains[h + 1..]);
    assert Order(chains) == front + chains[h] + back by { OrderSplit(chains, h); }
    assert Order(chains[h := r]) == front + r + back by { OrderUpdate(chains, h, r); }
    InsertInMiddle(front, chains[h], back, p, v);
  }

  /** Insertion keeps the table well formed, and puts the value in front of its group. */
  lemma InsertKeeps<K(!new), T>(law: Law<K, T>, chains: seq<seq<T>>, v: T)
    requires WellFormed(law, chains) && |chains| > 0 && v !in Order(chains)
    ensures WellFormed(law, Insert(law, chains, v))
    ensures |Order(Insert(law, chains, v))| == |Order(chains)| + 1
  {
    var h := law.Slot(v, |chains|);
    var r := Insert(law, chains, v);
    InsertKeepsGrouped(law, chains[h], v);
    InsertOrder(law, chains, v);
    var g := Offset(chains, h) + Find(law, chains[h], law.key(v));
    assert Order(chains) == Order(chains)[..g] + Order(chains)[g..];
    InsertNoDup(Order(chains)[..g], v, Order(chains)[g..]);
    forall b, p | 0 <= b < |r| && 0 <= p < |r[b]| ensures law.Slot(r[b][p], |r|) == b {
      if b == h {
        var q := Find(law, chains[h], law.key(v));
        if p != q {
          assert r[b][p] == chains[b][if p < q then p else p - 1];
        }
      } else {
        assert r[b][p] == chains[b][p];
      }
    }
  }

  lemma InsertMultimap<K(!new), T>(law: Law<K, T>, chains: seq<seq<T>>, v: T, k: K)
    requires WellFormed(law, chains) && |chains| > 0 && v !in Order(chains)
    ensures Group(law, Order(Insert(law, chains, v)), k)
      == if law.Matches(k, v) then [v] + Group(law, Order(chains), k) else Group(law, Order(chains), k)
  {
    var h, j := law.Slot(v, |chains|), law.hash(k) % |chains|;
    var r := Insert(law, chains, v);
    InsertKeeps(law, chains, v);
    GroupInBucket(law, chains, k);
    GroupInBucket(law, r, k);
    assert law.Matches(k, v) ==> j == h;
    if j == h {
      InsertGroup(law, chains[h], v, k);
    } else {
      assert r[j] == chains[j];
    }
  }

  // ----- removal -----

  function RemoveAt<T>(c: seq<T>, p: nat): seq<T>
    requires p < |c|
  {
    c[..p] + c[p + 1..]
  }

  lemma RemoveFromMiddle<T>(s: seq<T>, a: seq<T>, c: seq<T>, b: seq<T>, p: nat, t: seq<T>)
    requires s == a + c + b && p < |c| && t == a + RemoveAt(c, p) + b
    ensures |a| + p < |s| && t == RemoveAt(s, |a| + p)
  {
  }

  lemma RemoveOrder<T>(chains: seq<seq<T>>, b: nat, p: nat)
    requires b < |chains| && p < |chains[b]|
    ensures Offset(chains, b) + p < |Order(chains)|
    ensures Order(chains[b := RemoveAt(chains[b], p)]) == RemoveAt(Order(chains), Offset(chains, b) + p)
  {
    var r := RemoveAt(chains[b], p);
    OrderSplit(chains, b);
    OrderUpdate(chains, b, r);
    RemoveFromMiddle(Order(chains), Order(chains[..b]), chains[b], Order(chains[b + 1..]), p, Order(chains[b := r]));
  }

  lemma OffsetUpdate<T>(chains: seq<seq<T>>, b: nat, c: seq<T>)
    requires b < |chains|
    ensures Offset(chains[b := c], b) == Offset(chains, b)
  {
    assert chains[b := c][..b] == chains[..b];
  }

  /** `s` without the `n` elements from place `p` on. */
  function Cut<T>(s: seq<T>, p: nat, n: nat): seq<T>
    requires p + n <= |s|
  {
    s[..p] + s[p + n..]
  }

  lemma CutNone<T>(s: seq<T>, p: nat)
    requires p <= |s|
    ensures Cut(s, p, 0) == s
  {
  }

  lemma CutOneMore<T>(s: seq<T>, p: nat, n: nat)
    requires p + n < |s|
    ensures RemoveAt(Cut(s, p, n), p) == Cut(s, p, n + 1) && Cut(s, p, n)[p] == s[p + n]
  {
  }

  /** Cutting where no repetition is removes what it cuts and nothing else. */
  lemma CutUnique<T>(s: seq<T>, p: nat, n: nat, q: nat, m: nat)
    requires NoDup(s) && p + n == q + m <= |s|
    ensures Cut(s, p, n) == Cut(s, q, m) <==> p == q
  {
    assert |Cut(s, p, n)| == |s| - n && |Cut(s, q, m)| == |s| - m;
  }

  /** `rest` is `s` without everything from place `g` to place `l`; this is the range from place `f` on
      if and only if `f` is that place. */
  ghost predicate ErasedFrom<T>(s: seq<T>, g: nat, f: nat, l: nat, rest: seq<T>)
    requires g <= l <= |s|
  {
    rest == Cut(s, g, l - g) && (f <= l ==> (rest == Cut(s, f, l - f) <==> g == f))
  }

  lemma RemoveNoDup<T>(s: seq<T>, p: nat)
    requires NoDup(s) && p < |s|
    ensures NoDup(RemoveAt(s, p))
  {
    var r := RemoveAt(s, p);
    forall i, j | 0 <= i < j < |r| ensures r[i] != r[j] {
      assert r[i] == s[if i < p then i else i + 1] && r[j] == s[if j < p then j else j + 1];
    }
  }

  lemma RemoveElements<T>(s: seq<T>, p: nat)
    requires NoDup(s) && p < |s|
    ensures Elements(RemoveAt(s, p)) == Elements(s) - {s[p]}
  {
    SplitAt(s, p);
    ElementsThree(s[..p], s[p], s[p + 1..]);
    ElementsMember(s[..p], s[p]);
    ElementsMember(s[p + 1..], s[p]);
  }

  lemma ElementsThree<T>(a: seq<T>, x: T, b: seq<T>)
    ensures Elements(a + [x] + b) == Elements(a) + {x} + Elements(b)
    ensures Elements(a + b) == Elements(a) + Elements(b)
  {
    ElementsConcat(a + [x], b);
    ElementsConcat(a, [x]);
    ElementsOne(x);
    ElementsConcat(a, b);
  }

  lemma InsertElements<T>(s: seq<T>, g: nat, v: T)
    requires g <= |s|
    ensures Elements(s[..g] + [v] + s[g..]) == Elements(s) + {v}
  {
    SplitInTwo(s, g);
    ElementsThree(s[..g], v, s[g..]);
  }

  lemma RemoveGrouped<K(!new), T>(law: Law<K, T>, c: seq<T>, p: nat)
    requires Grouped(law, c) && p < |c|
    ensures Grouped(law, RemoveAt(c, p))
  {
    var r := RemoveAt(c, p);
    forall i, j, l | 0 <= i < j < l < |r|
      ensures law.eq(law.key(r[i]), law.key(r[l])) ==> law.eq(law.key(r[i]), law.key(r[j]))
    {
      var i', j', l' := if i < p then i else i + 1, if j < p then j else j + 1, if l < p then l else l + 1;
      assert law.eq(law.key(c[i']), law.key(c[l'])) ==> law.eq(law.key(c[i']), law.key(c[j']));
    }
  }

  lemma RemoveKeeps<K(!new), T>(law: Law<K, T>, chains: seq<seq<T>>, b: nat, p: nat)
    requires WellFormed(law, chains) && b < |chains| && p < |chains[b]|
    ensures WellFormed(law, chains[b := RemoveAt(chains[b], p)])
  {
    var r := chains[b := RemoveAt(chains[b], p)];
    RemoveOrder(chains, b, p);
    RemoveNoDup(Order(chains), Offset(chains, b) + p);
    RemoveGrouped(law, chains[b], p);
    forall a, q | 0 <= a < |r| && 0 <= q < |r[a]| ensures law.Slot(r[a][q], |r|) == a {
      assert r[a][q] == chains[a][if a == b && q >= p then q + 1 else q];
    }
  }

  // ----- rehash -----

  /** Push a group on the front of the bucket its hash selects. */
  function PushGroup<K(!new), T>(law: Law<K, T>, g: seq<T>, tmp: seq<seq<T>>): seq<seq<T>>
    requires g != [] && |tmp| > 0
  {
    var h := law.Slot(g[0], |tmp|);
    tmp[h := g + tmp[h]]
  }

  /** The length of the group at the head of a chain. */
  function HeadRun<K(!new), T>(law: Law<K, T>, c: seq<T>): (e: nat)
    requires c != []
    ensures 1 <= e <= |c|
  {
    RunEnd(law, c, law.key(c[0]), 1)
  }

  /** Move a chain over, one group at a time. */
  function MoveChain<K(!new), T>(law: Law<K, T>, c: seq<T>, tmp: seq<seq<T>>): (r: seq<seq<T>>)
    requires |tmp| > 0
    ensures |r| == |tmp|
    decreases |c|
  {
    if c == [] then tmp
    else
      var e := HeadRun(law, c);
      MoveChain(law, c[e..], PushGroup(law, c[..e], tmp))
  }

  function MoveAll<K(!new), T>(law: Law<K, T>, chains: seq<seq<T>>, tmp: seq<seq<T>>): (r: seq<seq<T>>)
    requires |tmp| > 0
    ensures |r| == |tmp|
    decreases |chains|
  {
    if chains == [] then tmp else MoveAll(law, chains[1..], MoveChain(law, chains[0], tmp))
  }

  function NoChains<T>(m: nat): (r: seq<seq<T>>)
    ensures |r| == m
  {
    seq(m, _ => [])
  }

  function Rehash<K(!new), T>(law: Law<K, T>, chains: seq<seq<T>>, m: nat): (r: seq<seq<T>>)
    requires m > 0
    ensures |r| == m
  {
    MoveAll(law, chains, NoChains(m))
  }

  /** No key of `s` is a key of `t`. */
  ghost predicate Separate<K(!new), T>(law: Law<K, T>, s: seq<T>, t: seq<T>) {
    forall i, j :: 0 <= i < |s| && 0 <= j < |t| ==> !law.eq(law.key(s[i]), law.key(t[j]))
  }

  ghost predicate SameKeys<K(!new), T>(law: Law<K, T>, g: seq<T>) {
    g != [] && forall i :: 0 <= i < |g| ==> law.Matches(law.key(g[0]), g[i])
  }

  lemma HeadRunSplits<K(!new), T>(law: Law<K, T>, c: seq<T>)
    requires law.Lawful() && Grouped(law, c) && c != []
    ensures SameKeys(law, c[..HeadRun(law, c)])
    ensures Separate(law, c[..HeadRun(law, c)], c[HeadRun(law, c)..])
    ensures Grouped(law, c[HeadRun(law, c)..])
  {
    var e := HeadRun(law, c);
    var k := law.key(c[0]);
    forall i, j | 0 <= i < e && e <= j < |c| ensures !law.eq(law.key(c[i]), law.key(c[j])) {
      BetweenMatches(law, c, k, 0, e, j);
      assert law.Matches(k, c[i]);
    }
  }

  lemma PushGroupPlaced<K(!new), T>(law: Law<K, T>, g: seq<T>, tmp: seq<seq<T>>)
    requires law.Lawful() && SameKeys(law, g) && |tmp| > 0 && WellPlaced(law, tmp)
    ensures WellPlaced(law, PushGroup(law, g, tmp))
  {
    var h := law.Slot(g[0], |tmp|);
    var r := PushGroup(law, g, tmp);
    forall b, p | 0 <= b < |r| && 0 <= p < |r[b]| ensures law.Slot(r[b][p], |r|) == b {
      if b == h && p < |g| {
        assert law.Matches(law.key(g[0]), g[p]);
      } else {
        assert r[b][p] == tmp[b][if b == h then p - |g| else p];
      }
    }
  }

  lemma JoinGrouped<K(!new), T>(law: Law<K, T>, g: seq<T>, c: seq<T>)
    requires law.Lawful() && SameKeys(law, g) && Grouped(law, c) && Separate(law, g, c)
    ensures Grouped(law, g + c)
  {
    var d := g + c;
    forall i, j, l | 0 <= i < j < l < |d| && law.eq(law.key(d[i]), law.key(d[l]))
      ensures law.eq(law.key(d[i]), law.key(d[j]))
    {
      if i >= |g| {
        assert law.eq(law.key(c[i - |g|]), law.key(c[l - |g|]));
      } else if l < |g| {
        assert law.Matches(law.key(g[0]), g[i]) && law.Matches(law.key(g[0]), g[j]);
      }
    }
  }

  lemma SeparateFromBucket<K(!new), T>(law: Law<K, T>, g: seq<T>, tmp: seq<seq<T>>, h: nat)
    requires h < |tmp| && Separate(law, g, Order(tmp))
    ensures Separate(law, g, tmp[h])
  {
    forall i, j | 0 <= i < |g| && 0 <= j < |tmp[h]| ensures !law.eq(law.key(g[i]), law.key(tmp[h][j])) {
      OrderIndex(tmp, h, j);
    }
  }

  lemma PushGroupGrouped<K(!new), T>(law: Law<K, T>, g: seq<T>, tmp: seq<seq<T>>)
    requires law.Lawful() && SameKeys(law, g) && |tmp| > 0 && AllGrouped(law, tmp) && Separate(law, g, Order(tmp))
    ensures AllGrouped(law, PushGroup(law, g, tmp))
  {
    var h := law.Slot(g[0], |tmp|);
    SeparateFromBucket(law, g, tmp, h);
    JoinGrouped(law, g, tmp[h]);
  }

  /** What stands in front of the bucket a group is pushed on, and what stands from it on. */
  function Front<K(!new), T>(law: Law<K, T>, g: seq<T>, tmp: seq<seq<T>>): seq<T>
    requires g != [] && |tmp| > 0
  {
    Order(tmp[..law.Slot(g[0], |tmp|)])
  }

  function Back<K(!new), T>(law: Law<K, T>, g: seq<T>, tmp: seq<seq<T>>): seq<T>
    requires g != [] && |tmp| > 0
  {
    var h := law.Slot(g[0], |tmp|);
    tmp[h] + Order(tmp[h + 1..])
  }

  lemma Associate<T>(a: seq<T>, g: seq<T>, c: seq<T>, b: seq<T>)
    ensures a + (g + c) + b == a + g + (c + b) && a + c + b == a + (c + b)
  {
  }

  lemma PushGroupOrder<K(!new), T>(law: Law<K, T>, g: seq<T>, tmp: seq<seq<T>>)
    requires g != [] && |tmp| > 0
    ensures Order(tmp) == Front(law, g, tmp) + Back(law, g, tmp)
    ensures Order(PushGroup(law, g, tmp)) == Front(law, g, tmp) + g + Back(law, g, tmp)
    ensures multiset(Order(PushGroup(law, g, tmp))) == multiset(g) + multiset(Order(tmp))
  {
    var h := law.Slot(g[0], |tmp|);
    OrderSplit(tmp, h);
    OrderUpdate(tmp, h, g + tmp[h]);
    Associate(Order(tmp[..h]), g, tmp[h], Order(tmp[h + 1..]));
  }

  lemma SeparateGroupEmpty<K(!new), T>(law: Law<K, T>, g: seq<T>, s: seq<T>, k: K)
    requires law.Lawful() && Separate(law, g, s)
    ensures Group(law, g, k) == [] || Group(law, s, k) == []
  {
    if i :| 0 <= i < |g| && law.Matches(k, g[i]) {
      forall j | 0 <= j < |s| ensures !law.Matches(k, s[j]) {
        assert !law.eq(law.key(g[i]), law.key(s[j]));
      }
      GroupNone(law, s, k);
    } else {
      GroupNone(law, g, k);
    }
  }

  lemma PushGroupMultimap<K(!new), T>(law: Law<K, T>, g: seq<T>, tmp: seq<seq<T>>, k: K)
    requires law.Lawful() && g != [] && |tmp| > 0 && Separate(law, g, Order(tmp))
    ensures Group(law, Order(PushGroup(law, g, tmp)), k) == Group(law, g, k) + Group(law, Order(tmp), k)
  {
    var a, b := Front(law, g, tmp), Back(law, g, tmp);
    PushGroupOrder(law, g, tmp);
    SeparateGroupEmpty(law, g, Order(tmp), k);
    GroupThree(law, a, g, b, k);
  }

  lemma GroupThree<K(!new), T>(law: Law<K, T>, a: seq<T>, g: seq<T>, b: seq<T>, k: K)
    requires Group(law, g, k) == [] || Group(law, a + b, k) == []
    ensures Group(law, a + g + b, k) == Group(law, g, k) + Group(law, a + b, k)
  {
    GroupConcat(law, a + g, b, k);
    GroupConcat(law, a, g, k);
    GroupConcat(law, a, b, k);
  }

  /** Everything a move step needs to know about what was moved so far. */
  ghost predicate Moving<K(!new), T>(law: Law<K, T>, c: seq<T>, tmp: seq<seq<T>>) {
    && law.Lawful() && |tmp| > 0
    && Grouped(law, c) && WellPlaced(law, tmp) && AllGrouped(law, tmp)
    && Separate(law, c, Order(tmp))
  }

  lemma MultisetMember<T>(s: seq<T>, a: seq<T>, b: seq<T>, i: nat)
    requires multiset(s) == multiset(a) + multiset(b) && i < |s|
    ensures s[i] in a || s[i] in b
  {
    assert s[i] in multiset(s);
  }

  lemma SeparateMember<K(!new), T>(law: Law<K, T>, c: seq<T>, a: seq<T>, b: seq<T>, s: seq<T>)
    requires multiset(s) == multiset(a) + multiset(b)
    requires Separate(law, c, a) && Separate(law, c, b)
    ensures Separate(law, c, s)
  {
    forall i, j | 0 <= i < |c| && 0 <= j < |s| ensures !law.eq(law.key(c[i]), law.key(s[j])) {
      MultisetMember(s, a, b, j);
    }
  }

  lemma SeparateSymmetric<K(!new), T>(law: Law<K, T>, a: seq<T>, b: seq<T>)
    requires law.Lawful() && Separate(law, a, b)
    ensures Separate(law, b, a)
  {
  }

  lemma MoveStep<K(!new), T>(law: Law<K, T>, c: seq<T>, tmp: seq<seq<T>>)
    requires Moving(law, c, tmp) && c != []
    ensures Moving(law, c[HeadRun(law, c)..], PushGroup(law, c[..HeadRun(law, c)], tmp))
  {
    var e := HeadRun(law, c);
    var g := c[..e];
    HeadRunSplits(law, c);
    PushGroupPlaced(law, g, tmp);
    PushGroupGrouped(law, g, tmp);
    PushGroupOrder(law, g, tmp);
    SeparateSymmetric(law, g, c[e..]);
    SeparateMember(law, c[e..], g, Order(tmp), Order(PushGroup(law, g, tmp)));
  }

  lemma MoveStepMultiset<K(!new), T>(law: Law<K, T>, c: seq<T>, tmp: seq<seq<T>>)
    requires c != [] && |tmp| > 0
    ensures var e := HeadRun(law, c);
      multiset(c[e..]) + multiset(Order(PushGroup(law, c[..e], tmp))) == multiset(c) + multiset(Order(tmp))
  {
    var e := HeadRun(law, c);
    PushGroupOrder(law, c[..e], tmp);
    SplitInTwo(c, e);
    PushedMultiset(Front(law, c[..e], tmp), c[..e], Back(law, c[..e], tmp), c[e..]);
  }

  lemma PushedMultiset<T>(a: seq<T>, g: seq<T>, b: seq<T>, c: seq<T>)
    ensures multiset(c) + multiset(a + g + b) == multiset(g + c) + multiset(a + b)
  {
  }

  lemma SwapWhenEmpty<T>(x: seq<T>, y: seq<T>, z: seq<T>)
    requires x == [] || y == []
    ensures y + (x + z) == (x + y) + z
  {
  }

  lemma MoveStepMultimap<K(!new), T>(law: Law<K, T>, c: seq<T>, tmp: seq<seq<T>>, k: K)
    requires Moving(law, c, tmp) && c != []
    ensures var e := HeadRun(law, c);
      Group(law, c[e..], k) + Group(law, Order(PushGroup(law, c[..e], tmp)), k)
        == Group(law, c, k) + Group(law, Order(tmp), k)
  {
    var e := HeadRun(law, c);
    var g := c[..e];
    PushGroupMultimap(law, g, tmp, k);
    HeadRunSplits(law, c);
    SeparateGroupEmpty(law, g, c[e..], k);
    SplitInTwo(c, e);
    GroupConcat(law, g, c[e..], k);
    SwapWhenEmpty(Group(law, g, k), Group(law, c[e..], k), Group(law, Order(tmp), k));
  }

  lemma {:induction false} MoveChainPlaced<K(!new), T>(law: Law<K, T>, c: seq<T>, tmp: seq<seq<T>>)
    requires Moving(law, c, tmp)
    ensures WellPlaced(law, MoveChain(law, c, tmp)) && AllGrouped(law, MoveChain(law, c, tmp))
    decreases |c|
  {
    if c != [] {
      MoveStep(law, c, tmp);
      MoveChainPlaced(law, c[HeadRun(law, c)..], PushGroup(law, c[..HeadRun(law, c)], tmp));
    }
  }

  lemma {:induction false} MoveChainMultiset<K(!new), T>(law: Law<K, T>, c: seq<T>, tmp: seq<seq<T>>)
    requires |tmp| > 0
    ensures multiset(Order(MoveChain(law, c, tmp))) == multiset(c) + multiset(Order(tmp))
    decreases |c|
  {
    if c != [] {
      MoveStepMultiset(law, c, tmp);
      MoveChainMultiset(law, c[HeadRun(law, c)..], PushGroup(law, c[..HeadRun(law, c)], tmp));
    }
  }

  lemma {:induction false} MoveChainMultimap<K(!new), T>(law: Law<K, T>, c: seq<T>, tmp: seq<seq<T>>, k: K)
    requires Moving(law, c, tmp)
    ensures Group(law, Order(MoveChain(law, c, tmp)), k) == Group(law, c, k) + Group(law, Order(tmp), k)
    decreases |c|
  {
    if c != [] {
      MoveStep(law, c, tmp);
      MoveStepMultimap(law, c, tmp, k);
      MoveChainMultimap(law, c[HeadRun(law, c)..], PushGroup(law, c[..HeadRun(law, c)], tmp), k);
    }
  }

  /** A bucket being filled only grows at its front. */
  ghost predicate EndsWith<T>(s: seq<T>, t: seq<T>) {
    |t| <= |s| && s[|s| - |t|..] == t
  }

  lemma EndsWithTwice<T>(s: seq<T>, t: seq<T>, u: seq<T>)
    requires EndsWith(s, t) && EndsWith(t, u)
    ensures EndsWith(s, u)
  {
    assert s[|s| - |u|..] == s[|s| - |t|..][|t| - |u|..];
  }

  lemma PushGroupEndsWith<K(!new), T>(law: Law<K, T>, g: seq<T>, tmp: seq<seq<T>>, h: nat)
    requires g != [] && h < |tmp|
    ensures EndsWith(PushGroup(law, g, tmp)[h], tmp[h])
  {
  }

  lemma {:induction false} MoveChainGrowsFront<K(!new), T>(law: Law<K, T>, c: seq<T>, tmp: seq<seq<T>>, h: nat)
    requires |tmp| > 0 && h < |tmp|
    ensures EndsWith(MoveChain(law, c, tmp)[h], tmp[h])
    decreases |c|
  {
    if c != [] {
      var e := HeadRun(law, c);
      var next := PushGroup(law, c[..e], tmp);
      PushGroupEndsWith(law, c[..e], tmp, h);
      MoveChainGrowsFront(law, c[e..], next, h);
      EndsWithTwice(MoveChain(law, c, tmp)[h], next[h], tmp[h]);
    }
  }

  ghost predicate MovingAll<K(!new), T>(law: Law<K, T>, chains: seq<seq<T>>, tmp: seq<seq<T>>) {
    && law.Lawful() && |tmp| > 0
    && AllGrouped(law, chains) && WellPlaced(law, tmp) && AllGrouped(law, tmp)
    && (forall a :: 0 <= a < |chains| ==> Separate(law, chains[a], Order(tmp)))
    && (forall a, b :: 0 <= a < b < |chains| ==> Separate(law, chains[b], chains[a]))
  }

  lemma MoveAllStep<K(!new), T>(law: Law<K, T>, chains: seq<seq<T>>, tmp: seq<seq<T>>)
    requires MovingAll(law, chains, tmp) && chains != []
    ensures Moving(law, chains[0], tmp)
    ensures MovingAll(law, chains[1..], MoveChain(law, chains[0], tmp))
  {
    var r := MoveChain(law, chains[0], tmp);
    MoveChainPlaced(law, chains[0], tmp);
    MoveChainMultiset(law, chains[0], tmp);
    forall a | 0 <= a < |chains[1..]| ensures Separate(law, chains[1..][a], Order(r)) {
      assert Separate(law, chains[a + 1], chains[0]) && Separate(law, chains[a + 1], Order(tmp));
      SeparateMember(law, chains[a + 1], chains[0], Order(tmp), Order(r));
    }
    forall a | 0 <= a < |chains[1..]| ensures Grouped(law, chains[1..][a]) {
      assert Grouped(law, chains[a + 1]);
    }
    forall a, b | 0 <= a < b < |chains[1..]| ensures Separate(law, chains[1..][b], chains[1..][a]) {
      assert Separate(law, chains[b + 1], chains[a + 1]);
    }
  }

  lemma OrderHead<T>(chains: seq<seq<T>>)
    requires chains != []
    ensures Order(chains) == chains[0] + Order(chains[1..])
  {
    OrderSplit(chains, 0);
    assert chains[..0] == [];
  }

  lemma {:induction false} MoveAllKeeps<K(!new), T>(law: Law<K, T>, chains: seq<seq<T>>, tmp: seq<seq<T>>)
    requires MovingAll(law, chains, tmp)
    ensures var r := MoveAll(law, chains, tmp);
      && WellPlaced(law, r) && AllGrouped(law, r)
      && multiset(Order(r)) == multiset(Order(chains)) + multiset(Order(tmp))
    decreases |chains|
  {
    if chains != [] {
      MoveAllStep(law, chains, tmp);
      MoveChainMultiset(law, chains[0], tmp);
      MoveAllKeeps(law, chains[1..], MoveChain(law, chains[0], tmp));
      OrderHead(chains);
    }
  }

  lemma MoveAllStepMultimap<K(!new), T>(law: Law<K, T>, chains: seq<seq<T>>, tmp: seq<seq<T>>, k: K)
    requires MovingAll(law, chains, tmp) && chains != []
    ensures Group(law, Order(chains[1..]), k) + Group(law, Order(MoveChain(law, chains[0], tmp)), k)
      == Group(law, Order(chains), k) + Group(law, Order(tmp), k)
  {
    MoveChainMultimap(law, chains[0], tmp, k);
    OrderHead(chains);
    GroupConcat(law, chains[0], Order(chains[1..]), k);
    MatchingChainsApart(law, chains, k);
    SwapWhenEmpty(Group(law, chains[0], k), Group(law, Order(chains[1..]), k), Group(law, Order(tmp), k));
  }

  lemma {:induction false} MoveAllMultimap<K(!new), T>(law: Law<K, T>, chains: seq<seq<T>>, tmp: seq<seq<T>>, k: K)
    requires MovingAll(law, chains, tmp)
    ensures Group(law, Order(MoveAll(law, chains, tmp)), k) == Group(law, Order(chains), k) + Group(law, Order(tmp), k)
    decreases |chains|
  {
    if chains != [] {
      MoveAllStep(law, chains, tmp);
      MoveAllStepMultimap(law, chains, tmp, k);
      MoveAllMultimap(law, chains[1..], MoveChain(law, chains[0], tmp), k);
    }
  }

  lemma MatchingChainsApart<K(!new), T>(law: Law<K, T>, chains: seq<seq<T>>, k: K)
    requires law.Lawful() && chains != []
    requires forall a, b :: 0 <= a < b < |chains| ==> Separate(law, chains[b], chains[a])
    ensures Group(law, chains[0], k) == [] || Group(law, Order(chains[1..]), k) == []
  {
    if i :| 0 <= i < |chains[0]| && law.Matches(k, chains[0][i]) {
      var rest := chains[1..];
      forall b, p | 0 <= b < |rest| && 0 <= p < |rest[b]| ensures !law.Matches(k, rest[b][p]) {
        assert Separate(law, chains[b + 1], chains[0]);
        assert !law.eq(law.key(chains[b + 1][p]), law.key(chains[0][i]));
      }
      GroupElsewhere(law, rest, k);
    } else {
      GroupNone(law, chains[0], k);
    }
  }

  lemma {:induction false} NoChainsEmpty<T>(m: nat)
    ensures Order<T>(NoChains(m)) == []
  {
    if m > 0 {
      NoChainsEmpty<T>(m - 1);
      assert NoChains<T>(m)[..m - 1] == NoChains(m - 1);
    }
  }

  /** Moving one group out of bucket `i` leaves the same work to do, and no repetition. */
  lemma MoveGroupStep<K(!new), T>(law: Law<K, T>, chains: seq<seq<T>>, tchains: seq<seq<T>>, i: nat)
    requires i < |chains| && chains[i] != [] && |tchains| > 0 && NoDup(Order(chains) + Order(tchains))
    ensures var c := chains[i];
      var e := HeadRun(law, c);
      && MoveAll(law, chains[i := c[e..]][i..], PushGroup(law, c[..e], tchains)) == MoveAll(law, chains[i..], tchains)
      && NoDup(Order(chains[i := c[e..]]) + Order(PushGroup(law, c[..e], tchains)))
  {
    var c := chains[i];
    var e := HeadRun(law, c);
    assert chains[i := c[e..]][i..][1..] == chains[i..][1..];
    OrderSplit(chains, i);
    OrderUpdate(chains, i, c[e..]);
    PushGroupOrder(law, c[..e], tchains);
    assert c == c[..e] + c[e..];
    MultisetNoDup(Order(chains) + Order(tchains), Order(chains[i := c[e..]]) + Order(PushGroup(law, c[..e], tchains)));
  }

  lemma BucketsSeparate<K(!new), T>(law: Law<K, T>, chains: seq<seq<T>>, a: nat, b: nat)
    requires law.Lawful() && WellPlaced(law, chains) && a < |chains| && b < |chains| && a != b
    ensures Separate(law, chains[a], chains[b])
  {
    forall i, j | 0 <= i < |chains[a]| && 0 <= j < |chains[b]|
      ensures !law.eq(law.key(chains[a][i]), law.key(chains[b][j]))
    {
      assert law.Slot(chains[a][i], |chains|) == a && law.Slot(chains[b][j], |chains|) == b;
    }
  }

  lemma RehashMoving<K(!new), T>(law: Law<K, T>, chains: seq<seq<T>>, m: nat)
    requires WellFormed(law, chains) && m > 0
    ensures MovingAll(law, chains, NoChains(m))
  {
    NoChainsEmpty<T>(m);
    forall a, b | 0 <= a < b < |chains| ensures Separate(law, chains[b], chains[a]) {
      BucketsSeparate(law, chains, b, a);
    }
  }

  /** A rehash keeps the same elements, well placed and grouped. */
  lemma RehashKeeps<K(!new), T>(law: Law<K, T>, chains: seq<seq<T>>, m: nat)
    requires WellFormed(law, chains) && m > 0
    ensures WellFormed(law, Rehash(law, chains, m))
    ensures multiset(Order(Rehash(law, chains, m))) == multiset(Order(chains))
    ensures |Order(Rehash(law, chains, m))| == |Order(chains)|
  {
    RehashMoving(law, chains, m);
    NoChainsEmpty<T>(m);
    MoveAllKeeps(law, chains, NoChains(m));
    MultisetNoDup(Order(chains), Order(Rehash(law, chains, m)));
  }

  /** A rehash keeps every equal-key group, in its order: the multimap does not change. */
  lemma RehashMultimap<K(!new), T>(law: Law<K, T>, chains: seq<seq<T>>, m: nat, k: K)
    requires WellFormed(law, chains) && m > 0
    ensures Group(law, Order(Rehash(law, chains, m)), k) == Group(law, Order(chains), k)
  {
    RehashMoving(law, chains, m);
    NoChainsEmpty<T>(m);
    MoveAllMultimap(law, chains, NoChains(m), k);
  }

  // ----- resize -----

  const AVG_BUCKET_COUNT: nat := 64

  function BucketsFor(size: nat): nat {
    1 + size / AVG_BUCKET_COUNT
  }

  /** `resize`: with nothing left, one empty bucket; otherwise a rehash when more buckets are needed
      than there are. */
  function Resized<K(!new), T>(law: Law<K, T>, chains: seq<seq<T>>, size: nat): (r: seq<seq<T>>)
    ensures r != [] || size > 0
  {
    if size == 0 then [[]]
    else if BucketsFor(size) > |chains| then Rehash(law, chains, BucketsFor(size))
    else chains
  }

  lemma ResizedKeeps<K(!new), T>(law: Law<K, T>, chains: seq<seq<T>>, size: nat)
    requires WellFormed(law, chains) && size == |Order(chains)|
    ensures WellFormed(law, Resized(law, chains, size))
    ensures multiset(Order(Resized(law, chains, size))) == multiset(Order(chains))
    ensures |Order(Resized(law, chains, size))| == size && |Resized(law, chains, size)| >= BucketsFor(size)
  {
    if size == 0 {
      OrderOne<T>([]);
    } else if BucketsFor(size) > |chains| {
      RehashKeeps(law, chains, BucketsFor(size));
    }
  }

  lemma ResizedMultimap<K(!new), T>(law: Law<K, T>, chains: seq<seq<T>>, size: nat, k: K)
    requires WellFormed(law, chains) && size == |Order(chains)|
    ensures Group(law, Order(Resized(law, chains, size)), k) == Group(law, Order(chains), k)
  {
    if size == 0 {
      OrderOne<T>([]);
    } else if BucketsFor(size) > |chains| {
      RehashMultimap(law, chains, BucketsFor(size), k);
    }
  }

  /** An insertion into these chains needs more buckets than there are. */
  predicate Grows<T>(chains: seq<seq<T>>) {
    |chains| < BucketsFor(|Order(chains)| + 1)
  }

  /** That is so when the number of elements and one more reaches the average for each bucket. */
  lemma GrowsWhenFull<T>(chains: seq<seq<T>>)
    requires |chains| > 0
    ensures Grows(chains) <==> |Order(chains)| + 1 >= AVG_BUCKET_COUNT * |chains|
  {
  }

  /** The chains after an insertion. */
  function Inserted<K(!new), T>(law: Law<K, T>, chains: seq<seq<T>>, v: T): seq<seq<T>>
    requires |chains| > 0
  {
    Resized(law, Insert(law, chains, v), |Order(chains)| + 1)
  }

  lemma InsertedKeeps<K(!new), T>(law: Law<K, T>, chains: seq<seq<T>>, v: T)
    requires WellFormed(law, chains) && |chains| > 0 && v !in Order(chains)
    ensures WellFormed(law, Inserted(law, chains, v))
    ensures |Order(Inserted(law, chains, v))| == |Order(chains)| + 1
    ensures |Inserted(law, chains, v)| >= BucketsFor(|Order(chains)| + 1)
  {
    InsertKeeps(law, chains, v);
    ResizedKeeps(law, Insert(law, chains, v), |Order(chains)| + 1);
  }

  lemma InsertedElements<K(!new), T>(law: Law<K, T>, chains: seq<seq<T>>, v: T)
    requires WellFormed(law, chains) && |chains| > 0 && v !in Order(chains)
    ensures Elements(Order(Inserted(law, chains, v))) == Elements(Order(chains)) + {v}
  {
    InsertKeeps(law, chains, v);
    InsertOrder(law, chains, v);
    var h := law.Slot(v, |chains|);
    InsertElements(Order(chains), Offset(chains, h) + Find(law, chains[h], law.key(v)), v);
    ResizedKeeps(law, Insert(law, chains, v), |Order(chains)| + 1);
    PermuteElements(Order(Insert(law, chains, v)), Order(Inserted(law, chains, v)));
  }

  /** An insertion puts the new element in front of its equal-key group and changes no other group,
      rehash or not. */
  lemma InsertedMultimap<K(!new), T>(law: Law<K, T>, chains: seq<seq<T>>, v: T, k: K)
    requires WellFormed(law, chains) && |chains| > 0 && v !in Order(chains)
    ensures Group(law, Order(Inserted(law, chains, v)), k)
      == if law.Matches(k, v) then [v] + Group(law, Order(chains), k) else Group(law, Order(chains), k)
  {
    InsertKeeps(law, chains, v);
    InsertMultimap(law, chains, v, k);
    ResizedMultimap(law, Insert(law, chains, v), |Order(chains)| + 1, k);
  }

  /** The place in the order where the group of a key begins. */
  function GroupStart<K(!new), T>(law: Law<K, T>, chains: seq<seq<T>>, k: K): nat
    requires |chains| > 0
  {
    var h := law.hash(k) % |chains|;
    Offset(chains, h) + Find(law, chains[h], k)
  }

  /** The group of a key is a stretch of the order. */
  lemma GroupStretch<K(!new), T>(law: Law<K, T>, chains: seq<seq<T>>, k: K)
    requires WellFormed(law, chains) && |chains| > 0
    ensures var g := GroupStart(law, chains, k);
      var n := |Group(law, Order(chains), k)|;
      g + n <= |Order(chains)| && Order(chains)[g..g + n] == Group(law, Order(chains), k)
  {
    var h := law.hash(k) % |chains|;
    var c := chains[h];
    var p := Find(law, c, k);
    var e := RunEnd(law, c, k, p);
    assert Group(law, Order(chains), k) == c[p..e] by {
      GroupInBucket(law, chains, k);
      GroupIsRun(law, c, k);
    }
    assert |c[p..e]| == e - p;
    StretchOfBucket(chains, h, p, e);
  }

  lemma StretchOfBucket<T>(chains: seq<seq<T>>, h: nat, p: nat, e: nat)
    requires h < |chains| && p <= e <= |chains[h]|
    ensures Offset(chains, h) + e <= |Order(chains)|
    ensures Order(chains)[Offset(chains, h) + p..Offset(chains, h) + e] == chains[h][p..e]
  {
    OrderSplit(chains, h);
    StretchOfMiddle(Order(chains[..h]), chains[h], Order(chains[h + 1..]), p, e);
  }

  lemma StretchOfMiddle<T>(a: seq<T>, c: seq<T>, b: seq<T>, p: nat, e: nat)
    requires p <= e <= |c|
    ensures (a + c + b)[|a| + p..|a| + e] == c[p..e]
  {
  }

  lemma {:induction false} GroupMembers<K(!new), T>(law: Law<K, T>, s: seq<T>, k: K)
    ensures forall i :: 0 <= i < |Group(law, s, k)| ==> law.Matches(k, Group(law, s, k)[i])
  {
    if s != [] {
      GroupMembers(law, s[..|s| - 1], k);
    }
  }

  lemma {:induction false} EqualKeysSameGroup<K(!new), T>(law: Law<K, T>, s: seq<T>, k: K, j: K)
    requires law.Lawful() && law.eq(k, j)
    ensures Group(law, s, k) == Group(law, s, j)
  {
    if s != [] {
      EqualKeysSameGroup(law, s[..|s| - 1], k, j);
    }
  }

  lemma OtherKeysNoGroup<K(!new), T>(law: Law<K, T>, s: seq<T>, k: K, j: K)
    requires law.Lawful() && !law.eq(k, j) && forall i :: 0 <= i < |s| ==> law.Matches(k, s[i])
    ensures Group(law, s, j) == []
  {
    forall i | 0 <= i < |s| ensures !law.Matches(j, s[i]) {
      assert law.Matches(k, s[i]);
    }
    GroupNone(law, s, j);
  }

  lemma GroupIsAll<K(!new), T>(law: Law<K, T>, a: seq<T>, g: seq<T>, b: seq<T>, k: K)
    requires g == Group(law, a + g + b, k)
    ensures Group(law, g, k) == g && Group(law, a, k) == [] && Group(law, b, k) == []
  {
    GroupMembers(law, a + g + b, k);
    GroupAll(law, g, k);
    GroupConcat(law, a + g, b, k);
    GroupConcat(law, a, g, k);
  }

  lemma GroupWithout<K(!new), T>(law: Law<K, T>, a: seq<T>, g: seq<T>, b: seq<T>, k: K, j: K)
    requires law.Lawful() && g == Group(law, a + g + b, k)
    ensures Group(law, a + b, j) == if law.eq(k, j) then [] else Group(law, a + g + b, j)
  {
    GroupIsAll(law, a, g, b, k);
    GroupConcat(law, a, b, j);
    if law.eq(k, j) {
      EqualKeysSameGroup(law, a, k, j);
      EqualKeysSameGroup(law, b, k, j);
    } else {
      GroupMembers(law, g, k);
      OtherKeysNoGroup(law, g, k, j);
      GroupThree(law, a, g, b, j);
    }
  }

  /** Erasing the stretch of a key, as `erase` does between the iterators of `equal_range`, leaves no
      element with that key and changes no other group. */
  lemma EraseGroupMultimap<K(!new), T>(law: Law<K, T>, chains: seq<seq<T>>, k: K, j: K)
    requires WellFormed(law, chains) && |chains| > 0
    ensures var g, n := GroupStart(law, chains, k), |Group(law, Order(chains), k)|;
            g + n <= |Order(chains)| && Group(law, Cut(Order(chains), g, n), j)
              == if law.eq(k, j) then [] else Group(law, Order(chains), j)
  {
    GroupStretch(law, chains, k);
    CutGroup(law, Order(chains), GroupStart(law, chains, k), |Group(law, Order(chains), k)|, k, j);
  }

  lemma CutGroup<K(!new), T>(law: Law<K, T>, s: seq<T>, g: nat, n: nat, k: K, j: K)
    requires law.Lawful() && g + n <= |s| && s[g..g + n] == Group(law, s, k)
    ensures Group(law, Cut(s, g, n), j) == if law.eq(k, j) then [] else Group(law, s, j)
  {
    SplitInThree(s, g, n);
    GroupWithout(law, s[..g], s[g..g + n], s[g + n..], k, j);
  }

  /** The chains after `n` elements from place `g` of the order on have been erased: cut chains, or
      one empty bucket when nothing is left. */
  lemma ErasedShape<K(!new), T>(law: Law<K, T>, chains: seq<seq<T>>, size: nat)
    requires size == |Order(chains)| && |chains| >= BucketsFor(size)
    ensures Resized(law, chains, size) == if size == 0 then [[]] else chains
    ensures Order(Resized(law, chains, size)) == Order(chains)
  {
    if size == 0 {
      OrderOne<T>([]);
    }
  }

  // ----- what a rehash does to neighbours -----

  /** `x` stands somewhere without `y` right behind it. */
  ghost predicate Parted<T>(chains: seq<seq<T>>, x: T, y: T) {
    exists b, q :: 0 <= b < |chains| && 0 <= q < |chains[b]| && chains[b][q] == x
      && (q + 1 == |chains[b]| || chains[b][q + 1] != y)
  }

  lemma {:induction false} MoveChainKeepsParted<K(!new), T>(law: Law<K, T>, c: seq<T>, tmp: seq<seq<T>>, x: T, y: T)
    requires |tmp| > 0 && Parted(tmp, x, y)
    ensures Parted(MoveChain(law, c, tmp), x, y)
  {
    var b, q :| 0 <= b < |tmp| && 0 <= q < |tmp[b]| && tmp[b][q] == x && (q + 1 == |tmp[b]| || tmp[b][q + 1] != y);
    MoveChainGrowsFront(law, c, tmp, b);
    var r := MoveChain(law, c, tmp)[b];
    var d := |r| - |tmp[b]|;
    assert r[d + q] == r[d..][q];
    if q + 1 < |tmp[b]| {
      assert r[d + q + 1] == r[d..][q + 1];
    }
  }

  lemma {:induction false} MoveAllKeepsParted<K(!new), T>(law: Law<K, T>, chains: seq<seq<T>>, tmp: seq<seq<T>>,
                                                             x: T, y: T)
    requires |tmp| > 0 && Parted(tmp, x, y)
    ensures Parted(MoveAll(law, chains, tmp), x, y)
    decreases |chains|
  {
    if chains != [] {
      MoveChainKeepsParted(law, chains[0], tmp, x, y);
      MoveAllKeepsParted(law, chains[1..], MoveChain(law, chains[0], tmp), x, y);
    }
  }

  lemma HeadRunWithin<K(!new), T>(law: Law<K, T>, c: seq<T>, p: nat)
    requires law.Lawful() && 0 < p < |c| && !law.eq(law.key(c[p - 1]), law.key(c[p]))
    ensures HeadRun(law, c) <= p
  {
    MatchesAgree(law, law.key(c[0]), c[p - 1], c[p]);
  }

  lemma MatchesAgree<K(!new), T>(law: Law<K, T>, k: K, x: T, y: T)
    requires law.Lawful()
    ensures law.Matches(k, x) && law.Matches(k, y) ==> law.eq(law.key(x), law.key(y))
  {
  }

  lemma PushGroupParts<K(!new), T>(law: Law<K, T>, g: seq<T>, tmp: seq<seq<T>>, y: T)
    requires g != [] && |tmp| > 0 && y !in Order(tmp)
    ensures Parted(PushGroup(law, g, tmp), g[|g| - 1], y)
  {
    var h := law.Slot(g[0], |tmp|);
    var r := PushGroup(law, g, tmp);
    assert r[h][|g| - 1] == g[|g| - 1];
    if tmp[h] != [] {
      OrderIndex(tmp, h, 0);
      assert r[h][|g|] == tmp[h][0];
    }
  }

  /** Neighbours in one chain with different keys are neighbours no more after a rehash. */
  lemma NotPushed<T>(a: seq<T>, g: seq<T>, b: seq<T>, x: T)
    requires x !in g && x !in a + b
    ensures x !in a + g + b
  {
  }

  lemma ElsewhereInChain<T>(c: seq<T>, e: nat, p: nat)
    requires e < p < |c| && c[p] !in c[..p]
    ensures c[p] !in c[..e] && c[e..][p - e] == c[p] && c[e..][p - e - 1] == c[p - 1]
    ensures c[p] !in c[e..][..p - e]
  {
  }

  lemma {:induction false} MoveChainParts<K(!new), T>(law: Law<K, T>, c: seq<T>, tmp: seq<seq<T>>, p: nat)
    requires law.Lawful() && |tmp| > 0 && 0 < p < |c| && !law.eq(law.key(c[p - 1]), law.key(c[p]))
    requires c[p] !in Order(tmp) && c[p] !in c[..p]
    ensures Parted(MoveChain(law, c, tmp), c[p - 1], c[p])
    decreases |c|
  {
    var e := HeadRun(law, c);
    var tmp' := PushGroup(law, c[..e], tmp);
    HeadRunWithin(law, c, p);
    if e == p {
      PushGroupParts(law, c[..e], tmp, c[p]);
      MoveChainKeepsParted(law, c[e..], tmp', c[p - 1], c[p]);
    } else {
      PushGroupOrder(law, c[..e], tmp);
      ElsewhereInChain(c, e, p);
      NotPushed(Front(law, c[..e], tmp), c[..e], Back(law, c[..e], tmp), c[p]);
      MoveChainParts(law, c[e..], tmp', p - e);
    }
  }

  lemma {:induction false} MoveAllParts<K(!new), T>(law: Law<K, T>, chains: seq<seq<T>>, tmp: seq<seq<T>>,
                                                       h: nat, p: nat)
    requires law.Lawful() && |tmp| > 0 && h < |chains| && 0 < p < |chains[h]|
    requires !law.eq(law.key(chains[h][p - 1]), law.key(chains[h][p]))
    requires NoDup(Order(chains)) && chains[h][p] !in Order(tmp)
    ensures Parted(MoveAll(law, chains, tmp), chains[h][p - 1], chains[h][p])
    decreases |chains|
  {
    var x, y := chains[h][p - 1], chains[h][p];
    PlacesDiffer(chains, h, p);
    if h == 0 {
      MoveChainParts(law, chains[0], tmp, p);
      MoveAllKeepsParted(law, chains[1..], MoveChain(law, chains[0], tmp), x, y);
    } else {
      MoveChainMultiset(law, chains[0], tmp);
      assert y !in chains[0];
      assert y !in Order(MoveChain(law, chains[0], tmp)) by {
        assert multiset(Order(MoveChain(law, chains[0], tmp)))[y] == multiset(chains[0])[y] + multiset(Order(tmp))[y];
      }
      OrderHead(chains);
      NoDupTail(chains[0], Order(chains[1..]));
      MoveAllParts(law, chains[1..], MoveChain(law, chains[0], tmp), h - 1, p);
    }
  }

  lemma NoDupTail<T>(s: seq<T>, t: seq<T>)
    requires NoDup(s + t)
    ensures NoDup(t)
  {
    forall i, j | 0 <= i < j < |t| ensures t[i] != t[j] {
      assert (s + t)[|s| + i] == t[i] && (s + t)[|s| + j] == t[j];
    }
  }

  /** After an insertion that rehashes, the node in front of the new one no longer points at it. */
  lemma InsertedParts<K(!new), T>(law: Law<K, T>, chains: seq<seq<T>>, v: T)
    requires WellFormed(law, chains) && |chains| > 0 && v !in Order(chains)
    requires Grows(chains)
    requires Find(law, chains[law.Slot(v, |chains|)], law.key(v)) > 0
    ensures var h := law.Slot(v, |chains|);
      Parted(Inserted(law, chains, v), chains[h][Find(law, chains[h], law.key(v)) - 1], v)
  {
    var h := law.Slot(v, |chains|);
    var p := Find(law, chains[h], law.key(v));
    InsertKeeps(law, chains, v);
    assert !law.Matches(law.key(v), chains[h][p - 1]);
    RehashParts(law, Insert(law, chains, v), BucketsFor(|Order(chains)| + 1), h, p);
  }

  lemma RehashParts<K(!new), T>(law: Law<K, T>, chains: seq<seq<T>>, m: nat, h: nat, p: nat)
    requires WellFormed(law, chains) && m > 0 && h < |chains| && 0 < p < |chains[h]|
    requires !law.eq(law.key(chains[h][p - 1]), law.key(chains[h][p]))
    ensures Parted(Rehash(law, chains, m), chains[h][p - 1], chains[h][p])
  {
    NoChainsEmpty<T>(m);
    MoveAllParts(law, chains, NoChains(m), h, p);
  }
}
