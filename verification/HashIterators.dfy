/** utilmm/hash/bits/iter.tcc: iteration across buckets, and the range searches built on it. */
module HashIterators {
  import opened Sequences
  import opened HashChains
  import opened HashOperations
  import opened HashLinks
  import opened HashTable

  /** Where the element at index `i` of the order is stored. */
  lemma PlaceOf<T>(chains: seq<seq<T>>, i: nat) returns (b: nat, p: nat)
    requires i < |Order(chains)| && NoDup(Order(chains))
    ensures b < |chains| && p < |chains[b]| && chains[b][p] == Order(chains)[i] && Offset(chains, b) + p == i
  {
    OrderMember(chains, Order(chains)[i]);
    b, p :| 0 <= b < |chains| && 0 <= p < |chains[b]| && chains[b][p] == Order(chains)[i];
    OrderIndex(chains, b, p);
  }

  /** Node `n`, or null, stands at place `p` of chain `b`, where place `k` of the order would be. */
  ghost predicate InChain<V>(chains: seq<seq<Node<V>>>, n: Node?<V>, k: nat, b: nat, p: nat) {
    b < |chains| && p <= |chains[b]| && Offset(chains, b) + p == k && n == At(chains[b], p)
  }

  /** And it is place `k` of the order. */
  ghost predicate Placed<V>(chains: seq<seq<Node<V>>>, n: Node?<V>, k: nat, b: nat, p: nat) {
    InChain(chains, n, k, b, p) && n == At(Order(chains), k)
  }

  lemma IsPlaced<V>(chains: seq<seq<Node<V>>>, n: Node?<V>, k: nat, b: nat, p: nat)
    requires InChain(chains, n, k, b, p) && (p == |chains[b]| ==> b + 1 == |chains|)
    ensures Placed(chains, n, k, b, p)
  {
    AtPlace(chains, b, p);
  }

  lemma NextChain<V>(chains: seq<seq<Node<V>>>, k: nat, b: nat, p: nat)
    requires InChain(chains, null, k, b, p) && b + 1 < |chains|
    ensures InChain(chains, At(chains[b + 1], 0), k, b + 1, 0)
  {
    OffsetStep(chains, b);
  }

  /** Past the end, all places are one. */
  lemma SamePlace<V>(s: seq<Node<V>>, k: nat, m: nat)
    requires k == m || (k < m && At(s, k) == null)
    ensures At(s, m) == At(s, k)
  {
  }

  /** Iteration needs a table that is ready; it never changes one. */
  datatype Status = Usable | Unusable

  ghost function StatusOf<K(!new), V>(t: Table<K, V>): Status
    reads t, t.repr
  {
    if t.Ready() then Usable else Unusable
  }

  lemma UsableFacts<K(!new), V>(t: Table<K, V>)
    requires StatusOf(t) == Usable
    ensures t.Ready() && NoDup(Order(t.chains)) && t.repr == Elements(Order(t.chains))
  {
  }

  class Iter<K(!new), V> {
    const owner: Table<K, V>
    var current: Node?<V>

    constructor (node: Node?<V>, creator: Table<K, V>)
      ensures owner == creator && current == node
    {
      owner := creator;
      current := node;
    }

    /** The iterator stands at index `i` of the order, or at the end. */
    ghost predicate StandsAt(i: nat)
      reads this, owner
    {
      current == At(Order(owner.chains), i)
    }

    /** Go on to the next used bucket when a chain is exhausted. */
    method SkipEmpty(pos: nat, ghost k: nat, ghost b: nat, ghost p: nat)
      returns (pos': nat, ghost b': nat, ghost p': nat)
      requires owner.Chained() && pos == b + 1 && InChain(owner.chains, current, k, b, p)
      modifies this
      ensures pos' == b' + 1 && InChain(owner.chains, current, k, b', p')
      ensures p' == |owner.chains[b']| ==> b' + 1 == |owner.chains|
    {
      pos', b', p' := pos, b, p;
      while current == null && pos' < |owner.bucket|
        invariant owner.Chained() && pos' == b' + 1 && InChain(owner.chains, current, k, b', p')
        decreases |owner.bucket| - pos'
      {
        NextChain(owner.chains, k, b', p');
        current := owner.bucket[pos'];
        pos' := pos' + 1;
        b', p' := b' + 1, 0;
      }
    }

    /** `current = current->next`. */
    method ToNext(ghost k: nat, ghost b: nat, ghost p: nat)
      requires owner.Chained() && current != null && InChain(owner.chains, current, k, b, p)
      modifies this
      ensures owner.Chained() && InChain(owner.chains, current, k + 1, b, p + 1)
    {
      owner.NextIn(b, p);
      current := current.next;
    }

    /** One step, with the bucket counter carried along. */
    method StepOn(pos: nat, ghost k: nat, ghost b: nat, ghost p: nat)
      returns (pos': nat, ghost b': nat, ghost p': nat)
      requires owner.Chained() && current != null && pos == b + 1 && Placed(owner.chains, current, k, b, p)
      modifies this
      ensures pos' == b' + 1 && Placed(owner.chains, current, k + 1, b', p')
    {
      ToNext(k, b, p);
      pos', b', p' := SkipEmpty(pos, k + 1, b, p + 1);
      IsPlaced(owner.chains, current, k + 1, b', p');
    }

    /** The loop of `operator+=`, from place `(b, p)` to index `j`. */
    method Walk(delta: nat, pos: nat, ghost i: nat, ghost j: nat, ghost b: nat, ghost p: nat)
      requires owner.Chained() && j == i + delta && pos == b + 1 && Placed(owner.chains, current, i, b, p)
      modifies this
      ensures StandsAt(j)
    {
      var pos: nat, d: nat := pos, delta;
      ghost var b: nat, p: nat, k: nat := b, p, i;
      while current != null && 0 < d
        invariant owner.Chained() && pos == b + 1 && k == j - d && Placed(owner.chains, current, k, b, p)
        decreases d
      {
        pos, b, p := StepOn(pos, k, b, p);
        d, k := d - 1, k + 1;
      }
      SamePlace(Order(owner.chains), k, j);
    }

    lemma Locate(i: nat) returns (b: nat, p: nat)
      requires StatusOf(owner) == Usable && StandsAt(i) && i < |Order(owner.chains)|
      ensures owner.Chained() && current != null && Placed(owner.chains, current, i, b, p)
      ensures owner.bucket != [] && owner.policy.hash(owner.policy.key(current.val)) % |owner.bucket| == b
    {
      UsableFacts(owner);
      b, p := PlaceOf(owner.chains, i);
      assert owner.law.Slot(owner.chains[b][p], |owner.chains|) == b;
    }

    /** `operator+=`. The bucket of the current node is computed once, before the loop. Reading that
        node, the code needs an iterator that is not at the end. */
    method PlusAssign(delta: nat, ghost i: nat)
      requires StatusOf(owner) == Usable && StandsAt(i) && i < |Order(owner.chains)|
      modifies this
      ensures StandsAt(i + delta)
    {
      ghost var b: nat, p: nat := Locate(i);
      var pos := owner.policy.hash(owner.policy.key(current.val)) % |owner.bucket| + 1;
      Walk(delta, pos, i, i + delta, b, p);
    }

    /** `operator++`. */
    method Increment(ghost i: nat)
      requires StatusOf(owner) == Usable && StandsAt(i) && i < |Order(owner.chains)|
      modifies this
      ensures StatusOf(owner) == Usable && StandsAt(i + 1)
    {
      PlusAssign(1, i);
    }
  }

  /** Single steps, as many as asked for or until the end: they end where one `+=` ends. */
  method StepByStep<K(!new), V>(it: Iter<K, V>, delta: nat, ghost i: nat, ghost j: nat)
    requires StatusOf(it.owner) == Usable && it.StandsAt(i) && i < |Order(it.owner.chains)| && j == i + delta
    modifies it
    ensures it.StandsAt(j)
  {
    var d: nat := delta;
    ghost var k: nat, order := i, Order(it.owner.chains);
    while 0 < d && it.current != null
      invariant StatusOf(it.owner) == Usable && Order(it.owner.chains) == order
      invariant k == j - d && it.current == At(order, k)
      decreases d
    {
      it.Increment(k);
      assert it.StandsAt(k + 1);
      d, k := d - 1, k + 1;
    }
    SamePlace(order, k, j);
  }

  lemma OneMore<T>(order: seq<T>, seen: seq<T>, k: nat)
    requires k < |order| && seen == order[..k]
    ensures seen + [order[k]] == order[..k + 1]
  {
  }

  /** Iteration from the first node on meets every node once, then the end. */
  method VisitAll<K(!new), V>(it: Iter<K, V>) returns (seen: seq<Node<V>>)
    requires StatusOf(it.owner) == Usable && it.StandsAt(0)
    modifies it
    ensures seen == Order(it.owner.chains) && NoDup(seen)
    ensures it.owner.repr == Elements(seen)
    ensures it.current == null
  {
    seen := [];
    ghost var k: nat, order := 0, Order(it.owner.chains);
    while it.current != null
      invariant StatusOf(it.owner) == Usable && Order(it.owner.chains) == order
      invariant k <= |order| && it.current == At(order, k) && seen == order[..k]
      decreases |order| - k
    {
      var n: Node<V> := it.current;
      it.Increment(k);
      assert it.StandsAt(k + 1);
      OneMore(order, seen, k);
      seen := seen + [n];
      k := k + 1;
    }
    SeenAll(it.owner, seen);
  }

  lemma SeenAll<K(!new), V>(t: Table<K, V>, seen: seq<Node<V>>)
    requires StatusOf(t) == Usable && seen == Order(t.chains)
    ensures NoDup(seen) && t.repr == Elements(seen)
  {
  }

  /** The loop of `equal_range`: go on while the key is equal. */
  method SkipEqual<K(!new), V>(stop: Iter<K, V>, key: K, ghost g: nat, ghost e: nat)
    requires StatusOf(stop.owner) == Usable && stop.StandsAt(g)
    requires IsStretch(stop.owner.law, Order(stop.owner.chains), key, g, e)
    modifies stop
    ensures stop.StandsAt(e)
  {
    var t := stop.owner;
    ghost var k: nat, order, law := g, Order(t.chains), t.law;
    while stop.current != null && t.policy.eq(t.policy.key(stop.current.val), key)
      invariant StatusOf(t) == Usable && Order(t.chains) == order && stop.current == At(order, k)
      invariant g <= k <= e && IsStretch(law, order, key, k, e)
      decreases e - k
    {
      Within(law, order, key, k, e);
      stop.Increment(k);
      assert stop.StandsAt(k + 1);
      k := k + 1;
    }
    Within(law, order, key, k, e);
    SamePlace(order, k, e);
  }

  /** `equal_range`: two iterators around exactly the elements whose key equals `key`, in order; both
      at the end if there are none. */
  method EqualRange<K(!new), V>(t: Table<K, V>, key: K)
    returns (start: Iter<K, V>, stop: Iter<K, V>, ghost g: nat, ghost e: nat)
    requires StatusOf(t) == Usable
    ensures fresh(start) && fresh(stop) && start.owner == stop.owner == t
    ensures start.StandsAt(g) && stop.StandsAt(e) && g <= e <= |Order(t.chains)|
    ensures Order(t.chains)[g..e] == Group(t.law, Order(t.chains), key)
    ensures g == e ==> start.current == null
  {
    var node;
    node, g, e := FindGroup(t, key);
    start := new Iter(node, t);
    stop := new Iter(node, t);
    SkipEqual(stop, key, g, e);
  }

  /** The search of `equal_range`. */
  method FindGroup<K(!new), V>(t: Table<K, V>, key: K) returns (node: Node?<V>, ghost g: nat, ghost e: nat)
    requires StatusOf(t) == Usable
    ensures node == At(Order(t.chains), g) && (g == e ==> node == null)
    ensures IsStretch(t.law, Order(t.chains), key, g, e)
    ensures Order(t.chains)[g..e] == Group(t.law, Order(t.chains), key)
  {
    ghost var h, p;
    var link;
    link, h, p := t.FindNode(key);
    t.DerefAt(link, h, p);
    g, e := GroupFound(t.law, t.chains, key, h, p);
    node := t.Deref(link);
  }

  ghost predicate IsStretch<K(!new), T>(law: Law<K, T>, s: seq<T>, key: K, g: nat, e: nat) {
    && g <= e <= |s|
    && (forall i :: g <= i < e ==> law.eq(law.key(s[i]), key))
    && (e < |s| ==> !law.eq(law.key(s[e]), key))
  }

  lemma Within<K(!new), V>(law: Law<K, Node<V>>, s: seq<Node<V>>, key: K, k: nat, e: nat)
    requires k <= e && IsStretch(law, s, key, k, e)
    ensures At(s, k) != null && law.eq(law.key(At(s, k)), key) <==> k < e
    ensures k < e ==> IsStretch(law, s, key, k + 1, e)
  {
  }

  /** What a search finds is the group of its key: the elements of the order from place `g` to place
      `e`, with something else, or nothing, behind them. */
  lemma GroupFound<K(!new), V>(law: Law<K, Node<V>>, chains: seq<seq<Node<V>>>, key: K, h: nat, p: nat)
    returns (g: nat, e: nat)
    requires WellFormed(law, chains) && |chains| > 0 && h == law.hash(key) % |chains| && p == Find(law, chains[h], key)
    ensures IsStretch(law, Order(chains), key, g, e) && Order(chains)[g..e] == Group(law, Order(chains), key)
    ensures At(chains[h], p) == At(Order(chains), g) && (g == e ==> At(chains[h], p) == null)
  {
    FoundOrNot(law, chains, key, h, p);
    if p == |chains[h]| {
      g, e := |Order(chains)|, |Order(chains)|;
    } else {
      g := GroupStart(law, chains, key);
      e := g + |Group(law, Order(chains), key)|;
      GroupAt(law, chains, key);
      OrderIndex(chains, h, p);
    }
  }

  lemma GroupAt<K(!new), V>(law: Law<K, Node<V>>, chains: seq<seq<Node<V>>>, key: K)
    requires WellFormed(law, chains) && |chains| > 0
    ensures var g := GroupStart(law, chains, key);
            var e := g + |Group(law, Order(chains), key)|;
            IsStretch(law, Order(chains), key, g, e) && Order(chains)[g..e] == Group(law, Order(chains), key)
  {
    GroupStretch(law, chains, key);
    StretchOfGroup(law, Order(chains), key, GroupStart(law, chains, key));
  }

  lemma FoundOrNot<K(!new), T>(law: Law<K, T>, chains: seq<seq<T>>, key: K, h: nat, p: nat)
    requires WellFormed(law, chains) && |chains| > 0 && h == law.hash(key) % |chains| && p == Find(law, chains[h], key)
    ensures Group(law, Order(chains), key) == [] <==> p == |chains[h]|
  {
    GroupInBucket(law, chains, key);
    GroupIsRun(law, chains[h], key);
    RunEndNonempty(law, chains[h], key, p);
  }

  lemma StretchOfGroup<K(!new), T>(law: Law<K, T>, s: seq<T>, key: K, g: nat)
    requires law.Lawful()
    requires var n := |Group(law, s, key)|; g + n <= |s| && s[g..g + n] == Group(law, s, key)
    ensures IsStretch(law, s, key, g, g + |Group(law, s, key)|)
  {
    var gr := Group(law, s, key);
    BehindGroup(law, s, key, g);
    GroupMembers(law, s, key);
    forall i | g <= i < g + |gr| ensures law.eq(law.key(s[i]), key) {
      assert s[i] == gr[i - g];
    }
  }

  lemma BehindGroup<K(!new), T>(law: Law<K, T>, s: seq<T>, key: K, g: nat)
    requires law.Lawful()
    requires var n := |Group(law, s, key)|; g + n <= |s| && s[g..g + n] == Group(law, s, key)
    ensures var e := g + |Group(law, s, key)|; e < |s| ==> !law.eq(law.key(s[e]), key)
  {
    var e := g + |Group(law, s, key)|;
    if e < |s| {
      SplitInThree(s, g, e - g);
      GroupIsAll(law, s[..g], s[g..e], s[e..], key);
      HeadInGroup(law, s[e..], key);
    }
  }

  lemma HeadInGroup<K(!new), T>(law: Law<K, T>, s: seq<T>, key: K)
    requires s != []
    ensures law.Matches(key, s[0]) ==> Group(law, s, key) != []
  {
    assert s == [s[0]] + s[1..];
    GroupConcat(law, [s[0]], s[1..], key);
    GroupOne(law, s[0], key);
  }
}
