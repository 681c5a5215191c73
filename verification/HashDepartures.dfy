/** Runs of the hash table that show where it departs from what is asked of it. HashTable.dfy states
    for all runs when it does not. */
module HashDepartures {
  import opened Sequences
  import opened HashChains
  import opened HashOperations
  import opened HashLinks
  import opened HashTable

  /** Numbers as their own keys, all in one bucket class. */
  const NUMBERS: Law<int, int> := Law(x => x, x => 0, (a, b) => a == b)

  /** A table that has been cleared, which makes it ready. */
  method EmptyTable() returns (t: Table<int, int>)
    ensures fresh(t) && fresh(t.repr) && t.Ready() && t.policy == NUMBERS
    ensures t.chains == [[]] && Order(t.chains) == [] && t.repr == {}
  {
    t := new Table(NUMBERS);
    t.Clear();
    OrderOne<Node<int>>([]);
  }

  /** A ready table with one element. */
  method TableOfOne(v: int) returns (t: Table<int, int>, ghost node: Node<int>)
    ensures fresh(t) && fresh(t.repr) && t.Ready() && t.policy == NUMBERS
    ensures t.chains == [[node]] && node.val == v
  {
    t := EmptyTable();
    var result, inserted;
    OneBucket(t.law);
    result, inserted, node := t.InsertUnique(v);
    OneInserted(t.law, node);
  }

  lemma OneBucket<K(!new), T>(law: Law<K, T>)
    ensures forall k :: Group(law, Order<T>([[]]), k) == []
  {
    OrderOne<T>([]);
  }

  lemma OneInserted<K(!new), T>(law: Law<K, T>, node: T)
    ensures Inserted(law, [[]], node) == [[node]]
  {
    OrderOne<T>([]);
    var chains: seq<seq<T>> := [[]];
    assert law.Slot(node, |chains|) == 0;
    assert InsertAt<T>([], 0, node) == [node];
    assert Insert(law, chains, node) == chains[0 := [node]] == [[node]];
    assert BucketsFor(1) == 1;
  }

  /** `begin()` of a table with one element reads past the end of the bucket vector. */
  method BeginOfOneElement() returns (r: Reading<int>)
    ensures r == Dangling
  {
    ghost var node;
    var t;
    t, node := TableOfOne(5);
    r := t.Begin();
  }

  lemma AbsentNumber(t: Table<int, int>, k: nat)
    requires t.Ready() && t.policy == NUMBERS && forall n :: n in t.repr ==> n.val < k
    ensures Group(t.law, Order(t.chains), k) == []
  {
    var order := Order(t.chains);
    forall i | 0 <= i < |order| ensures order[i].val < k {
      ElementsMember(order, order[i]);
    }
    GroupNone(t.law, order, k);
  }

  lemma InsertedCount<K(!new), T>(law: Law<K, T>, chains: seq<seq<T>>, v: T)
    requires WellFormed(law, chains) && |chains| > 0 && v !in Order(chains)
    ensures |Order(Inserted(law, chains, v))| == |Order(chains)| + 1
    ensures !Grows(chains) ==> |Inserted(law, chains, v)| == |chains|
  {
    InsertedKeeps(law, chains, v);
  }

  /** Insert a number that is larger than all others. */
  method InsertNext(t: Table<int, int>, k: nat) returns (result: Reading<int>, ghost node: Node<int>)
    requires t.Ready() && t.policy == NUMBERS && forall n :: n in t.repr ==> n.val < k
    modifies t, t.repr
    ensures t.Ready() && fresh(t.repr - old(t.repr)) && forall n :: n in t.repr ==> n.val < k + 1
    ensures |Order(t.chains)| == |Order(old(t.chains))| + 1
    ensures !Grows(old(t.chains)) ==> |t.chains| == |old(t.chains)|
    ensures node.val == k && (result == Entry(node) <==> !Grows(old(t.chains)))
  {
    AbsentNumber(t, k);
    ghost var before := t.chains;
    var inserted;
    result, inserted, node := t.InsertUnique(k);
    InsertedCount(t.law, before, node);
  }

  /** The numbers from 0 on have been inserted, and before the 64th each insertion returned its element. */
  ghost predicate LostFrom63(results: seq<Reading<int>>, nodes: seq<Node<int>>) {
    && |results| == |nodes|
    && forall k :: 0 <= k < |nodes| ==> nodes[k].val == k && (results[k] == Entry(nodes[k]) <==> k < 63)
  }

  lemma LostFrom63Step(results: seq<Reading<int>>, nodes: seq<Node<int>>, result: Reading<int>, node: Node<int>)
    requires LostFrom63(results, nodes) && node.val == |nodes| && (result == Entry(node) <==> |nodes| < 63)
    ensures LostFrom63(results + [result], nodes + [node])
  {
  }

  /** To an empty table the numbers from 0 to 63 are added: each insertion returns its element, but for
      the last one. */
  method FirstLostIterator() returns (results: seq<Reading<int>>, ghost nodes: seq<Node<int>>)
    ensures |results| == 64 && LostFrom63(results, nodes)
  {
    var t := EmptyTable();
    results, nodes := [], [];
    while |results| < 64
      invariant fresh(t) && fresh(t.repr) && t.Ready() && LostFrom63(results, nodes)
      invariant |results| == |Order(t.chains)| <= 64 && (|results| < 64 ==> |t.chains| == 1)
      invariant forall n :: n in t.repr ==> n.val < |results|
    {
      var result;
      ghost var node;
      result, node := InsertNext(t, |results|);
      LostFrom63Step(results, nodes, result, node);
      results, nodes := results + [result], nodes + [node];
    }
  }

  /** A ready table with two elements that have one key; the one inserted last stands in front. */
  method TableOfTwo(v: int) returns (t: Table<int, int>, ghost first: Node<int>, ghost second: Node<int>)
    ensures fresh(t) && fresh(t.repr) && t.Ready() && t.policy == NUMBERS
    ensures t.chains == [[second, first]] && Order(t.chains) == [second, first]
    ensures first.val == v && GroupStart(t.law, t.chains, v) == 0
  {
    t, first := TableOfOne(v);
    ghost var law, before := t.law, t.chains;
    var result;
    result, second := t.InsertMultiple(v);
    TwoInserted(law, first, second);
    assert t.chains == Inserted(law, before, second);
  }

  /** Erasing from the second of two elements with one key to the end removes both. */
  method EraseTheSecond() returns (left: nat)
    ensures left == 0
  {
    ghost var first, node;
    var t;
    t, first, node := TableOfTwo(5);
    t.NextIn(0, 0);
    var head: Node<int> := t.bucket[0];
    var second := head.next;
    t.Erase(second, null, 1, 2);
    assert Cut([node, first], 0, 2) == [];
    left := t.nodeCount;
  }

  lemma TwoInserted(law: Law<int, Node<int>>, first: Node<int>, node: Node<int>)
    requires law == NodeLaw(NUMBERS) && first.val == node.val
    ensures Inserted(law, [[first]], node) == [[node, first]]
    ensures Order([[node, first]]) == [node, first] && GroupStart(law, [[node, first]], first.val) == 0
  {
    OrderOne([first]);
    OrderOne([node, first]);
    var chains := [[first]];
    assert law.Slot(node, |chains|) == 0 && Find(law, chains[0], node.val) == 0;
    assert InsertAt([first], 0, node) == [node, first];
    assert Insert(law, chains, node) == chains[0 := [node, first]] == [[node, first]];
    assert BucketsFor(2) == 1;
  }
}
