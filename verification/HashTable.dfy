/** utilmm/hash/bits/table.tcc in place: a vector of bucket heads over singly linked nodes. The
    ghost `chains` list the nodes of every bucket in order. */
module HashTable {
  import opened Sequences
  import opened HashChains
  import opened HashOperations
  import opened HashLinks

  /** A place a node pointer is stored at: a bucket head, or the `next` field of a node. */
  datatype Link<V> = AtBucket(b: nat) | AtNext(node: Node<V>)

  function LinkAt<V>(c: seq<Node<V>>, b: nat, p: nat): Link<V>
    requires p <= |c|
  {
    if p == 0 then AtBucket(b) else AtNext(c[p - 1])
  }

  /** What reading a link gives: a node or null, or nothing defined when the storage of the link
      has been given up. */
  datatype Reading<V> = Entry(node: Node?<V>) | Dangling

  /** Nodes are looked at through their values. */
  function NodeLaw<K(!new), V>(policy: Law<K, V>): Law<K, Node<V>> {
    Law((n: Node<V>) => policy.key(n.val), policy.hash, policy.eq)
  }

  class Table<K(!new), V> {
    const policy: Law<K, V>
    const law: Law<K, Node<V>>
    var bucket: seq<Node?<V>>
    var nodeCount: nat
    ghost var chains: seq<seq<Node<V>>>
    ghost var repr: set<Node<V>>
    ghost var links: Links<V>

    /** `links` is what the `next` fields of the nodes hold. */
    ghost predicate Mirrored()
      reads this, repr
    {
      links.Keys == repr && forall n :: n in repr ==> n.next == links[n]
    }

    ghost predicate Chained()
      reads this, repr
    {
      Mirrored() && Linked(links, bucket, chains)
    }

    /** The nodes allocated and not yet deleted are the nodes of the chains: none leaks. */
    ghost predicate Owned()
      reads this
    {
      repr == Elements(Order(chains))
    }

    ghost predicate Valid()
      reads this, repr
    {
      && law == NodeLaw(policy)
      && Owned() && Chained() && WellFormed(law, chains)
      && nodeCount == |Order(chains)|
      && (|bucket| >= BucketsFor(nodeCount) || (bucket == [] && nodeCount == 0))
    }

    /** Keyed operations take a modulus by the number of buckets, so they need one. */
    ghost predicate Ready()
      reads this, repr
    {
      Valid() && bucket != []
    }

    /** The default constructor leaves the bucket vector empty: such a table is not ready. */
    constructor (policy: Law<K, V>)
      requires policy.Lawful()
      ensures Valid() && !Ready() && this.policy == policy && repr == {} && Order(chains) == []
    {
      this.policy := policy;
      law := NodeLaw(policy);
      bucket, nodeCount := [], 0;
      chains, repr, links := [], {}, map[];
    }

    function Deref(link: Link<V>): Node?<V>
      requires link.AtBucket? ==> link.b < |bucket|
      reads this, if link.AtNext? then {link.node} else {}
    {
      match link
      case AtBucket(b) => bucket[b]
      case AtNext(n) => n.next
    }

    lemma DerefAt(link: Link<V>, h: nat, p: nat)
      requires Chained() && h < |chains| && p <= |chains[h]| && link == LinkAt(chains[h], h, p)
      ensures link.AtBucket? ==> link.b < |bucket|
      ensures link.AtNext? ==> link.node in repr
      ensures Deref(link) == At(chains[h], p)
    {
      if p > 0 {
        assert chains[h][p - 1] in links;
      }
    }

    method FindNode(key: K) returns (link: Link<V>, ghost h: nat, ghost p: nat)
      requires Chained() && bucket != []
      ensures h == law.hash(key) % |bucket| && p == Find(law, chains[h], key)
      ensures link == LinkAt(chains[h], h, p)
      ensures Deref(link) == null || law.eq(key, law.key(Deref(link)))
    {
      h := law.hash(key) % |bucket|;
      link := AtBucket(law.hash(key) % |bucket|);
      p := 0;
      DerefAt(link, h, p);
      while Deref(link) != null && !law.eq(key, law.key(Deref(link)))
        invariant p <= |chains[h]| && link == LinkAt(chains[h], h, p)
        invariant link.AtBucket? ==> link.b < |bucket|
        invariant Deref(link) == At(chains[h], p)
        invariant NoMatchBefore(law, chains[h], key, p)
        decreases |chains[h]| - p
      {
        link := AtNext(Deref(link));
        p := p + 1;
        DerefAt(link, h, p);
      }
      FindUnique(law, chains[h], key, p);
    }

    /** `*link = node`. */
    method Store(link: Link<V>, node: Node?<V>, ghost h: nat, ghost p: nat)
      requires Chained() && h < |chains| && p <= |chains[h]| && link == LinkAt(chains[h], h, p)
      modifies this`bucket, this`links, repr
      ensures bucket == RedirectHead(old(bucket), h, p, node)
      ensures Mirrored() && links == Redirect(old(links), chains, h, p, node)
    {
      DerefAt(link, h, p);
      links := Redirect(links, chains, h, p, node);
      match link
      case AtBucket(b) => bucket := bucket[b := node];
      case AtNext(n) => n.next := node;
    }

    /** The allocation and link write of an insertion. */
    method Splice(link: Link<V>, v: V, ghost h: nat, ghost p: nat) returns (node: Node<V>)
      requires Chained() && NoDup(Order(chains))
      requires h < |chains| && p <= |chains[h]| && link == LinkAt(chains[h], h, p)
      modifies this, repr
      ensures fresh(node) && node.val == v && Chained()
      ensures chains == old(chains)[h := InsertAt(old(chains)[h], p, node)]
      ensures repr == old(repr) + {node} && nodeCount == old(nodeCount) && |bucket| == |old(bucket)|
    {
      DerefAt(link, h, p);
      node := new Node(v, Deref(link));
      Store(link, node, h, p);
      SpliceLinks(old(links), old(bucket), chains, h, p, node);
      Adopt(node, At(chains[h], p));
      chains := chains[h := InsertAt(chains[h], p, node)];
    }

    /** A new node becomes one of the table. */
    ghost method Adopt(node: Node<V>, next: Node?<V>)
      requires Mirrored() && node !in repr && node.next == next
      modifies this`links, this`repr
      ensures Mirrored() && links == old(links)[node := next] && repr == old(repr) + {node}
    {
      links := links[node := next];
      repr := repr + {node};
    }

    // ----- resize -----

    /** The last node of the group at the head of bucket `i`. */
    method LastOfGroup(i: nat) returns (n: Node<V>, ghost e: nat)
      requires Chained() && i < |bucket| && bucket[i] != null
      ensures chains[i] != [] && bucket[i] == chains[i][0]
      ensures e == HeadRun(law, chains[i]) && n == chains[i][e - 1]
      ensures n in repr && n.next == At(chains[i], e)
    {
      ghost var c := chains[i];
      var beg: Node<V> := bucket[i];
      n := beg;
      e := 1;
      NextIn(i, 0);
      while n.next != null && law.eq(law.key(beg), law.key(n.next))
        invariant 1 <= e <= |c| && beg == c[0] && n == c[e - 1] && n in repr && n.next == At(c, e)
        invariant forall j :: 1 <= j < e ==> law.Matches(law.key(c[0]), c[j])
        decreases |c| - e
      {
        n := n.next;
        e := e + 1;
        NextIn(i, e - 1);
      }
      RunEndUnique(law, c, law.key(c[0]), 1, e);
    }

    method Relink(n: Node<V>, next: Node?<V>)
      requires Mirrored() && n in repr
      modifies this`links, n
      ensures Mirrored() && links == old(links)[n := next]
    {
      n.next := next;
      links := links[n := next];
    }

    /** Move the group at the head of bucket `i` to the front of its new bucket in `tmp`. */
    method MoveGroup(i: nat, tmp: seq<Node?<V>>, ghost tchains: seq<seq<Node<V>>>)
      returns (tmp': seq<Node?<V>>, ghost tchains': seq<seq<Node<V>>>)
      requires Chained() && Linked(links, tmp, tchains) && NoDup(Order(chains) + Order(tchains))
      requires i < |bucket| && bucket[i] != null && |tmp| > 0
      modifies this`bucket, this`chains, this`links, repr
      ensures old(chains)[i] != []
      ensures var c := old(chains)[i]; var e := HeadRun(law, c);
        chains == old(chains)[i := c[e..]] && tchains' == PushGroup(law, c[..e], tchains)
      ensures Chained() && Linked(links, tmp', tchains')
      ensures |bucket| == |old(bucket)|
    {
      ghost var c := chains[i];
      var beg: Node<V> := bucket[i];
      ghost var e;
      var n;
      n, e := LastOfGroup(i);
      var hval := law.hash(law.key(beg)) % |tmp|;
      MoveLinks(links, bucket, chains, tmp, tchains, i, e, hval);
      MoveLinksInto(links, bucket, chains, tmp, tchains, i, e, hval);
      bucket := bucket[i := n.next];
      Relink(n, tmp[hval]);
      tmp' := tmp[hval := beg];
      chains := chains[i := c[e..]];
      tchains' := PushGroup(law, c[..e], tchains);
    }

    lemma NextIn(b: nat, p: nat)
      requires Chained() && b < |chains| && p < |chains[b]|
      ensures chains[b][p] in repr && chains[b][p].next == At(chains[b], p + 1)
      ensures bucket[b] == chains[b][0]
    {
      assert chains[b][p] in links;
    }

    /** The inner loop of the rehash: move the groups of bucket `i` one by one. */
    method MoveBucket(i: nat, tmp: seq<Node?<V>>, ghost tchains: seq<seq<Node<V>>>)
      returns (tmp': seq<Node?<V>>, ghost tchains': seq<seq<Node<V>>>)
      requires Chained() && Linked(links, tmp, tchains) && NoDup(Order(chains) + Order(tchains))
      requires i < |bucket| && |tmp| > 0
      modifies this`bucket, this`chains, this`links, repr
      ensures Chained() && Linked(links, tmp', tchains') && NoDup(Order(chains) + Order(tchains'))
      ensures |bucket| == |old(bucket)| && |tmp'| == |tmp|
      ensures MoveAll(law, chains[i + 1..], tchains') == MoveAll(law, old(chains)[i..], tchains)
    {
      ghost var all := MoveAll(law, chains[i..], tchains);
      tmp', tchains' := tmp, tchains;
      while bucket[i] != null
        invariant i < |bucket| == |old(bucket)| && |tmp'| == |tmp|
        invariant Chained() && Linked(links, tmp', tchains') && NoDup(Order(chains) + Order(tchains'))
        invariant MoveAll(law, chains[i..], tchains') == all
        decreases |chains[i]|
      {
        MoveGroupStep(law, chains, tchains', i);
        tmp', tchains' := MoveGroup(i, tmp', tchains');
      }
      NullHead(i);
      assert chains[i..][1..] == chains[i + 1..];
    }

    /** The rehash loops of `resize`. */
    method MoveAllGroups(m: nat)
      requires Chained() && NoDup(Order(chains)) && m > 0
      modifies this`bucket, this`chains, this`links, repr
      ensures Chained() && chains == Rehash(law, old(chains), m) && |bucket| == m
    {
      var tmp: seq<Node?<V>> := seq(m, _ => null);
      ghost var tchains: seq<seq<Node<V>>> := NoChains(m);
      NoChainsEmpty<Node<V>>(m);
      assert Order(chains) + Order(tchains) == Order(chains);
      var i := 0;
      while i < |bucket|
        invariant i <= |bucket| == |old(bucket)| && |tmp| == |tchains| == m
        invariant Chained() && Linked(links, tmp, tchains) && NoDup(Order(chains) + Order(tchains))
        invariant MoveAll(law, chains[i..], tchains) == Rehash(law, old(chains), m)
        decreases |bucket| - i
      {
        tmp, tchains := MoveBucket(i, tmp, tchains);
        i := i + 1;
      }
      bucket := tmp;
      chains := tchains;
    }

    method Resize(size: nat)
      requires Chained() && NoDup(Order(chains))
      modifies this`bucket, this`chains, this`nodeCount, this`links, repr
      ensures Chained() && nodeCount == size && chains == Resized(law, old(chains), size)
      ensures 0 < size && BucketsFor(size) <= |old(bucket)| ==>
        bucket == old(bucket) && links == old(links)
    {
      if size == 0 {
        bucket := [null];
        chains := [[]];
      } else {
        var newBcount := BucketsFor(size);
        if newBcount > |bucket| {
          MoveAllGroups(newBcount);
        }
      }
      nodeCount := size;
    }

    // ----- insertion -----

    /** What `position` reads as after the insertion: its storage is gone if it was a bucket head
        of a vector that has been replaced. */
    method ReadBack(link: Link<V>, replaced: bool) returns (result: Reading<V>)
      requires link.AtBucket? && !replaced ==> link.b < |bucket|
      ensures link.AtBucket? && replaced ==> result == Dangling
      ensures !(link.AtBucket? && replaced) ==> result == Entry(Deref(link))
    {
      match link
      case AtBucket(b) =>
        if replaced {
          result := Dangling;
        } else {
          result := Entry(bucket[b]);
        }
      case AtNext(n) => result := Entry(n.next);
    }

    lemma PartedNext(x: Node<V>, y: Node<V>)
      requires Chained() && NoDup(Order(chains)) && Parted(chains, x, y)
      ensures x in repr && x.next != y
    {
      var b, q :| 0 <= b < |chains| && 0 <= q < |chains[b]| && chains[b][q] == x
        && (q + 1 == |chains[b]| || chains[b][q + 1] != y);
      NextIn(b, q);
    }

    lemma SplicedLink(link: Link<V>, h: nat, p: nat, c: seq<Node<V>>, node: Node<V>)
      requires Chained() && h < |chains| && p <= |c| && chains[h] == InsertAt(c, p, node) && link == LinkAt(c, h, p)
      ensures link.AtBucket? ==> link.b < |bucket|
      ensures Deref(link) == node
    {
      if p > 0 {
        NextIn(h, p - 1);
      }
    }

    /** Write the node in and resize. */
    method Place(link: Link<V>, v: V, ghost h: nat, ghost p: nat) returns (ghost node: Node<V>)
      requires law == NodeLaw(policy)
      requires Chained() && WellFormed(law, chains) && bucket != [] && nodeCount == |Order(chains)|
      requires h == policy.hash(policy.key(v)) % |bucket| && p == Find(law, chains[h], policy.key(v))
      requires link == LinkAt(chains[h], h, p)
      modifies this, repr
      ensures Chained() && fresh(node) && node.val == v && repr == old(repr) + {node}
      ensures node !in Order(old(chains)) && nodeCount == old(nodeCount) + 1
      ensures law.key(node) == policy.key(v) && law.Slot(node, |old(chains)|) == h
      ensures chains == Inserted(law, old(chains), node)
      ensures !Grows(old(chains)) ==>
        (link.AtBucket? ==> link.b < |bucket|) && Deref(link) == node
    {
      node := Splice(link, v, h, p);
      NotInChains(old(chains), old(links), old(bucket), node);
      SplicedLink(link, h, p, old(chains)[h], node);
      assert NoDup(Order(chains)) by {
        InsertKeeps(law, old(chains), node);
      }
      assert link.AtNext? ==> link.node in repr && links[link.node] == node;
      Resize(nodeCount + 1);
      assert link.AtNext? && !Grows(old(chains)) ==> links[link.node] == node;
    }

    /** `insert` reads its result back through `position` after the resize, so it returns the new
        node exactly when no rehash took place. */
    method Insert(link: Link<V>, v: V, ghost h: nat, ghost p: nat) returns (result: Reading<V>, ghost node: Node<V>)
      requires Ready() && h == policy.hash(policy.key(v)) % |bucket| && p == Find(law, chains[h], policy.key(v))
      requires link == LinkAt(chains[h], h, p)
      modifies this, repr
      ensures Chained() && fresh(node) && node.val == v && repr == old(repr) + {node}
      ensures node !in Order(old(chains)) && chains == Inserted(law, old(chains), node)
      ensures nodeCount == old(nodeCount) + 1
      ensures result == Entry(node) <==> !Grows(old(chains))
    {
      var replaced := BucketsFor(nodeCount + 1) > |bucket|;
      ghost var before := chains;
      assert |before| > 0 && replaced == Grows(before);
      DerefAt(link, h, p);
      node := Place(link, v, h, p);
      assert NoDup(Order(chains)) by {
        InsertedKeeps(law, before, node);
      }
      result := ReadBack(link, replaced);
      if replaced && p > 0 {
        assert Find(law, before[law.Slot(node, |before|)], law.key(node)) == p;
        InsertedParts(law, before, node);
        PartedNext(link.node, node);
      }
    }

    lemma NotInChains(chains: seq<seq<Node<V>>>, next: Links<V>, heads: seq<Node?<V>>, node: Node<V>)
      requires Linked(next, heads, chains) && node !in next
      ensures node !in Order(chains)
    {
      OrderMember(chains, node);
    }

    lemma InsertedReady(before: seq<seq<Node<V>>>, node: Node<V>)
      requires law == NodeLaw(policy)
      requires Chained() && WellFormed(law, before) && |before| > 0 && node !in Order(before)
      requires chains == Inserted(law, before, node) && nodeCount == |Order(before)| + 1
      requires repr == Elements(Order(before)) + {node}
      ensures Ready()
    {
      InsertedKeeps(law, before, node);
      InsertedElements(law, before, node);
    }

    /** Insert `v` unless its key is there. The iterator returned for a new element is the new node
        exactly when no rehash took place. */
    method InsertUnique(v: V) returns (result: Reading<V>, inserted: bool, ghost node: Node<V>)
      requires Ready()
      modifies this, repr
      ensures Ready()
      ensures inserted <==> Group(law, Order(old(chains)), policy.key(v)) == []
      ensures !inserted ==> chains == old(chains) && links == old(links)
      ensures !inserted ==> result == Entry(node) && node == Group(law, Order(old(chains)), policy.key(v))[0]
      ensures inserted ==> fresh(node) && node.val == v && repr == old(repr) + {node}
      ensures inserted ==> node !in Order(old(chains)) && chains == Inserted(law, old(chains), node)
      ensures inserted ==> (result == Entry(node) <==> !Grows(old(chains)))
    {
      ghost var before := chains;
      ghost var h, p;
      var pos;
      pos, h, p := FindNode(policy.key(v));
      DerefAt(pos, h, p);
      FoundGroup(policy.key(v), h, p);
      var found := Deref(pos);
      if found != null {
        result, inserted, node := Entry(found), false, found;
      } else {
        result, node := Insert(pos, v, h, p);
        inserted := true;
        InsertedReady(before, node);
      }
    }

    /** Insert `v` in front of the elements with its key. */
    method InsertMultiple(v: V) returns (result: Reading<V>, ghost node: Node<V>)
      requires Ready()
      modifies this, repr
      ensures Ready() && fresh(node) && node.val == v && repr == old(repr) + {node}
      ensures node !in Order(old(chains)) && chains == Inserted(law, old(chains), node)
      ensures result == Entry(node) <==> !Grows(old(chains))
    {
      ghost var before := chains;
      ghost var h, p;
      var pos;
      pos, h, p := FindNode(policy.key(v));
      result, node := Insert(pos, v, h, p);
      InsertedReady(before, node);
    }

    /** Where a search stops is the head of the group of the key, if it has one. */
    lemma FoundGroup(key: K, h: nat, p: nat)
      requires WellFormed(law, chains) && |chains| > 0
      requires h == law.hash(key) % |chains| && p == Find(law, chains[h], key)
      ensures Group(law, Order(chains), key) == chains[h][p..RunEnd(law, chains[h], key, p)]
      ensures Group(law, Order(chains), key) == [] <==> p == |chains[h]|
      ensures p < |chains[h]| ==> Group(law, Order(chains), key)[0] == chains[h][p]
    {
      GroupInBucket(law, chains, key);
      GroupIsRun(law, chains[h], key);
      RunEndNonempty(law, chains[h], key, p);
    }

    // ----- removal -----

    /** `*link = (*link)->next`, and the node is deleted. */
    method Unlink(link: Link<V>, ghost h: nat, ghost p: nat)
      requires Chained() && NoDup(Order(chains))
      requires h < |chains| && p < |chains[h]| && link == LinkAt(chains[h], h, p)
      modifies this`bucket, this`chains, this`repr, this`links, repr
      ensures Chained() && chains == old(chains)[h := RemoveAt(old(chains)[h], p)]
      ensures repr == old(repr) - {old(chains)[h][p]} && |bucket| == |old(bucket)|
      ensures link == LinkAt(chains[h], h, p)
    {
      DerefAt(link, h, p);
      NextIn(h, p);
      var node: Node<V> := Deref(link);
      var next := node.next;
      Store(link, next, h, p);
      UnlinkLinks(old(links), old(bucket), chains, h, p);
      links := links - {node};
      chains := chains[h := RemoveAt(chains[h], p)];
      repr := repr - {node};
    }

    method ClearBucket(i: nat)
      requires Owned() && Chained() && NoDup(Order(chains)) && i < |bucket|
      modifies this`bucket, this`chains, this`repr, this`links, repr
      ensures Owned() && Chained() && NoDup(Order(chains)) && repr <= old(repr) && |bucket| == |old(bucket)|
      ensures |chains[i]| == 0
      ensures forall b :: 0 <= b < |chains| && b != i ==> chains[b] == old(chains)[b]
    {
      while bucket[i] != null
        invariant i < |bucket| == |old(bucket)| && Owned() && Chained() && NoDup(Order(chains)) && repr <= old(repr)
        invariant forall b :: 0 <= b < |chains| && b != i ==> chains[b] == old(chains)[b]
        decreases |chains[i]|
      {
        UnlinkOwned(i, 0);
        Unlink(AtBucket(i), i, 0);
      }
      NullHead(i);
    }

    /** `clear`: it also makes a table ready that was not. */
    method Clear()
      requires Valid()
      modifies this, repr
      ensures Ready() && chains == [[]] && nodeCount == 0 && repr == {}
    {
      var i := 0;
      while i < |bucket|
        invariant i <= |bucket| == |old(bucket)| && Owned() && Chained() && NoDup(Order(chains)) && repr <= old(repr)
        invariant forall b :: 0 <= b < i ==> |chains[b]| == 0
      {
        ClearBucket(i);
        i := i + 1;
      }
      AllEmpty(chains);
      Resize(0);
      EmptyReady();
    }

    lemma EmptyReady()
      requires law == NodeLaw(policy) && law.Lawful()
      requires Chained() && |chains| == 1 && |chains[0]| == 0 && nodeCount == 0 && repr == {}
      ensures Ready()
    {
      AllEmpty(chains);
    }

    lemma NullHead(b: nat)
      requires Chained() && b < |bucket| && bucket[b] == null
      ensures |chains[b]| == 0
    {
      if chains[b] != [] {
        NextIn(b, 0);
      }
    }

    lemma UnlinkOwned(h: nat, p: nat)
      requires Owned() && NoDup(Order(chains)) && h < |chains| && p < |chains[h]|
      ensures var r := Order(chains[h := RemoveAt(chains[h], p)]);
        NoDup(r) && repr - {chains[h][p]} == Elements(r)
    {
      RemoveOrder(chains, h, p);
      OrderIndex(chains, h, p);
      RemoveNoDup(Order(chains), Offset(chains, h) + p);
      RemoveElements(Order(chains), Offset(chains, h) + p);
    }

    lemma {:induction false} AllEmpty(chains: seq<seq<Node<V>>>)
      requires forall b :: 0 <= b < |chains| ==> |chains[b]| == 0
      ensures Order(chains) == []
      decreases |chains|
    {
      if chains != [] {
        AllEmpty(chains[..|chains| - 1]);
      }
    }

    /** `while( 0==*iter && hval+1<bucket.size() ) iter = &bucket[++hval]`. */
    method SkipEmpty(link: Link<V>, hval: nat, ghost p: nat) returns (link': Link<V>, hval': nat, ghost p': nat)
      requires Chained() && hval < |chains| && p <= |chains[hval]| && link == LinkAt(chains[hval], hval, p)
      ensures hval' < |chains| && p' <= |chains[hval']| && link' == LinkAt(chains[hval'], hval', p')
      ensures Offset(chains, hval') + p' == Offset(chains, hval) + p
      ensures p' == |chains[hval']| ==> hval' + 1 == |bucket|
    {
      link', hval', p' := link, hval, p;
      DerefAt(link', hval', p');
      while Deref(link') == null && hval' + 1 < |bucket|
        invariant hval' < |chains| && p' <= |chains[hval']| && link' == LinkAt(chains[hval'], hval', p')
        invariant Offset(chains, hval') + p' == Offset(chains, hval) + p
        invariant link'.AtBucket? ==> link'.b < |bucket|
        invariant Deref(link') == At(chains[hval'], p')
        decreases |bucket| - hval'
      {
        OffsetStep(chains, hval');
        hval' := hval' + 1;
        link', p' := AtBucket(hval'), 0;
        DerefAt(link', hval', p');
      }
    }

    /** A node leaves the table, whose order loses its place. */
    method RemoveNode(link: Link<V>, hval: nat, ghost p: nat, ghost g: nat)
      requires Owned() && Chained() && WellFormed(law, chains)
      requires hval < |chains| && p < |chains[hval]| && link == LinkAt(chains[hval], hval, p)
      requires g == Offset(chains, hval) + p && g < |Order(chains)|
      modifies this`bucket, this`chains, this`repr, this`links, repr
      ensures Owned() && Chained() && WellFormed(law, chains) && |bucket| == |old(bucket)| && repr <= old(repr)
      ensures hval < |chains| && p <= |chains[hval]| && link == LinkAt(chains[hval], hval, p)
      ensures Offset(chains, hval) + p == g && Order(chains) == RemoveAt(old(Order(chains)), g)
    {
      ghost var before := chains;
      UnlinkOwned(hval, p);
      Unlink(link, hval, p);
      RemovedPlace(before, hval, p, g, chains);
    }

    lemma RemovedPlace(before: seq<seq<Node<V>>>, b: nat, p: nat, g: nat, after: seq<seq<Node<V>>>)
      requires WellFormed(law, before) && b < |before| && p < |before[b]| && g == Offset(before, b) + p
      requires after == before[b := RemoveAt(before[b], p)]
      ensures WellFormed(law, after) && p <= |after[b]| && Offset(after, b) + p == g
      ensures g < |Order(before)| && Order(after) == RemoveAt(Order(before), g)
    {
      RemoveOrder(before, b, p);
      RemoveKeeps(law, before, b, p);
      OffsetUpdate(before, b, RemoveAt(before[b], p));
    }

    /** The body of the removal loop. */
    method EraseOne(link: Link<V>, hval: nat, ghost p: nat, ghost g: nat)
      returns (link': Link<V>, hval': nat, ghost p': nat)
      requires Owned() && Chained() && WellFormed(law, chains)
      requires hval < |chains| && p < |chains[hval]| && link == LinkAt(chains[hval], hval, p)
      requires g == Offset(chains, hval) + p && g < |Order(chains)|
      modifies this`bucket, this`chains, this`repr, this`links, repr
      ensures Owned() && Chained() && WellFormed(law, chains) && |bucket| == |old(bucket)| && repr <= old(repr)
      ensures hval' < |chains| && p' <= |chains[hval']| && link' == LinkAt(chains[hval'], hval', p')
      ensures p' == |chains[hval']| ==> hval' + 1 == |bucket|
      ensures Offset(chains, hval') + p' == g && Order(chains) == RemoveAt(old(Order(chains)), g)
    {
      RemoveNode(link, hval, p, g);
      link', hval', p' := SkipEmpty(link, hval, p);
    }

    /** The removal loop: everything from place `p` of bucket `hval` up to `last`, in iteration
        order across buckets. */
    method EraseFrom(link: Link<V>, hval: nat, last: Node?<V>, ghost p: nat, ghost g: nat, ghost l: nat)
      returns (removed: nat)
      requires Owned() && Chained() && WellFormed(law, chains)
      requires hval < |chains| && p < |chains[hval]| && link == LinkAt(chains[hval], hval, p)
      requires g == Offset(chains, hval) + p && g <= l <= |Order(chains)| && last == At(Order(chains), l)
      modifies this`bucket, this`chains, this`repr, this`links, repr
      ensures Owned() && Chained() && WellFormed(law, chains) && |bucket| == |old(bucket)| && repr <= old(repr)
      ensures Order(chains) == Cut(old(Order(chains)), g, l - g)
      ensures removed == l - g
    {
      ghost var s := Order(chains);
      removed := 0;
      var iter, h: nat := link, hval;
      ghost var q: nat := p;
      CutNone(s, g);
      DerefAt(iter, h, q);
      while last != Deref(iter)
        invariant Owned() && Chained() && WellFormed(law, chains) && |bucket| == |old(bucket)| && repr <= old(repr)
        invariant h < |chains| && q <= |chains[h]| && iter == LinkAt(chains[h], h, q)
        invariant Offset(chains, h) + q == g && (q == |chains[h]| ==> h + 1 == |bucket|)
        invariant removed <= l - g && Order(chains) == Cut(s, g, removed)
        invariant iter.AtBucket? ==> iter.b < |bucket|
        invariant Deref(iter) == At(chains[h], q)
        decreases l - g - removed
      {
        NotYet(chains, s, h, q, g, removed, l);
        iter, h, q := EraseOne(iter, h, q, g);
        removed := removed + 1;
        DerefAt(iter, h, q);
      }
      NotYet(chains, s, h, q, g, removed, l);
    }

    /** The node a removal loop stands at is the last one exactly when all have been removed. */
    lemma NotYet(chains: seq<seq<Node<V>>>, s: seq<Node<V>>, h: nat, q: nat, g: nat, removed: nat, l: nat)
      requires h < |chains| && q <= |chains[h]| && (q == |chains[h]| ==> h + 1 == |chains|)
      requires g + removed <= l <= |s| && NoDup(Order(chains)) && Order(chains) == Cut(s, g, removed)
      requires Offset(chains, h) + q == g
      ensures removed < l - g ==> g < |Order(chains)|
      ensures At(chains[h], q) == At(s, l) <==> removed == l - g
      ensures removed < l - g ==> q < |chains[h]| && RemoveAt(Order(chains), g) == Cut(s, g, removed + 1)
    {
      AtPlace(chains, h, q);
      AtCut(s, g, removed);
      if removed < l - g {
        CutOneMore(s, g, removed);
        AtUnique(Order(chains), g, l - removed);
        assert At(Order(chains), l - removed) == At(s, l);
      }
    }

    lemma AtCut(s: seq<Node<V>>, g: nat, n: nat)
      requires g + n <= |s|
      ensures At(Cut(s, g, n), g) == At(s, g + n)
    {
    }

    lemma AtUnique(s: seq<Node<V>>, i: nat, j: nat)
      requires NoDup(s) && i <= j <= |s|
      ensures At(s, i) == At(s, j) <==> i == j
    {
    }

    /** `resize(node_count - removed)`: never a rehash. */
    method Shrink(removed: nat)
      requires law == NodeLaw(policy)
      requires Owned() && Chained() && WellFormed(law, chains)
      requires nodeCount == |Order(chains)| + removed && |bucket| >= BucketsFor(nodeCount)
      modifies this`bucket, this`chains, this`nodeCount, this`links, repr
      ensures Ready() && Order(chains) == old(Order(chains))
      ensures if Order(chains) == [] then chains == [[]] else chains == old(chains)
    {
      ghost var r := if nodeCount == removed then [[]] else chains;
      ShrinkShape(nodeCount, nodeCount - removed, r);
      Resize(nodeCount - removed);
      assert chains == r;
    }

    lemma ShrinkShape(size: nat, less: nat, r: seq<seq<Node<V>>>)
      requires WellFormed(law, chains) && less == |Order(chains)| <= size && |chains| >= BucketsFor(size)
      requires r == if less == 0 then [[]] else chains
      ensures Resized(law, chains, less) == r && WellFormed(law, r)
      ensures Order(r) == Order(chains) && |r| >= BucketsFor(less)
    {
      BucketsShrink(size, less);
      ErasedShape(law, chains, less);
      ResizedKeeps(law, chains, less);
    }

    /** `erase` once the range is not empty: search the key, run the removal loop, resize. */
    method EraseFromGroup(first: Node<V>, last: Node?<V>, ghost f: nat, ghost l: nat, ghost g: nat)
      requires Ready() && f < |Order(chains)| && first == Order(chains)[f]
      requires g == GroupStart(law, chains, policy.key(first.val)) && g <= l <= |Order(chains)|
      requires last == At(Order(chains), l)
      modifies this, repr
      ensures Ready() && Order(chains) == Cut(old(Order(chains)), g, l - g)
      ensures if Order(chains) == [] then chains == [[]] else |chains| == |old(chains)|
    {
      var k := policy.key(first.val);
      var hval := policy.hash(k) % |bucket|;
      ghost var h, p;
      var iter;
      iter, h, p := FindNode(k);
      HeadExists(k, f);
      var removed := EraseFrom(iter, hval, last, p, g, l);
      Shrink(removed);
    }

    lemma BucketsShrink(size: nat, less: nat)
      requires less <= size
      ensures BucketsFor(less) <= BucketsFor(size)
    {
    }

    lemma FromHeadOnly(s: seq<Node<V>>, g: nat, f: nat, l: nat, rest: seq<Node<V>>)
      requires g <= l <= |s| && f != l && rest == Cut(s, g, l - g) && NoDup(s)
      ensures ErasedFrom(s, g, f, l, rest)
    {
      if f <= l {
        CutUnique(s, g, l - g, f, l - f);
      }
    }

    /** `erase(first, last)`. The search starts from the key of `first`, so what goes is everything
        from the head `g` of its group up to `last`, which must not come before that head. That is
        the range asked for exactly when `first` is the head of its group. */
    method Erase(first: Node<V>, last: Node?<V>, ghost f: nat, ghost l: nat)
      requires Ready() && f < |Order(chains)| && first == Order(chains)[f]
      requires l <= |Order(chains)| && last == At(Order(chains), l)
      requires first != last ==> GroupStart(law, chains, policy.key(first.val)) <= l
      modifies this, repr
      ensures Ready()
      ensures first == last ==> chains == old(chains)
      ensures var g := GroupStart(law, old(chains), policy.key(first.val));
        first != last ==> ErasedFrom(Order(old(chains)), g, f, l, Order(chains))
      ensures first != last ==> if Order(chains) == [] then chains == [[]] else |chains| == |old(chains)|
    {
      if first != last {
        ghost var s, g := Order(chains), GroupStart(law, chains, policy.key(first.val));
        EraseFromGroup(first, last, f, l, g);
        FromHeadOnly(s, g, f, l, Order(chains));
      }
    }

    /** A key that is in the table is found by a search. */
    lemma HeadExists(k: K, f: nat)
      requires WellFormed(law, chains) && |chains| > 0 && f < |Order(chains)| && law.Matches(k, Order(chains)[f])
      ensures var h := law.hash(k) % |chains|; Find(law, chains[h], k) < |chains[h]|
    {
      OrderMember(chains, Order(chains)[f]);
      var b, p :| 0 <= b < |chains| && 0 <= p < |chains[b]| && chains[b][p] == Order(chains)[f];
      assert law.Slot(chains[b][p], |chains|) == b;
    }

    // ----- begin -----

    /** `begin`. The loop runs over the buckets in use instead of the empty ones: it stops at the
        first empty bucket, or reads past the end of the vector when there is none. So it finds the
        first element, or `end()` if there is none, exactly when the table is empty. */
    method Begin() returns (result: Reading<V>)
      requires Chained()
      ensures result == Entry(null) <==> exists b :: 0 <= b < |chains| && chains[b] == []
      ensures result == Dangling <==> forall b :: 0 <= b < |chains| ==> chains[b] != []
      ensures bucket != [] ==> (result == Entry(At(Order(chains), 0)) <==> Order(chains) == [])
    {
      var i := 0;
      while i < |bucket| && bucket[i] != null
        invariant i <= |bucket|
        invariant forall b :: 0 <= b < i ==> chains[b] != []
      {
        UsedHead(i);
        i := i + 1;
      }
      if i < |bucket| {
        result := Entry(bucket[i]);
        NullHead(i);
      } else {
        result := Dangling;
      }
      BeginOrder();
    }

    lemma UsedHead(b: nat)
      requires Chained() && b < |bucket| && bucket[b] != null
      ensures chains[b] != []
    {
    }

    lemma BeginOrder()
      ensures Order(chains) == [] ==> forall b :: 0 <= b < |chains| ==> chains[b] == []
    {
      forall b | 0 <= b < |chains| ensures |chains[b]| <= |Order(chains)| {
        OrderSplit(chains, b);
      }
    }

    // ----- copy -----

    /** One step of `copy_bucket`: a node with value `v` at the tail of a chain, where the splice
        finds no successor. */
    method Append(tail: Link<V>, v: V, ghost h: nat) returns (tail': Link<V>)
      requires Owned() && Chained() && NoDup(Order(chains)) && h < |chains| && tail == LinkAt(chains[h], h, |chains[h]|)
      modifies this, repr
      ensures Owned() && Chained() && NoDup(Order(chains)) && |bucket| == |old(bucket)| && fresh(repr - old(repr))
      ensures h < |chains| && chains == old(chains)[h := chains[h]] && nodeCount == old(nodeCount)
      ensures tail' == LinkAt(chains[h], h, |chains[h]|) && Values(chains[h]) == Values(old(chains)[h]) + [v]
    {
      ghost var c := chains[h];
      var node := Splice(tail, v, h, |c|);
      NotInChains(old(chains), old(links), old(bucket), node);
      assert InsertAt(c, |c|, node) == c + [node];
      AppendOwned(old(chains), h, node);
      tail' := AtNext(node);
    }

    lemma AppendOwned(chains: seq<seq<Node<V>>>, h: nat, node: Node<V>)
      requires NoDup(Order(chains)) && h < |chains| && node !in Order(chains)
      ensures NoDup(Order(chains[h := chains[h] + [node]]))
      ensures Elements(Order(chains[h := chains[h] + [node]])) == Elements(Order(chains)) + {node}
    {
      var a, c, b := Order(chains[..h]), chains[h], Order(chains[h + 1..]);
      OrderSplit(chains, h);
      OrderUpdate(chains, h, c + [node]);
      Associate(a, c, [node], b);
      assert a + (c + [node]) + b == (a + c) + [node] + b;
      InsertNoDup(a + c, node, b);
      assert (a + c + b)[..|a + c|] == a + c && (a + c + b)[|a + c|..] == b;
      InsertElements(a + c + b, |a + c|, node);
    }

    method CopyBucket(other: Table<K, V>, b: nat)
      requires other != this && other.Chained() && repr !! other.repr
      requires Owned() && Chained() && NoDup(Order(chains)) && b < |chains| == |other.chains| && chains[b] == []
      modifies this, repr
      ensures Owned() && Chained() && NoDup(Order(chains)) && fresh(repr - old(repr))
      ensures b < |chains| && chains == old(chains)[b := chains[b]] && Values(chains[b]) == Values(other.chains[b])
      ensures nodeCount == old(nodeCount)
    {
      var iter := other.bucket[b];
      var tail: Link<V> := AtBucket(b);
      ghost var q := 0;
      while iter != null
        invariant Owned() && Chained() && NoDup(Order(chains)) && fresh(repr - old(repr))
        invariant other.Chained() && other.repr == old(other.repr) && other.chains == old(other.chains)
        invariant b < |chains| && chains == old(chains)[b := chains[b]] && nodeCount == old(nodeCount)
        invariant q <= |other.chains[b]| && iter == At(other.chains[b], q)
        invariant tail == LinkAt(chains[b], b, |chains[b]|) && Values(chains[b]) == Values(other.chains[b])[..q]
        decreases |other.chains[b]| - q
      {
        other.NextIn(b, q);
        ValuesTake(other.chains[b], q);
        tail := Append(tail, iter.val, b);
        iter := iter.next;
        q := q + 1;
      }
    }

    /** `copy_bucket`. */
    method CopyBuckets(other: Table<K, V>)
      requires other != this && other.Chained() && repr == {} && links == map[]
      requires bucket == seq(|other.bucket|, _ => null) && chains == NoChains(|other.bucket|)
      modifies this
      ensures Owned() && Chained() && NoDup(Order(chains)) && fresh(repr)
      ensures SameValues(chains, other.chains) && nodeCount == old(nodeCount)
    {
      NoChainsEmpty<Node<V>>(|other.bucket|);
      var b := 0;
      while b < |other.bucket|
        invariant b <= |other.bucket| == |bucket| == |chains| == |other.chains| && fresh(repr)
        invariant Owned() && Chained() && NoDup(Order(chains)) && nodeCount == old(nodeCount)
        invariant other.Chained() && other.repr == old(other.repr) && other.chains == old(other.chains)
        invariant forall i :: 0 <= i < b ==> Values(chains[i]) == Values(other.chains[i])
        invariant forall i :: b <= i < |chains| ==> chains[i] == []
      {
        CopyBucket(other, b);
        b := b + 1;
      }
    }

    /** The copy constructor: new nodes, same values in the same buckets and order. */
    constructor Copy(other: Table<K, V>)
      requires other.Valid()
      ensures Valid() && policy == other.policy && fresh(repr) && nodeCount == other.nodeCount
      ensures SameValues(chains, other.chains)
    {
      policy := other.policy;
      law := NodeLaw(other.policy);
      bucket := seq(|other.bucket|, _ => null);
      nodeCount := other.nodeCount;
      chains := NoChains(|other.bucket|);
      repr, links := {}, map[];
      new;
      CopyBuckets(other);
      SameValuesKeep(policy, other.chains, chains);
    }
  }

  lemma ValuesTake<V>(d: seq<Node<V>>, q: nat)
    requires q < |d|
    ensures Values(d)[..q + 1] == Values(d)[..q] + [d[q].val]
    ensures Values(d)[..|d|] == Values(d)
  {
  }

  function Values<V>(c: seq<Node<V>>): seq<V> {
    seq(|c|, i requires 0 <= i < |c| => c[i].val)
  }

  ghost predicate SameValues<V>(chains: seq<seq<Node<V>>>, others: seq<seq<Node<V>>>) {
    |chains| == |others| && forall b :: 0 <= b < |chains| ==> Values(chains[b]) == Values(others[b])
  }

  lemma SameValuesAt<V>(c: seq<Node<V>>, d: seq<Node<V>>, p: nat)
    requires Values(c) == Values(d) && p < |c|
    ensures |c| == |d| && c[p].val == d[p].val
  {
    assert Values(c)[p] == Values(d)[p];
    assert |Values(c)| == |Values(d)|;
  }

  lemma SameValuesKeep<K(!new), V>(policy: Law<K, V>, others: seq<seq<Node<V>>>, chains: seq<seq<Node<V>>>)
    requires WellFormed(NodeLaw(policy), others) && SameValues(chains, others) && NoDup(Order(chains))
    ensures WellFormed(NodeLaw(policy), chains) && |Order(chains)| == |Order(others)|
  {
    var law := NodeLaw(policy);
    forall b, p | 0 <= b < |chains| && 0 <= p < |chains[b]| ensures law.Slot(chains[b][p], |chains|) == b {
      SameValuesAt(chains[b], others[b], p);
      assert law.Slot(others[b][p], |others|) == b;
    }
    forall b | 0 <= b < |chains| ensures Grouped(law, chains[b]) {
      SameValuesGrouped(policy, others[b], chains[b]);
    }
    SameValuesOrder(chains, others);
  }

  lemma SameValuesGrouped<K(!new), V>(policy: Law<K, V>, d: seq<Node<V>>, c: seq<Node<V>>)
    requires Values(c) == Values(d) && Grouped(NodeLaw(policy), d)
    ensures Grouped(NodeLaw(policy), c)
  {
    forall p | 0 <= p < |c| ensures |c| == |d| && c[p].val == d[p].val {
      SameValuesAt(c, d, p);
    }
  }

  lemma {:induction false} SameValuesOrder<V>(chains: seq<seq<Node<V>>>, others: seq<seq<Node<V>>>)
    requires SameValues(chains, others)
    ensures Values(Order(chains)) == Values(Order(others)) && |Order(chains)| == |Order(others)|
    decreases |chains|
  {
    if chains != [] {
      var n := |chains| - 1;
      SameValuesOrder(chains[..n], others[..n]);
      assert Values(chains[n]) == Values(others[n]);
      ValuesConcat(Order(chains[..n]), chains[n]);
      ValuesConcat(Order(others[..n]), others[n]);
      assert |Values(Order(chains))| == |Values(Order(others))|;
    }
  }

  lemma ValuesConcat<V>(a: seq<Node<V>>, b: seq<Node<V>>)
    ensures Values(a + b) == Values(a) + Values(b)
  {
  }
}
