/** Linked chains as values: `next` is what the `next` fields of the nodes hold. The lemmas say what
    single pointer writes do to the chains. */
module HashLinks {
  import opened Sequences
  import opened HashChains
  import opened HashOperations

  class Node<V> {
    const val: V
    var next: Node?<V>

    constructor (val: V, next: Node?<V>)
      ensures this.val == val && this.next == next
    {
      this.val := val;
      this.next := next;
    }
  }

  type Links<V> = map<Node<V>, Node?<V>>

  /** The node at place `p`, or null past the end. */
  function At<V>(c: seq<Node<V>>, p: nat): Node?<V> {
    if p < |c| then c[p] else null
  }

  /** A place of a chain is a place of the order; past the last chain stands null. */
  lemma AtPlace<V>(chains: seq<seq<Node<V>>>, h: nat, q: nat)
    requires h < |chains| && q <= |chains[h]| && (q == |chains[h]| ==> h + 1 == |chains|)
    ensures At(chains[h], q) == At(Order(chains), Offset(chains, h) + q)
  {
    if q < |chains[h]| {
      OrderIndex(chains, h, q);
    } else {
      OffsetStep(chains, h);
      OffsetEnd(chains);
    }
  }

  /** The heads and `next` fields spell out the chains. */
  ghost predicate Linked<V>(next: Links<V>, heads: seq<Node?<V>>, chains: seq<seq<Node<V>>>) {
    && |heads| == |chains|
    && (forall b :: 0 <= b < |chains| ==> heads[b] == At(chains[b], 0))
    && (forall b, p :: 0 <= b < |chains| && 0 <= p < |chains[b]| ==>
      chains[b][p] in next && next[chains[b][p]] == At(chains[b], p + 1))
  }

  /** Making place `p` of chain `h` refer to `node`: the head of the bucket, or the node in front. */
  function Redirect<V>(next: Links<V>, chains: seq<seq<Node<V>>>, h: nat, p: nat, node: Node?<V>): Links<V>
    requires h < |chains| && p <= |chains[h]|
  {
    if p == 0 then next else next[chains[h][p - 1] := node]
  }

  function RedirectHead<V>(heads: seq<Node?<V>>, h: nat, p: nat, node: Node?<V>): seq<Node?<V>>
    requires h < |heads|
  {
    if p == 0 then heads[h := node] else heads
  }

  /** The links of one element after a new node is written between places `p - 1` and `p` of chain `h`. */
  lemma SplicedAt<V>(next: Links<V>, heads: seq<Node?<V>>, chains: seq<seq<Node<V>>>,
                     h: nat, p: nat, node: Node<V>, b: nat, q: nat)
    requires Linked(next, heads, chains) && NoDup(Order(chains))
    requires h < |chains| && p <= |chains[h]| && node !in next
    requires b < |chains| && q < |chains[h := InsertAt(chains[h], p, node)][b]|
    ensures var c := chains[h := InsertAt(chains[h], p, node)][b];
            var after := Redirect(next, chains, h, p, node)[node := At(chains[h], p)];
            c[q] in after && after[c[q]] == At(c, q + 1)
  {
    if p > 0 {
      PlacesDiffer(chains, h, p - 1);
    }
    InsertAtPlaces(chains[h], p, node);
  }

  lemma InsertAtPlaces<T>(c: seq<T>, p: nat, x: T)
    requires p <= |c|
    ensures |InsertAt(c, p, x)| == |c| + 1 && InsertAt(c, p, x)[p] == x
    ensures forall q :: 0 <= q < p ==> InsertAt(c, p, x)[q] == c[q]
    ensures forall q :: p < q <= |c| ==> InsertAt(c, p, x)[q] == c[q - 1]
  {
  }

  /** A new node written between places `p - 1` and `p` of chain `h`. */
  lemma SpliceLinks<V>(next: Links<V>, heads: seq<Node?<V>>, chains: seq<seq<Node<V>>>, h: nat, p: nat, node: Node<V>)
    requires Linked(next, heads, chains) && NoDup(Order(chains))
    requires h < |chains| && p <= |chains[h]| && node !in next
    ensures Linked(Redirect(next, chains, h, p, node)[node := At(chains[h], p)], RedirectHead(heads, h, p, node),
                   chains[h := InsertAt(chains[h], p, node)])
  {
    var r := chains[h := InsertAt(chains[h], p, node)];
    var after := Redirect(next, chains, h, p, node)[node := At(chains[h], p)];
    forall b, q | 0 <= b < |r| && 0 <= q < |r[b]| ensures r[b][q] in after && after[r[b][q]] == At(r[b], q + 1) {
      SplicedAt(next, heads, chains, h, p, node, b, q);
    }
  }

  /** The node at place `p` of chain `h` bypassed. */
  lemma UnlinkLinks<V>(next: Links<V>, heads: seq<Node?<V>>, chains: seq<seq<Node<V>>>, h: nat, p: nat)
    requires Linked(next, heads, chains) && NoDup(Order(chains))
    requires h < |chains| && p < |chains[h]|
    ensures Linked(Redirect(next, chains, h, p, At(chains[h], p + 1)) - {chains[h][p]},
                   RedirectHead(heads, h, p, At(chains[h], p + 1)), chains[h := RemoveAt(chains[h], p)])
  {
    var r := chains[h := RemoveAt(chains[h], p)];
    var after := Redirect(next, chains, h, p, At(chains[h], p + 1)) - {chains[h][p]};
    forall b, q | 0 <= b < |r| && 0 <= q < |r[b]| ensures r[b][q] in after && after[r[b][q]] == At(r[b], q + 1) {
      UnlinkedAt(next, heads, chains, h, p, b, q);
    }
    RemoveAtPlaces(chains[h], p);
  }

  /** The links of one element after the node at place `p` of chain `h` is bypassed. */
  lemma UnlinkedAt<V>(next: Links<V>, heads: seq<Node?<V>>, chains: seq<seq<Node<V>>>,
                      h: nat, p: nat, b: nat, q: nat)
    requires Linked(next, heads, chains) && NoDup(Order(chains))
    requires h < |chains| && p < |chains[h]|
    requires b < |chains| && q < |chains[h := RemoveAt(chains[h], p)][b]|
    ensures var c := chains[h := RemoveAt(chains[h], p)][b];
            var after := Redirect(next, chains, h, p, At(chains[h], p + 1)) - {chains[h][p]};
            c[q] in after && after[c[q]] == At(c, q + 1)
  {
    PlacesDiffer(chains, h, p);
    if p > 0 {
      PlacesDiffer(chains, h, p - 1);
    }
    RemoveAtPlaces(chains[h], p);
  }

  lemma RemoveAtPlaces<T>(c: seq<T>, p: nat)
    requires p < |c|
    ensures |RemoveAt(c, p)| == |c| - 1
    ensures forall q :: 0 <= q < p ==> RemoveAt(c, p)[q] == c[q]
    ensures forall q :: p <= q < |c| - 1 ==> RemoveAt(c, p)[q] == c[q + 1]
  {
  }

  /** The last node of a head run `chains[h][..e]` pointed at the head of another chain. */
  lemma MoveLinks<V>(next: Links<V>, heads: seq<Node?<V>>, chains: seq<seq<Node<V>>>,
                     tmp: seq<Node?<V>>, tchains: seq<seq<Node<V>>>, h: nat, e: nat, t: nat)
    requires Linked(next, heads, chains) && Linked(next, tmp, tchains) && NoDup(Order(chains) + Order(tchains))
    requires h < |chains| && 0 < e <= |chains[h]| && t < |tchains|
    ensures Linked(next[chains[h][e - 1] := tmp[t]], heads[h := At(chains[h], e)], chains[h := chains[h][e..]])
  {
    var c := chains[h];
    var r := chains[h := c[e..]];
    var after := next[c[e - 1] := tmp[t]];
    assert NoDup(Order(chains)) by {
      NoDupParts(Order(chains), Order(tchains));
    }
    forall b, q | 0 <= b < |r| && 0 <= q < |r[b]| ensures r[b][q] in after && after[r[b][q]] == At(r[b], q + 1) {
      CutOffAt(next, heads, chains, h, e, tmp[t], b, q);
    }
  }

  /** The links of one element after the head run `chains[h][..e]` is cut off and led elsewhere. */
  lemma CutOffAt<V>(next: Links<V>, heads: seq<Node?<V>>, chains: seq<seq<Node<V>>>,
                    h: nat, e: nat, elsewhere: Node?<V>, b: nat, q: nat)
    requires Linked(next, heads, chains) && NoDup(Order(chains)) && h < |chains| && 0 < e <= |chains[h]|
    requires b < |chains| && q < |chains[h := chains[h][e..]][b]|
    ensures var c := chains[h := chains[h][e..]][b];
            var after := next[chains[h][e - 1] := elsewhere];
            c[q] in after && after[c[q]] == At(c, q + 1)
  {
    PlacesDiffer(chains, h, e - 1);
    assert b == h ==> chains[h][e..][q] == chains[h][q + e];
  }

  lemma MoveLinksInto<V>(next: Links<V>, heads: seq<Node?<V>>, chains: seq<seq<Node<V>>>,
                         tmp: seq<Node?<V>>, tchains: seq<seq<Node<V>>>, h: nat, e: nat, t: nat)
    requires Linked(next, heads, chains) && Linked(next, tmp, tchains) && NoDup(Order(chains) + Order(tchains))
    requires h < |chains| && 0 < e <= |chains[h]| && t < |tchains|
    ensures Linked(next[chains[h][e - 1] := tmp[t]], tmp[t := chains[h][0]],
                   tchains[t := chains[h][..e] + tchains[t]])
  {
    var c := chains[h];
    var r := tchains[t := c[..e] + tchains[t]];
    var after := next[c[e - 1] := tmp[t]];
    assert NoDup(Order(chains)) by {
      NoDupParts(Order(chains), Order(tchains));
    }
    PlacesDiffer(chains, h, e - 1);
    forall b, q | 0 <= b < |r| && 0 <= q < |r[b]| ensures r[b][q] in after && after[r[b][q]] == At(r[b], q + 1) {
      if b == t && q < e {
        assert r[b][q] == chains[h][q];
      } else {
        var i := if b == t then q - e else q;
        assert r[b][q] == tchains[b][i];
        ChainsApart(chains, tchains, h, e - 1, b, i);
      }
    }
  }

  lemma NoDupParts<T>(s: seq<T>, t: seq<T>)
    requires NoDup(s + t)
    ensures NoDup(s) && NoDup(t)
    ensures forall i, j :: 0 <= i < |s| && 0 <= j < |t| ==> s[i] != t[j]
  {
    forall i, j | 0 <= i < j < |s| ensures s[i] != s[j] {
      assert (s + t)[i] == s[i] && (s + t)[j] == s[j];
    }
    forall i, j | 0 <= i < j < |t| ensures t[i] != t[j] {
      assert (s + t)[|s| + i] == t[i] && (s + t)[|s| + j] == t[j];
    }
    forall i, j | 0 <= i < |s| && 0 <= j < |t| ensures s[i] != t[j] {
      assert (s + t)[i] == s[i] && (s + t)[|s| + j] == t[j];
    }
  }

  lemma ChainsApart<T>(chains: seq<seq<T>>, tchains: seq<seq<T>>, b: nat, p: nat, b': nat, p': nat)
    requires NoDup(Order(chains) + Order(tchains))
    requires b < |chains| && p < |chains[b]| && b' < |tchains| && p' < |tchains[b']|
    ensures chains[b][p] != tchains[b'][p']
  {
    NoDupParts(Order(chains), Order(tchains));
    OrderIndex(chains, b, p);
    OrderIndex(tchains, b', p');
  }
}
