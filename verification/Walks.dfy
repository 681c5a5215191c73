/** Walks, connectivity and cycles of the undirected view, restricted to a set of edges. These are
    the reference notions the traversal is judged by; they do not mention the traversal. */
module Walks {
  import opened UndirectedGraph

  function Below(n: nat): (r: set<nat>)
    ensures forall k: nat :: k in r <==> k < n
    ensures |r| == n
  {
    if n == 0 then {} else Below(n - 1) + {n - 1}
  }

  function AllEdges(g: Graph): set<nat> {
    Below(|g.edges|)
  }

  /** `w` leads from `a` to `b` using edges of `s`. */
  ghost predicate Walk(g: Graph, s: set<nat>, a: nat, b: nat, w: seq<Descriptor>)
    decreases |w|
  {
    if w == [] then a == b
    else Valid(g, w[0]) && w[0].id in s && Source(g, w[0]) == a && Walk(g, s, Target(g, w[0]), b, w[1..])
  }

  ghost predicate Connected(g: Graph, s: set<nat>, a: nat, b: nat) {
    exists w :: Walk(g, s, a, b, w)
  }

  function Next(i: nat, n: nat): nat {
    if i + 1 == n then 0 else i + 1
  }

  /** A closed trail: consecutive edges meet, the last meets the first, no edge is used twice.
      A self-loop is one, and so are two parallel edges. */
  ghost predicate Cycle(g: Graph, s: set<nat>, w: seq<Descriptor>) {
    && |w| > 0
    && (forall i :: 0 <= i < |w| ==> Valid(g, w[i]) && w[i].id in s)
    && (forall i :: 0 <= i < |w| ==> Target(g, w[i]) == Source(g, w[Next(i, |w|)]))
    && (forall i, j :: 0 <= i < j < |w| ==> w[i].id != w[j].id)
  }

  ghost predicate Acyclic(g: Graph, s: set<nat>) {
    forall w :: !Cycle(g, s, w)
  }

  lemma ConnectedSelf(g: Graph, s: set<nat>, a: nat)
    ensures Connected(g, s, a, a)
  {
    assert Walk(g, s, a, a, []);
  }

  lemma ConnectedEdge(g: Graph, s: set<nat>, d: Descriptor)
    requires Valid(g, d) && d.id in s
    ensures Connected(g, s, Source(g, d), Target(g, d))
  {
    assert Walk(g, s, Target(g, d), Target(g, d), [d][1..]);
    assert Walk(g, s, Source(g, d), Target(g, d), [d]);
  }

  lemma {:induction false} WalkConcat(g: Graph, s: set<nat>, a: nat, b: nat, c: nat,
                                       w: seq<Descriptor>, x: seq<Descriptor>)
    requires Walk(g, s, a, b, w) && Walk(g, s, b, c, x)
    ensures Walk(g, s, a, c, w + x)
    decreases |w|
  {
    if w == [] {
      assert w + x == x;
    } else {
      WalkConcat(g, s, Target(g, w[0]), b, c, w[1..], x);
      assert (w + x)[1..] == w[1..] + x;
    }
  }

  lemma ConnectedTransitive(g: Graph, s: set<nat>, a: nat, b: nat, c: nat)
    requires Connected(g, s, a, b) && Connected(g, s, b, c)
    ensures Connected(g, s, a, c)
  {
    var w :| Walk(g, s, a, b, w);
    var x :| Walk(g, s, b, c, x);
    WalkConcat(g, s, a, b, c, w, x);
  }

  lemma {:induction false} WalkReverses(g: Graph, s: set<nat>, a: nat, b: nat, w: seq<Descriptor>)
    requires Walk(g, s, a, b, w)
    ensures Connected(g, s, b, a)
    decreases |w|
  {
    if w == [] {
      ConnectedSelf(g, s, a);
    } else {
      WalkReverses(g, s, Target(g, w[0]), b, w[1..]);
      ConnectedEdge(g, s, Flip(w[0]));
      ConnectedTransitive(g, s, b, Target(g, w[0]), a);
    }
  }

  lemma ConnectedSymmetric(g: Graph, s: set<nat>, a: nat, b: nat)
    requires Connected(g, s, a, b)
    ensures Connected(g, s, b, a)
  {
    var w :| Walk(g, s, a, b, w);
    WalkReverses(g, s, a, b, w);
  }

  /** If every edge of `s` joins vertices that `t` connects, then `t` connects whatever `s` does. */
  lemma {:induction false} WalkCovered(g: Graph, s: set<nat>, t: set<nat>, a: nat, b: nat, w: seq<Descriptor>)
    requires Walk(g, s, a, b, w)
    requires forall e :: e in s && e < |g.edges| ==> Connected(g, t, g.edges[e].src, g.edges[e].dst)
    ensures Connected(g, t, a, b)
    decreases |w|
  {
    if w == [] {
      ConnectedSelf(g, t, a);
    } else {
      WalkCovered(g, s, t, Target(g, w[0]), b, w[1..]);
      var e := w[0].id;
      assert Connected(g, t, g.edges[e].src, g.edges[e].dst);
      if w[0].reversed {
        ConnectedSymmetric(g, t, g.edges[e].src, g.edges[e].dst);
      }
      ConnectedTransitive(g, t, a, Target(g, w[0]), b);
    }
  }

  lemma ConnectedCovered(g: Graph, s: set<nat>, t: set<nat>, a: nat, b: nat)
    requires Connected(g, s, a, b)
    requires forall e :: e in s && e < |g.edges| ==> Connected(g, t, g.edges[e].src, g.edges[e].dst)
    ensures Connected(g, t, a, b)
  {
    var w :| Walk(g, s, a, b, w);
    WalkCovered(g, s, t, a, b, w);
  }

  lemma ConnectedMonotone(g: Graph, s: set<nat>, t: set<nat>, a: nat, b: nat)
    requires Connected(g, s, a, b) && s <= t
    ensures Connected(g, t, a, b)
  {
    forall e | e in s && e < |g.edges| ensures Connected(g, t, g.edges[e].src, g.edges[e].dst) {
      ConnectedEdge(g, t, Descriptor(e, false));
    }
    ConnectedCovered(g, s, t, a, b);
  }

  lemma NoEdgesAcyclic(g: Graph)
    ensures Acyclic(g, {})
  {
    forall w: seq<Descriptor> ensures !Cycle(g, {}, w) {
      if |w| > 0 {
        assert w[0].id !in {};
      }
    }
  }

  predicate Touches(g: Graph, e: nat, v: nat) {
    e < |g.edges| && (g.edges[e].src == v || g.edges[e].dst == v)
  }

  /** A cycle through an edge that is no self-loop leaves each end of it by another edge. */
  lemma CycleLeavesEachEnd(g: Graph, s: set<nat>, d: Descriptor, w: seq<Descriptor>, i: nat)
    requires Valid(g, d) && Source(g, d) != Target(g, d)
    requires i < |w| && w[i].id == d.id
    ensures Cycle(g, s, w) ==> exists j :: 0 <= j < |w| && w[j].id != d.id && Touches(g, w[j].id, Target(g, d))
  {
    if Cycle(g, s, w) {
      if w[i] == d {
        var j := Next(i, |w|);
        assert Target(g, w[i]) == Source(g, w[j]);
        assert w[j].id != d.id && Touches(g, w[j].id, Target(g, d));
      } else {
        var j := if i == 0 then |w| - 1 else i - 1;
        assert Next(j, |w|) == i;
        assert Target(g, w[j]) == Source(g, w[i]);
        assert w[j].id != d.id && Touches(g, w[j].id, Target(g, d));
      }
    }
  }

  /** Hanging a new vertex on an acyclic edge set by one edge makes no cycle. */
  lemma LeafKeepsAcyclic(g: Graph, s: set<nat>, d: Descriptor)
    requires Acyclic(g, s) && Valid(g, d)
    requires Source(g, d) != Target(g, d)
    requires forall e :: e in s ==> !Touches(g, e, Target(g, d))
    ensures Acyclic(g, s + {d.id})
  {
    forall w: seq<Descriptor> ensures !Cycle(g, s + {d.id}, w) {
      assert !Cycle(g, s, w);
      if i: nat :| 0 <= i < |w| && w[i].id == d.id {
        CycleLeavesEachEnd(g, s + {d.id}, d, w, i);
      }
    }
  }
}
