/** The adaptor of utilmm/undirected_graph.hh: a directed multigraph with both incidence lists,
    shown as an undirected one by giving every directed edge two descriptors, one for each end. */
module UndirectedGraph {
  import opened Sequences
  import opened IteratorSequence

  datatype Edge = Edge(src: nat, dst: nat)

  /** A bidirectional base graph. Vertices are `0..order`, edge ids index `edges`; parallel edges
      and self-loops are allowed. `outs` and `ins` list incident edge ids in any order. */
  datatype Graph = Graph(order: nat, edges: seq<Edge>, outs: seq<seq<nat>>, ins: seq<seq<nat>>)

  /** An edge of the adaptor: the base edge and the "reversed" flag. */
  datatype Descriptor = Descriptor(id: nat, reversed: bool)

  ghost predicate WellFormed(g: Graph) {
    && |g.outs| == g.order && |g.ins| == g.order
    && (forall e :: 0 <= e < |g.edges| ==> g.edges[e].src < g.order && g.edges[e].dst < g.order)
    && (forall u :: 0 <= u < g.order ==> NoDup(g.outs[u]) && NoDup(g.ins[u]))
    && (forall u, i :: 0 <= u < g.order && 0 <= i < |g.outs[u]| ==>
      g.outs[u][i] < |g.edges| && g.edges[g.outs[u][i]].src == u)
    && (forall u, i :: 0 <= u < g.order && 0 <= i < |g.ins[u]| ==>
      g.ins[u][i] < |g.edges| && g.edges[g.ins[u][i]].dst == u)
    && (forall e :: 0 <= e < |g.edges| ==> e in g.outs[g.edges[e].src] && e in g.ins[g.edges[e].dst])
  }

  predicate Valid(g: Graph, d: Descriptor) {
    d.id < |g.edges|
  }

  function Source(g: Graph, d: Descriptor): nat
    requires Valid(g, d)
  {
    if d.reversed then g.edges[d.id].dst else g.edges[d.id].src
  }

  function Target(g: Graph, d: Descriptor): nat
    requires Valid(g, d)
  {
    if d.reversed then g.edges[d.id].src else g.edges[d.id].dst
  }

  function Flip(d: Descriptor): Descriptor {
    Descriptor(d.id, !d.reversed)
  }

  function Flag(ids: seq<nat>, reversed: bool): seq<Descriptor> {
    seq(|ids|, i requires 0 <= i < |ids| => Descriptor(ids[i], reversed))
  }

  /** The incident edges of `u`: its in-edges flagged as reversed, then its out-edges. */
  function OutEdges(g: Graph, u: nat): seq<Descriptor>
    requires u < |g.ins| && u < |g.outs|
  {
    Flag(g.ins[u], true) + Flag(g.outs[u], false)
  }

  function OutDegree(g: Graph, u: nat): nat
    requires u < |g.ins| && u < |g.outs|
  {
    |g.ins[u]| + |g.outs[u]|
  }

  /** The neighbours of `u` as `adjacent_vertices` lists them: successors, then predecessors. */
  function AdjacentVertices(g: Graph, u: nat): seq<nat>
    requires WellFormed(g) && u < g.order
  {
    seq(|g.outs[u]|, i requires 0 <= i < |g.outs[u]| => g.edges[g.outs[u][i]].dst)
    + seq(|g.ins[u]|, i requires 0 <= i < |g.ins[u]| => g.edges[g.ins[u][i]].src)
  }

  /** The in-edges come first, flagged, and then the out-edges, each in the order of the base graph. */
  lemma InEdgesFirst(g: Graph, u: nat, i: nat)
    requires WellFormed(g) && u < g.order
    ensures |OutEdges(g, u)| == |g.ins[u]| + |g.outs[u]|
    ensures i < |g.ins[u]| ==> OutEdges(g, u)[i] == Descriptor(g.ins[u][i], true)
    ensures i < |g.outs[u]| ==> OutEdges(g, u)[|g.ins[u]| + i] == Descriptor(g.outs[u][i], false)
  {
  }

  /** `out_edges`: what lies between its two iterators. */
  method ListOutEdges(g: Graph, u: nat) returns (l: seq<Descriptor>)
    requires WellFormed(g) && u < g.order
    ensures l == OutEdges(g, u)
  {
    l := Collect(Flag(g.ins[u], true), Flag(g.outs[u], false));
  }

  /** `adjacent_vertices`, from the far ends of the two directed lists. */
  method ListAdjacentVertices(g: Graph, u: nat) returns (l: seq<nat>)
    requires WellFormed(g) && u < g.order
    ensures l == AdjacentVertices(g, u)
    ensures forall i :: 0 <= i < |g.outs[u]| ==> l[i] == g.edges[g.outs[u][i]].dst
    ensures forall i :: 0 <= i < |g.ins[u]| ==> l[|g.outs[u]| + i] == g.edges[g.ins[u][i]].src
  {
    var successors := seq(|g.outs[u]|, i requires 0 <= i < |g.outs[u]| => g.edges[g.outs[u][i]].dst);
    var predecessors := seq(|g.ins[u]|, i requires 0 <= i < |g.ins[u]| => g.edges[g.ins[u][i]].src);
    l := Collect(successors, predecessors);
  }

  /** Where descriptor `d` stands in a list; the length of the list if it is not there. */
  function Position(s: seq<Descriptor>, d: Descriptor): (k: nat)
    ensures k <= |s|
    ensures k < |s| ==> s[k] == d
    ensures forall i :: 0 <= i < k ==> s[i] != d
  {
    if s == [] then 0 else if s[0] == d then 0 else 1 + Position(s[1..], d)
  }

  function Slot(g: Graph, d: Descriptor): nat
    requires WellFormed(g) && Valid(g, d)
  {
    Position(OutEdges(g, Source(g, d)), d)
  }

  /** Every descriptor listed at `u` is a real edge and starts at `u`. */
  lemma IncidentSource(g: Graph, u: nat, i: nat)
    requires WellFormed(g) && u < g.order && i < |OutEdges(g, u)|
    ensures Valid(g, OutEdges(g, u)[i]) && Source(g, OutEdges(g, u)[i]) == u
    ensures Target(g, OutEdges(g, u)[i]) < g.order
  {
    if i < |g.ins[u]| {
      assert g.ins[u][i] in g.ins[u];
    } else {
      assert g.outs[u][i - |g.ins[u]|] in g.outs[u];
    }
  }

  /** Every descriptor is listed at its source, at one place only. */
  lemma SlotUnique(g: Graph, u: nat, i: nat, d: Descriptor)
    requires WellFormed(g) && Valid(g, d) && u < g.order && i < |OutEdges(g, u)|
    ensures Source(g, d) < g.order && Slot(g, d) < |OutEdges(g, Source(g, d))|
    ensures OutEdges(g, u)[i] == d <==> u == Source(g, d) && i == Slot(g, d)
  {
    var v := Source(g, d);
    var out := OutEdges(g, v);
    if d.reversed {
      assert d.id in g.ins[v];
      var j :| 0 <= j < |g.ins[v]| && g.ins[v][j] == d.id;
      assert out[j] == d;
    } else {
      assert d.id in g.outs[v];
      var j :| 0 <= j < |g.outs[v]| && g.outs[v][j] == d.id;
      assert out[|g.ins[v]| + j] == d;
    }
    IncidentSource(g, u, i);
  }

  lemma SlotExists(g: Graph, d: Descriptor)
    requires WellFormed(g) && Valid(g, d)
    ensures Source(g, d) < g.order && Target(g, d) < g.order
    ensures Slot(g, d) < |OutEdges(g, Source(g, d))| && OutEdges(g, Source(g, d))[Slot(g, d)] == d
  {
    var v := Source(g, d);
    if d.reversed {
      assert d.id in g.ins[v];
      var j :| 0 <= j < |g.ins[v]| && g.ins[v][j] == d.id;
      assert OutEdges(g, v)[j] == d;
    } else {
      assert d.id in g.outs[v];
      var j :| 0 <= j < |g.outs[v]| && g.outs[v][j] == d.id;
      assert OutEdges(g, v)[|g.ins[v]| + j] == d;
    }
  }

  /** The list of `u` has no repetition and holds exactly the descriptors starting at `u`. */
  lemma IncidentList(g: Graph, u: nat)
    requires WellFormed(g) && u < g.order
    ensures NoDup(OutEdges(g, u))
    ensures forall d :: d in OutEdges(g, u) <==> Valid(g, d) && Source(g, d) == u
  {
    var out := OutEdges(g, u);
    forall i, j | 0 <= i < j < |out| ensures out[i] != out[j] {
      IncidentSource(g, u, i);
      SlotUnique(g, u, i, out[i]);
      SlotUnique(g, u, j, out[i]);
    }
    forall d ensures d in out <==> Valid(g, d) && Source(g, d) == u {
      if d in out {
        var i :| 0 <= i < |out| && out[i] == d;
        IncidentSource(g, u, i);
      }
      if Valid(g, d) && Source(g, d) == u {
        SlotExists(g, d);
      }
    }
  }

  /** A self-loop or not, each edge is listed once at each of its two ends and nowhere else. */
  lemma OnceAtEachEnd(g: Graph, d: Descriptor, u: nat)
    requires WellFormed(g) && Valid(g, d) && u < g.order
    ensures Count(OutEdges(g, u), d) == if u == Source(g, d) then 1 else 0
    ensures Source(g, Flip(d)) == Target(g, d) && Target(g, Flip(d)) == Source(g, d) && Flip(d) != d
  {
    IncidentList(g, u);
    CountNoDup(OutEdges(g, u), d);
  }

  function Count(s: seq<Descriptor>, d: Descriptor): nat {
    if s == [] then 0 else (if s[0] == d then 1 else 0) + Count(s[1..], d)
  }

  lemma {:induction false} CountNoDup(s: seq<Descriptor>, d: Descriptor)
    requires NoDup(s)
    ensures Count(s, d) == if d in s then 1 else 0
  {
    if s != [] {
      CountNoDup(s[1..], d);
      assert s == [s[0]] + s[1..];
    }
  }

  /** Where the incident edges of `u` lead, in the order of `out_edges`. */
  function OutTargets(g: Graph, u: nat): seq<nat>
    requires WellFormed(g) && u < g.order
  {
    seq(|OutEdges(g, u)|, i requires 0 <= i < |OutEdges(g, u)| =>
      (IncidentSource(g, u, i); Target(g, OutEdges(g, u)[i])))
  }

  /** `adjacent_vertices` lists each neighbour as often as an incident edge leads to it. */
  lemma AdjacentMultiplicity(g: Graph, u: nat)
    requires WellFormed(g) && u < g.order
    ensures multiset(AdjacentVertices(g, u)) == multiset(OutTargets(g, u))
  {
    var succ := seq(|g.outs[u]|, i requires 0 <= i < |g.outs[u]| => g.edges[g.outs[u][i]].dst);
    var pred := seq(|g.ins[u]|, i requires 0 <= i < |g.ins[u]| => g.edges[g.ins[u][i]].src);
    assert AdjacentVertices(g, u) == succ + pred;
    TargetsInOrder(g, u, pred, succ);
    MultisetSwap(succ, pred);
  }

  lemma MultisetSwap<T>(a: seq<T>, b: seq<T>)
    ensures multiset(a + b) == multiset(b + a)
  {
  }

  lemma TargetsInOrder(g: Graph, u: nat, pred: seq<nat>, succ: seq<nat>)
    requires WellFormed(g) && u < g.order && |pred| == |g.ins[u]| && |succ| == |g.outs[u]|
    requires forall i :: 0 <= i < |pred| ==> g.ins[u][i] < |g.edges| && pred[i] == g.edges[g.ins[u][i]].src
    requires forall i :: 0 <= i < |succ| ==> g.outs[u][i] < |g.edges| && succ[i] == g.edges[g.outs[u][i]].dst
    ensures OutTargets(g, u) == pred + succ
  {
  }

  /** The neighbours `adjacent_vertices` lists are the far ends of the incident edges, each of them as
      often as an edge leads to it. */
  lemma AdjacentVerticesAreTargets(g: Graph, u: nat, v: nat)
    requires WellFormed(g) && u < g.order
    ensures |AdjacentVertices(g, u)| == |OutEdges(g, u)| == OutDegree(g, u)
    ensures multiset(AdjacentVertices(g, u)) == multiset(OutTargets(g, u))
    ensures v in AdjacentVertices(g, u) <==> exists d :: Valid(g, d) && Source(g, d) == u && Target(g, d) == v
  {
    AdjacentMultiplicity(g, u);
    IncidentList(g, u);
    var adj, targets, out := AdjacentVertices(g, u), OutTargets(g, u), OutEdges(g, u);
    assert v in adj <==> v in targets by {
      assert v in multiset(adj) <==> v in multiset(targets);
    }
    if v in targets {
      var i :| 0 <= i < |targets| && targets[i] == v;
      assert out[i] in out && Target(g, out[i]) == v;
    }
    forall d | Valid(g, d) && Source(g, d) == u && Target(g, d) == v ensures v in targets {
      var i :| 0 <= i < |out| && out[i] == d;
      assert targets[i] == v;
    }
  }

  // ----- degrees -----

  function Descriptors(g: Graph): set<Descriptor> {
    set e, b | 0 <= e < |g.edges| && b in {true, false} :: Descriptor(e, b)
  }

  ghost function DescriptorsBelow(g: Graph, k: nat): set<Descriptor> {
    set d | d in Descriptors(g) && Valid(g, d) && Source(g, d) < k
  }

  ghost function Incident(g: Graph, u: nat): set<Descriptor>
    requires u < |g.ins| && u < |g.outs|
  {
    set d | d in OutEdges(g, u)
  }

  function DegreeSum(g: Graph, k: nat): nat
    requires k <= |g.ins| && k <= |g.outs|
  {
    if k == 0 then 0 else DegreeSum(g, k - 1) + OutDegree(g, k - 1)
  }

  lemma {:induction false} DescriptorCount(k: nat)
    ensures |set e, b | 0 <= e < k && b in {true, false} :: Descriptor(e, b)| == 2 * k
  {
    if k > 0 {
      var smaller := set e, b | 0 <= e < k - 1 && b in {true, false} :: Descriptor(e, b);
      var all := set e, b | 0 <= e < k && b in {true, false} :: Descriptor(e, b);
      DescriptorCount(k - 1);
      assert Descriptor(k - 1, true) !in smaller && Descriptor(k - 1, false) !in smaller;
      assert all == smaller + {Descriptor(k - 1, true), Descriptor(k - 1, false)};
    }
  }

  lemma DescriptorsAt(g: Graph, u: nat)
    requires WellFormed(g) && u < g.order
    ensures DescriptorsBelow(g, u + 1) == DescriptorsBelow(g, u) + Incident(g, u)
    ensures DescriptorsBelow(g, u) !! Incident(g, u)
  {
    IncidentList(g, u);
    forall d ensures d in Descriptors(g) <==> Valid(g, d) {
      if Valid(g, d) {
        assert d == Descriptor(d.id, d.reversed);
      }
    }
  }

  lemma {:induction false} DegreesCountDescriptors(g: Graph, k: nat)
    requires WellFormed(g) && k <= g.order
    ensures DegreeSum(g, k) == |DescriptorsBelow(g, k)|
  {
    if k > 0 {
      DegreesCountDescriptors(g, k - 1);
      DescriptorsCounted(g, k - 1);
    }
  }

  lemma DescriptorsCounted(g: Graph, u: nat)
    requires WellFormed(g) && u < g.order
    ensures |DescriptorsBelow(g, u + 1)| == |DescriptorsBelow(g, u)| + OutDegree(g, u)
  {
    DescriptorsAt(g, u);
    IncidentCount(g, u);
    UnionCount(DescriptorsBelow(g, u), Incident(g, u));
  }

  lemma IncidentCount(g: Graph, u: nat)
    requires WellFormed(g) && u < g.order
    ensures |Incident(g, u)| == OutDegree(g, u)
  {
    IncidentList(g, u);
    NoDupCardinality(OutEdges(g, u));
  }

  lemma UnionCount<T>(a: set<T>, b: set<T>)
    requires a !! b
    ensures |a + b| == |a| + |b|
  {
  }

  /** The degrees of the adaptor sum to twice the number of edges. */
  lemma DegreesSumToTwiceTheEdges(g: Graph)
    requires WellFormed(g)
    ensures DegreeSum(g, g.order) == 2 * |g.edges|
  {
    DegreesCountDescriptors(g, g.order);
    DescriptorCount(|g.edges|);
    assert DescriptorsBelow(g, g.order) == Descriptors(g);
  }

  // ----- edge property maps -----

  /** A property map of the adaptor reads and writes the base map at the base edge only, so both
      descriptors of an edge see one value. */
  function Get<T>(m: seq<T>, d: Descriptor): T
    requires d.id < |m|
  {
    m[d.id]
  }

  function Put<T>(m: seq<T>, d: Descriptor, value: T): seq<T>
    requires d.id < |m|
  {
    m[d.id := value]
  }

  /** What is put at one end of an edge is read at both, and at no other edge. */
  lemma BothEndsShareAValue<T>(m: seq<T>, d: Descriptor, value: T, f: Descriptor)
    requires d.id < |m| && f.id < |m|
    ensures Get(Put(m, d, value), f) == if f == d || f == Flip(d) then value else Get(m, f)
  {
    if f.id == d.id {
      assert f == Descriptor(d.id, f.reversed);
    }
  }
}
