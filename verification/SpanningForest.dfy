/** The tree edges of the full traversal: acyclic, connecting whatever read edges connect, one for
    each discovered vertex that is not a start; and every back edge closes a cycle. */
module SpanningForest {
  import opened UndirectedGraph
  import opened Walks
  import opened DepthFirst
  import opened GreyStack
  import opened EdgeEvents

  predicate IsTreeEdge(t: seq<Event>, e: nat) {
    TreeEdge(Descriptor(e, true)) in t || TreeEdge(Descriptor(e, false)) in t
  }

  function TreeEdges(g: Graph, t: seq<Event>): set<nat> {
    set e | e in AllEdges(g) && IsTreeEdge(t, e)
  }

  /** The number of `start_vertex` calls. */
  function Starts(t: seq<Event>): nat {
    if t == [] then 0 else Starts(t[..|t| - 1]) + if t[|t| - 1].StartVertex? then 1 else 0
  }

  lemma StartsAppend(t: seq<Event>, e: Event)
    ensures Starts(t + [e]) == Starts(t) + if e.StartVertex? then 1 else 0
  {
    assert (t + [e])[..|t|] == t;
  }

  predicate BackEdgeIn(t: seq<Event>) {
    exists i :: 0 <= i < |t| && t[i].BackEdge?
  }

  lemma BackEdgeAppend(t: seq<Event>, e: Event)
    ensures BackEdgeIn(t + [e]) <==> BackEdgeIn(t) || e.BackEdge?
  {
    if i :| 0 <= i < |t| && t[i].BackEdge? {
      assert (t + [e])[i].BackEdge?;
    }
    assert (t + [e])[|t|] == e;
  }

  function Discovered(s: State): set<nat> {
    set v | v in Below(|s.vc|) && s.vc[v] != White
  }

  ghost predicate TreeEdgesAreBlack(g: Graph, s: State)
    requires Shape(g, s)
  {
    forall e :: e in TreeEdges(g, s.trace) ==> s.ec[e] == Black
  }

  ghost predicate BlackEdgesConnected(g: Graph, s: State)
    requires Shape(g, s)
  {
    forall e :: 0 <= e < |g.edges| && s.ec[e] == Black ==>
      Connected(g, TreeEdges(g, s.trace), g.edges[e].src, g.edges[e].dst)
  }

  ghost predicate StackOnTree(g: Graph, s: State)
    requires StackIsGreyPath(g, s)
  {
    forall k :: 0 <= k < |s.frames| - 1 ==>
      (assert Linked(g, s, k); LastRead(g, s.frames[k]).id in TreeEdges(g, s.trace))
  }

  ghost predicate TreeSize(g: Graph, s: State) {
    |TreeEdges(g, s.trace)| + Starts(s.trace) == |Discovered(s)|
  }

  ghost predicate Forest(g: Graph, s: State)
    requires StackIsGreyPath(g, s)
  {
    && TreeEdgesAreBlack(g, s)
    && BlackEdgesConnected(g, s)
    && StackOnTree(g, s)
    && Acyclic(g, TreeEdges(g, s.trace))
    && TreeSize(g, s)
    && (BackEdgeIn(s.trace) ==> !Acyclic(g, AllEdges(g)))
  }

  // ----- the stack is a path of tree edges -----

  lemma {:induction false} StackConnected(g: Graph, s: State, i: nat, j: nat)
    requires StackIsGreyPath(g, s) && StackOnTree(g, s)
    requires i <= j < |s.frames|
    ensures Connected(g, TreeEdges(g, s.trace), s.frames[i].v, s.frames[j].v)
    decreases j - i
  {
    var t := TreeEdges(g, s.trace);
    if i == j {
      ConnectedSelf(g, t, s.frames[i].v);
    } else {
      StackConnected(g, s, i, j - 1);
      assert Linked(g, s, j - 1);
      ConnectedEdge(g, t, LastRead(g, s.frames[j - 1]));
      ConnectedTransitive(g, t, s.frames[i].v, s.frames[j - 1].v, s.frames[j].v);
    }
  }

  /** The stack from frame `k` up, followed by the edge just read. */
  function ClosingTrail(g: Graph, s: State, k: nat): (w: seq<Descriptor>)
    requires StackIsGreyPath(g, s) && k < |s.frames| && Top(s).next > 0
    ensures |w| == |s.frames| - k
  {
    seq(|s.frames| - k, i requires 0 <= i < |s.frames| - k =>
      assert k + i < |s.frames| - 1 ==> Linked(g, s, k + i);
      LastRead(g, s.frames[k + i]))
  }

  lemma TrailEdgesDiffer(g: Graph, s: State, i: nat, j: nat)
    requires StackIsGreyPath(g, s) && i < j < |s.frames| - 1
    requires s.frames[i].next > 0 && s.frames[j].next > 0
    ensures LastRead(g, s.frames[i]).id != LastRead(g, s.frames[j]).id
  {
    assert Linked(g, s, i) && Linked(g, s, j);
    assert s.frames[i].v != s.frames[j].v && s.frames[i].v != s.frames[j + 1].v;
  }

  lemma TrailJoins(g: Graph, s: State, k: nat, i: nat)
    requires StackIsGreyPath(g, s) && CanExamine(g, s)
    requires k < |s.frames| && s.frames[k].v == Target(g, Current(g, s)) && i < |s.frames| - k
    ensures StackIsGreyPath(g, Consume(g, s))
    ensures var w := ClosingTrail(g, Consume(g, s), k);
      && Valid(g, w[i]) && Source(g, w[i]) == s.frames[k + i].v
      && Target(g, w[i]) == s.frames[k + Next(i, |w|)].v
      && (if i == |w| - 1 then w[i] == Current(g, s)
          else s.frames[k + i].next > 0 && w[i] == LastRead(g, s.frames[k + i]))
  {
    ConsumeKeepsStack(g, s);
    if k + i < |s.frames| - 1 {
      assert Linked(g, s, k + i);
      assert Linked(g, Consume(g, s), k + i);
    }
  }

  lemma StackEdgeBlack(g: Graph, s: State, k: nat)
    requires StackIsGreyPath(g, s) && StackOnTree(g, s) && TreeEdgesAreBlack(g, s) && k < |s.frames| - 1
    ensures s.frames[k].next > 0 && s.ec[LastRead(g, s.frames[k]).id] == Black
  {
    assert Linked(g, s, k);
    assert LastRead(g, s.frames[k]).id in TreeEdges(g, s.trace);
  }

  lemma TrailIdsDiffer(g: Graph, s: State, k: nat, i: nat, j: nat)
    requires StackIsGreyPath(g, s) && StackOnTree(g, s) && CanExamine(g, s) && TreeEdgesAreBlack(g, s)
    requires s.ec[Current(g, s).id] == White
    requires k < |s.frames| && s.frames[k].v == Target(g, Current(g, s)) && i < j < |s.frames| - k
    ensures StackIsGreyPath(g, Consume(g, s))
    ensures ClosingTrail(g, Consume(g, s), k)[i].id != ClosingTrail(g, Consume(g, s), k)[j].id
  {
    TrailId(g, s, k, i);
    TrailId(g, s, k, j);
    if j < |s.frames| - k - 1 {
      TrailEdgesDiffer(g, s, k + i, k + j);
    } else {
      StackEdgeBlack(g, s, k + i);
    }
  }

  lemma TrailId(g: Graph, s: State, k: nat, i: nat)
    requires StackIsGreyPath(g, s) && CanExamine(g, s)
    requires k < |s.frames| && s.frames[k].v == Target(g, Current(g, s)) && i < |s.frames| - k
    ensures StackIsGreyPath(g, Consume(g, s))
    ensures var e := ClosingTrail(g, Consume(g, s), k)[i];
      if i == |s.frames| - k - 1 then e == Current(g, s)
      else s.frames[k + i].next > 0 && e == LastRead(g, s.frames[k + i])
  {
    TrailJoins(g, s, k, i);
  }

  lemma TrailCloses(g: Graph, s: State, k: nat, i: nat)
    requires StackIsGreyPath(g, s) && CanExamine(g, s)
    requires k < |s.frames| && s.frames[k].v == Target(g, Current(g, s)) && i < |s.frames| - k
    ensures StackIsGreyPath(g, Consume(g, s))
    ensures var w := ClosingTrail(g, Consume(g, s), k);
      && Valid(g, w[i]) && Valid(g, w[Next(i, |w|)]) && w[i].id in AllEdges(g)
      && Target(g, w[i]) == Source(g, w[Next(i, |w|)])
  {
    TrailJoins(g, s, k, i);
    TrailJoins(g, s, k, Next(i, |s.frames| - k));
  }

  /** A grey target of an unread edge closes a cycle through the stack. */
  lemma BackEdgeClosesCycle(g: Graph, s: State, k: nat)
    requires StackIsGreyPath(g, s) && StackOnTree(g, s) && CanExamine(g, s) && TreeEdgesAreBlack(g, s)
    requires s.ec[Current(g, s).id] == White
    requires k < |s.frames| && s.frames[k].v == Target(g, Current(g, s))
    ensures !Acyclic(g, AllEdges(g))
  {
    ConsumeKeepsStack(g, s);
    var w := ClosingTrail(g, Consume(g, s), k);
    forall i | 0 <= i < |w|
      ensures Valid(g, w[i]) && w[i].id in AllEdges(g) && Target(g, w[i]) == Source(g, w[Next(i, |w|)])
    {
      TrailCloses(g, s, k, i);
    }
    forall i, j | 0 <= i < j < |w| ensures w[i].id != w[j].id {
      TrailIdsDiffer(g, s, k, i, j);
    }
    assert Cycle(g, AllEdges(g), w);
  }

  // ----- effect of a step on the tree -----

  lemma TreeEdgesConcat(g: Graph, t: seq<Event>, u: seq<Event>)
    ensures TreeEdges(g, t + u) == TreeEdges(g, t) + TreeEdges(g, u)
  {
  }

  lemma {:induction false} StartsConcat(t: seq<Event>, u: seq<Event>)
    ensures Starts(t + u) == Starts(t) + Starts(u)
  {
    if u == [] {
      assert t + u == t;
    } else {
      StartsConcat(t, u[..|u| - 1]);
      StartsAppend(t + u[..|u| - 1], u[|u| - 1]);
      assert t + u == (t + u[..|u| - 1]) + [u[|u| - 1]];
    }
  }

  lemma BackEdgeConcat(t: seq<Event>, u: seq<Event>)
    ensures BackEdgeIn(t + u) <==> BackEdgeIn(t) || BackEdgeIn(u)
  {
    if i :| 0 <= i < |t| && t[i].BackEdge? {
      assert (t + u)[i].BackEdge?;
    }
    if i :| 0 <= i < |u| && u[i].BackEdge? {
      assert (t + u)[|t| + i].BackEdge?;
    }
  }

  lemma CallsTree(g: Graph, s: State)
    requires CanExamine(g, s)
    ensures TreeEdges(g, Calls(g, s)) == if s.vc[Target(g, Current(g, s))] == White then {Current(g, s).id} else {}
  {
    var d := Current(g, s);
    assert d == Descriptor(d.id, d.reversed);
    if s.vc[Target(g, d)] == White {
      assert Calls(g, s)[1] == TreeEdge(d);
    }
  }

  lemma {:induction false} NoStarts(t: seq<Event>)
    requires forall i :: 0 <= i < |t| ==> !t[i].StartVertex?
    ensures Starts(t) == 0
  {
    if t != [] {
      NoStarts(t[..|t| - 1]);
    }
  }

  lemma ExamineTree(g: Graph, s: State)
    requires CanExamine(g, s)
    ensures TreeEdges(g, Examine(g, NeverStop, s).trace)
      == TreeEdges(g, s.trace) + if s.vc[Target(g, Current(g, s))] == White then {Current(g, s).id} else {}
  {
    ExamineTrace(g, NeverStop, s);
    TreeEdgesConcat(g, s.trace, Calls(g, s));
    CallsTree(g, s);
  }

  lemma ExamineStarts(g: Graph, s: State)
    requires CanExamine(g, s)
    ensures Starts(Examine(g, NeverStop, s).trace) == Starts(s.trace)
  {
    var calls := Calls(g, s);
    assert Examine(g, NeverStop, s).trace == s.trace + calls by {
      ExamineTrace(g, NeverStop, s);
    }
    NoStarts(calls);
    StartsConcat(s.trace, calls);
  }

  lemma ExamineBackEdge(g: Graph, s: State)
    requires CanExamine(g, s)
    ensures BackEdgeIn(Examine(g, NeverStop, s).trace)
      <==> BackEdgeIn(s.trace) || (s.vc[Target(g, Current(g, s))] == Gray && s.ec[Current(g, s).id] == White)
  {
    var d := Current(g, s);
    ExamineTrace(g, NeverStop, s);
    BackEdgeConcat(s.trace, Calls(g, s));
    if s.vc[Target(g, d)] == Gray && s.ec[d.id] == White {
      assert Calls(g, s)[1] == BackEdge(d);
    }
  }

  lemma ExamineEdgeColors(g: Graph, s: State, e: nat)
    requires CanExamine(g, s) && e < |g.edges|
    ensures Examine(g, NeverStop, s).ec[e] == if e == Current(g, s).id then Black else s.ec[e]
  {
  }

  lemma StepKeepsTreeBlack(g: Graph, s: State)
    requires CanExamine(g, s) && TreeEdgesAreBlack(g, s)
    ensures TreeEdgesAreBlack(g, Examine(g, NeverStop, s))
  {
    ExamineTree(g, s);
    forall e | e in TreeEdges(g, Examine(g, NeverStop, s).trace) ensures Examine(g, NeverStop, s).ec[e] == Black {
      ExamineEdgeColors(g, s, e);
    }
  }

  lemma GreyTargetConnected(g: Graph, s: State)
    requires StackIsGreyPath(g, s) && CanExamine(g, s) && StackOnTree(g, s)
    requires s.vc[Target(g, Current(g, s))] == Gray
    ensures Connected(g, TreeEdges(g, s.trace), Source(g, Current(g, s)), Target(g, Current(g, s)))
    ensures Connected(g, TreeEdges(g, s.trace), Target(g, Current(g, s)), Source(g, Current(g, s)))
  {
    var d := Current(g, s);
    var u, v, tree := Source(g, d), Target(g, d), TreeEdges(g, s.trace);
    assert OnStack(s.frames, v);
    var k :| 0 <= k < |s.frames| && s.frames[k].v == v;
    assert s.frames[|s.frames| - 1].v == u;
    StackConnected(g, s, k, |s.frames| - 1);
    ConnectedSymmetric(g, tree, v, u);
  }

  /** Whatever the colour of its far end, the edge just read joins vertices of one tree. */
  lemma CurrentConnected(g: Graph, s: State)
    requires StackIsGreyPath(g, s) && CanExamine(g, s) && StackOnTree(g, s) && BlackEdgesConnected(g, s)
    requires s.vc[Target(g, Current(g, s))] == Black ==> s.ec[Current(g, s).id] == Black
    ensures var e := Current(g, s).id;
      Connected(g, TreeEdges(g, Examine(g, NeverStop, s).trace), g.edges[e].src, g.edges[e].dst)
  {
    var d := Current(g, s);
    ExamineTree(g, s);
    if s.vc[Target(g, d)] == White {
      ConnectedEdge(g, TreeEdges(g, s.trace) + {d.id}, Descriptor(d.id, false));
    } else {
      assert TreeEdges(g, s.trace) + {} == TreeEdges(g, s.trace);
      if s.vc[Target(g, d)] == Gray {
        GreyTargetConnected(g, s);
      }
    }
  }

  lemma StepKeepsBlackConnected(g: Graph, s: State)
    requires StackIsGreyPath(g, s) && CanExamine(g, s) && StackOnTree(g, s) && BlackEdgesConnected(g, s)
    requires s.vc[Target(g, Current(g, s))] == Black ==> s.ec[Current(g, s).id] == Black
    ensures BlackEdgesConnected(g, Examine(g, NeverStop, s))
  {
    var r := Examine(g, NeverStop, s);
    ExamineTree(g, s);
    CurrentConnected(g, s);
    forall e | 0 <= e < |g.edges| && r.ec[e] == Black
      ensures Connected(g, TreeEdges(g, r.trace), g.edges[e].src, g.edges[e].dst)
    {
      ExamineEdgeColors(g, s, e);
      if e != Current(g, s).id {
        ConnectedMonotone(g, TreeEdges(g, s.trace), TreeEdges(g, r.trace), g.edges[e].src, g.edges[e].dst);
      }
    }
  }

  lemma StepKeepsStackOnTree(g: Graph, s: State)
    requires StackIsGreyPath(g, s) && CanExamine(g, s) && StackOnTree(g, s)
    ensures StackIsGreyPath(g, Examine(g, NeverStop, s)) && StackOnTree(g, Examine(g, NeverStop, s))
  {
    var r := Examine(g, NeverStop, s);
    StepKeepsStack(g, NeverStop, s);
    ConsumeKeepsStack(g, s);
    ExamineTree(g, s);
    forall k | 0 <= k < |r.frames| - 1
      ensures r.frames[k].next > 0 && LastRead(g, r.frames[k]).id in TreeEdges(g, r.trace)
    {
      assert Linked(g, r, k);
      if k < |s.frames| - 1 {
        assert Linked(g, s, k);
        assert LastRead(g, s.frames[k]).id in TreeEdges(g, s.trace);
      }
    }
  }

  lemma StepKeepsAcyclic(g: Graph, s: State)
    requires StackIsGreyPath(g, s) && CanExamine(g, s) && SlotsTracked(g, s) && EdgesTracked(g, s)
    requires TreeEdgesAreBlack(g, s) && Acyclic(g, TreeEdges(g, s.trace))
    ensures Acyclic(g, TreeEdges(g, Examine(g, NeverStop, s).trace))
  {
    var d := Current(g, s);
    var t := TreeEdges(g, s.trace);
    ExamineTree(g, s);
    if s.vc[Target(g, d)] == White {
      StackTop(g, s);
      forall e | e in t ensures !Touches(g, e, Target(g, d)) {
        BlackEdgeNotWhite(g, s, e);
      }
      LeafKeepsAcyclic(g, t, d);
    } else {
      assert t + {} == t;
    }
  }

  lemma BlackEdgeNotWhite(g: Graph, s: State, e: nat)
    requires Shape(g, s) && SlotsTracked(g, s) && EdgesTracked(g, s) && e < |g.edges| && s.ec[e] == Black
    ensures s.vc[g.edges[e].src] != White && s.vc[g.edges[e].dst] != White
  {
    assert EdgeTracked(g, s, e);
    assert SlotTracked(g, s, Descriptor(e, true));
    assert SlotTracked(g, s, Descriptor(e, false));
  }

  lemma EnterDiscovers(g: Graph, term: Terminator, s: State, v: nat)
    requires Shape(g, s) && v < g.order && s.vc[v] == White
    ensures Discovered(Enter(g, term, s, v)) == Discovered(s) + {v}
    ensures |Discovered(Enter(g, term, s, v))| == |Discovered(s)| + 1
  {
    assert v !in Discovered(s);
  }

  lemma StepKeepsTreeSize(g: Graph, s: State)
    requires StackIsGreyPath(g, s) && CanExamine(g, s) && SlotsTracked(g, s) && EdgesTracked(g, s)
    requires TreeEdgesAreBlack(g, s) && TreeSize(g, s)
    ensures TreeSize(g, Examine(g, NeverStop, s))
  {
    var d := Current(g, s);
    var t := TreeEdges(g, s.trace);
    ExamineTree(g, s);
    ExamineStarts(g, s);
    if s.vc[Target(g, d)] == White {
      WhiteTargetWhiteEdge(g, s);
      assert d.id !in t;
      EnterDiscovers(g, NeverStop, Report(Consume(g, s), TreeEdge(d)), Target(g, d));
    } else {
      assert t + {} == t;
    }
  }

  lemma ExamineKeepsForest(g: Graph, s: State)
    requires StackIsGreyPath(g, s) && CanExamine(g, s) && SlotsTracked(g, s) && EdgesTracked(g, s) && Forest(g, s)
    ensures StackIsGreyPath(g, Examine(g, NeverStop, s)) && Forest(g, Examine(g, NeverStop, s))
  {
    var d := Current(g, s);
    if s.vc[Target(g, d)] == Black {
      BlackTargetBlackEdge(g, s);
    }
    StepKeepsTreeBlack(g, s);
    StepKeepsBlackConnected(g, s);
    StepKeepsStackOnTree(g, s);
    StepKeepsAcyclic(g, s);
    StepKeepsTreeSize(g, s);
    ExamineBackEdge(g, s);
    if s.vc[Target(g, d)] == Gray && s.ec[d.id] == White {
      var k :| 0 <= k < |s.frames| && s.frames[k].v == Target(g, d);
      BackEdgeClosesCycle(g, s, k);
    }
  }

  lemma QuietEvent(g: Graph, t: seq<Event>, e: Event)
    requires !e.TreeEdge? && !e.StartVertex? && !e.BackEdge?
    ensures TreeEdges(g, t + [e]) == TreeEdges(g, t) && Starts(t + [e]) == Starts(t)
    ensures BackEdgeIn(t + [e]) <==> BackEdgeIn(t)
  {
    StartsAppend(t, e);
    BackEdgeAppend(t, e);
  }

  lemma FinishKeepsForest(g: Graph, s: State)
    requires StackIsGreyPath(g, s) && CanFinish(g, s) && Forest(g, s)
    ensures StackIsGreyPath(g, Finish(g, s)) && Forest(g, Finish(g, s))
  {
    var r := Finish(g, s);
    FinishKeepsStack(g, s);
    StackTop(g, s);
    QuietEvent(g, s.trace, FinishVertex(Top(s).v));
    FinishDiscovers(g, s);
    FinishKeepsOnTree(g, s);
    SameForest(g, s, r);
  }

  lemma FinishDiscovers(g: Graph, s: State)
    requires StackIsGreyPath(g, s) && CanFinish(g, s)
    ensures Discovered(Finish(g, s)) == Discovered(s)
  {
    StackTop(g, s);
  }

  lemma FinishKeepsOnTree(g: Graph, s: State)
    requires StackIsGreyPath(g, s) && CanFinish(g, s) && StackOnTree(g, s)
    requires StackIsGreyPath(g, Finish(g, s)) && TreeEdges(g, Finish(g, s).trace) == TreeEdges(g, s.trace)
    ensures StackOnTree(g, Finish(g, s))
  {
    var r := Finish(g, s);
    forall k | 0 <= k < |r.frames| - 1
      ensures r.frames[k].next > 0 && LastRead(g, r.frames[k]).id in TreeEdges(g, r.trace)
    {
      assert Linked(g, s, k);
      assert LastRead(g, s.frames[k]).id in TreeEdges(g, s.trace);
    }
  }

  /** A forest does not depend on the stack but for the edges below it. */
  lemma SameForest(g: Graph, s: State, r: State)
    requires StackIsGreyPath(g, s) && Forest(g, s) && StackIsGreyPath(g, r) && StackOnTree(g, r)
    requires r.ec == s.ec && TreeEdges(g, r.trace) == TreeEdges(g, s.trace) && Starts(r.trace) == Starts(s.trace)
    requires (BackEdgeIn(r.trace) <==> BackEdgeIn(s.trace)) && Discovered(r) == Discovered(s)
    ensures Forest(g, r)
  {
  }

  lemma EnterKeepsConnected(g: Graph, s: State, r: State)
    requires Shape(g, s) && Shape(g, r) && s.ec == r.ec
    requires TreeEdges(g, r.trace) == TreeEdges(g, s.trace)
    ensures TreeEdgesAreBlack(g, s) ==> TreeEdgesAreBlack(g, r)
    ensures BlackEdgesConnected(g, s) ==> BlackEdgesConnected(g, r)
  {
  }

  lemma StartTrace(g: Graph, t: seq<Event>, u: nat)
    ensures TreeEdges(g, t + [StartVertex(u)] + [DiscoverVertex(u)]) == TreeEdges(g, t)
    ensures Starts(t + [StartVertex(u)] + [DiscoverVertex(u)]) == Starts(t) + 1
    ensures BackEdgeIn(t + [StartVertex(u)] + [DiscoverVertex(u)]) <==> BackEdgeIn(t)
  {
    StartsAppend(t, StartVertex(u));
    BackEdgeAppend(t, StartVertex(u));
    TreeEdgesConcat(g, t, [StartVertex(u)]);
    QuietEvent(g, t + [StartVertex(u)], DiscoverVertex(u));
  }

  /** A `start_vertex` call and the discovery after it. */
  lemma StartKeepsForest(g: Graph, s: State, u: nat)
    requires StackIsGreyPath(g, s) && s.frames == [] && Forest(g, s) && u < g.order && s.vc[u] == White
    ensures var r := Enter(g, NeverStop, Report(s, StartVertex(u)), u); StackIsGreyPath(g, r) && Forest(g, r)
  {
    var s1 := Report(s, StartVertex(u));
    var r := Enter(g, NeverStop, s1, u);
    ReportKeepsStack(g, s, StartVertex(u));
    EnterKeepsStack(g, NeverStop, s1, u);
    EnterDiscovers(g, NeverStop, s1, u);
    StartTrace(g, s.trace, u);
    EnterKeepsConnected(g, s, r);
    assert Discovered(s1) == Discovered(s);
  }
}
