/** What can be read off the visitor calls alone: when each kind of call may be made. */
module TraceRules {
  import opened Wrappers
  import opened UndirectedGraph
  import opened DepthFirst
  import opened GreyStack
  import opened EdgeEvents
  import opened Walks

  function Last(t: seq<Event>): Event
    requires t != []
  {
    t[|t| - 1]
  }

  function Init(t: seq<Event>): seq<Event>
    requires t != []
  {
    t[..|t| - 1]
  }

  predicate Examined(t: seq<Event>, e: nat) {
    ExamineEdge(Descriptor(e, true)) in t || ExamineEdge(Descriptor(e, false)) in t
  }

  /** A start vertex is not connected to anything discovered so far. An edge is examined from the
      innermost open vertex. A tree or back edge is reported at the first examination of that edge, from the innermost
      open vertex: a tree edge leads to a vertex never discovered, a back edge to an open one, that
      is an ancestor. A forward-or-cross edge leads to a finished vertex and was examined before,
      from its other end. */
  ghost predicate Allowed(g: Graph, past: seq<Event>, e: Event) {
    match e
    case StartVertex(u) =>
      Nest(past) == Some([]) && forall v :: DiscoverVertex(v) in past ==> !Connected(g, AllEdges(g), v, u)
    case ExamineEdge(d) =>
      && Valid(g, d) && Nest(past).Some? && Nest(past).value != []
      && Nest(past).value[|Nest(past).value| - 1] == Source(g, d)
    case TreeEdge(d) =>
      && Valid(g, d) && past != [] && Last(past) == ExamineEdge(d) && !Examined(Init(past), d.id)
      && Nest(past).Some? && Nest(past).value != []
      && Nest(past).value[|Nest(past).value| - 1] == Source(g, d)
      && DiscoverVertex(Target(g, d)) !in past
    case BackEdge(d) =>
      && Valid(g, d) && past != [] && Last(past) == ExamineEdge(d) && !Examined(Init(past), d.id)
      && Nest(past).Some? && Nest(past).value != []
      && Nest(past).value[|Nest(past).value| - 1] == Source(g, d)
      && Target(g, d) in Nest(past).value
    case ForwardOrCrossEdge(d) =>
      && Valid(g, d) && past != [] && Last(past) == ExamineEdge(d)
      && ExamineEdge(Flip(d)) in Init(past) && FinishVertex(Target(g, d)) in past
    case _ => true
  }

  ghost predicate Lawful(g: Graph, t: seq<Event>) {
    forall i :: 0 <= i < |t| ==> Allowed(g, t[..i], t[i])
  }

  lemma LawfulAppend(g: Graph, t: seq<Event>, e: Event)
    requires Lawful(g, t) && Allowed(g, t, e)
    ensures Lawful(g, t + [e])
  {
    forall i | 0 <= i < |t + [e]| ensures Allowed(g, (t + [e])[..i], (t + [e])[i]) {
      if i < |t| {
        assert (t + [e])[..i] == t[..i];
      } else {
        assert (t + [e])[..i] == t;
      }
    }
  }

  ghost predicate VertexTracked(s: State, v: nat)
    requires v < |s.vc|
  {
    && multiset(s.trace)[DiscoverVertex(v)] == (if s.vc[v] == White then 0 else 1)
    && multiset(s.trace)[FinishVertex(v)] == if s.vc[v] == Black then 1 else 0
  }

  ghost predicate VerticesTracked(s: State) {
    forall v :: 0 <= v < |s.vc| ==> VertexTracked(s, v)
  }

  lemma CallsVertices(g: Graph, s: State, v: nat)
    requires CanExamine(g, s)
    ensures multiset(Calls(g, s))[FinishVertex(v)] == 0
    ensures multiset(Calls(g, s))[DiscoverVertex(v)]
      == if s.vc[Target(g, Current(g, s))] == White && v == Target(g, Current(g, s)) then 1 else 0
  {
  }

  lemma ExamineKeepsVertices(g: Graph, term: Terminator, s: State)
    requires CanExamine(g, s) && VerticesTracked(s)
    ensures VerticesTracked(Examine(g, term, s))
  {
    forall v | 0 <= v < |s.vc| ensures VertexTracked(Examine(g, term, s), v) {
      assert VertexTracked(s, v);
      ExamineTrace(g, term, s);
      CallsVertices(g, s, v);
    }
  }

  lemma FinishKeepsVertices(g: Graph, s: State)
    requires StackIsGreyPath(g, s) && CanFinish(g, s) && VerticesTracked(s)
    ensures VerticesTracked(Finish(g, s))
  {
    StackTop(g, s);
    forall v | 0 <= v < |s.vc| ensures VertexTracked(Finish(g, s), v) {
      assert VertexTracked(s, v);
    }
  }

  lemma EnterKeepsVertices(g: Graph, term: Terminator, s: State, u: nat)
    requires Shape(g, s) && u < g.order && s.vc[u] == White && VerticesTracked(s)
    ensures VerticesTracked(Enter(g, term, s, u))
  {
    forall v | 0 <= v < |s.vc| ensures VertexTracked(Enter(g, term, s, u), v) {
      assert VertexTracked(s, v);
    }
  }

  // ----- each examined edge -----

  lemma UnreadNotExamined(g: Graph, s: State, e: nat)
    requires Shape(g, s) && SlotsTracked(g, s) && EdgesTracked(g, s) && e < |g.edges| && s.ec[e] == White
    ensures !Examined(s.trace, e)
  {
    assert EdgeTracked(g, s, e);
    assert SlotTracked(g, s, Descriptor(e, true));
    assert SlotTracked(g, s, Descriptor(e, false));
  }

  lemma ConsumedIsInnermost(g: Graph, s: State)
    requires StackIsGreyPath(g, s) && CanExamine(g, s) && Nested(s)
    ensures Allowed(g, s.trace, ExamineEdge(Current(g, s)))
    ensures var past := Consume(g, s).trace;
      && past != [] && Init(past) == s.trace && Last(past) == ExamineEdge(Current(g, s))
      && Nest(past) == Some(StackOf(s.frames))
      && StackOf(s.frames) != []
      && StackOf(s.frames)[|s.frames| - 1] == Source(g, Current(g, s))
  {
    NestQuiet(s.trace, ExamineEdge(Current(g, s)));
  }

  lemma ReportAllowed(g: Graph, s: State, e: Event)
    requires StackIsGreyPath(g, s) && CanExamine(g, s) && Nested(s)
    requires SlotsTracked(g, s) && EdgesTracked(g, s) && VerticesTracked(s)
    requires var d := Current(g, s);
      match s.vc[Target(g, d)]
      case White => e == TreeEdge(d)
      case Gray => e == BackEdge(d) && s.ec[d.id] == White
      case Black => e == ForwardOrCrossEdge(d)
    ensures Allowed(g, Consume(g, s).trace, e)
  {
    var d := Current(g, s);
    ConsumedIsInnermost(g, s);
    assert VertexTracked(s, Target(g, d));
    match s.vc[Target(g, d)]
    case White =>
      WhiteTargetWhiteEdge(g, s);
      UnreadNotExamined(g, s, d.id);
    case Gray =>
      UnreadNotExamined(g, s, d.id);
      assert OnStack(s.frames, Target(g, d));
      var k :| 0 <= k < |s.frames| && s.frames[k].v == Target(g, d);
      assert StackOf(s.frames)[k] == Target(g, d);
    case Black =>
      BlackTargetBlackEdge(g, s);
  }

  lemma ExamineKeepsLawful(g: Graph, s: State)
    requires StackIsGreyPath(g, s) && CanExamine(g, s) && Nested(s) && Lawful(g, s.trace)
    requires SlotsTracked(g, s) && EdgesTracked(g, s) && VerticesTracked(s)
    ensures Lawful(g, Examine(g, NeverStop, s).trace)
  {
    var d := Current(g, s);
    assert EdgeTracked(g, s, d.id);
    var past := Consume(g, s).trace;
    ConsumedIsInnermost(g, s);
    LawfulAppend(g, s.trace, ExamineEdge(d));
    match s.vc[Target(g, d)]
    case White =>
      ReportAllowed(g, s, TreeEdge(d));
      LawfulAppend(g, past, TreeEdge(d));
      LawfulAppend(g, past + [TreeEdge(d)], DiscoverVertex(Target(g, d)));
    case Gray =>
      if s.ec[d.id] == White {
        ReportAllowed(g, s, BackEdge(d));
        LawfulAppend(g, past, BackEdge(d));
      }
    case Black =>
      ReportAllowed(g, s, ForwardOrCrossEdge(d));
      LawfulAppend(g, past, ForwardOrCrossEdge(d));
  }
}
