/** utilmm/undirected_dfs.hh as it runs: colour maps written in place, an explicit stack of edge
    ranges, two nested loops. */
module UndirectedDfs {
  import opened UndirectedGraph
  import opened DepthFirst
  import opened EdgeEvents
  import opened SpanningForest
  import opened CallLog
  import opened SearchLogs
  import opened TraversalTheorems
  import opened VisitReach
  import opened Walks

  /** A vertex with its range of edges still to read. */
  datatype VertexInfo = VertexInfo(u: nat, ei: nat, eiEnd: nat)

  function FramesOf(stack: seq<VertexInfo>): seq<Frame> {
    seq(|stack|, k requires 0 <= k < |stack| => Frame(stack[k].u, stack[k].ei))
  }

  lemma FramesOfPush(stack: seq<VertexInfo>, top: VertexInfo)
    ensures FramesOf(stack + [top]) == FramesOf(stack) + [Frame(top.u, top.ei)]
  {
  }

  ghost predicate GoodStack(g: Graph, stack: seq<VertexInfo>) {
    && WellFormed(g)
    && forall k :: 0 <= k < |stack| ==>
      stack[k].u < g.order && stack[k].ei <= stack[k].eiEnd == |OutEdges(g, stack[k].u)|
  }

  lemma GoodPush(g: Graph, stack: seq<VertexInfo>, top: VertexInfo)
    ensures GoodStack(g, stack + [top]) <==>
      GoodStack(g, stack) && top.u < g.order && top.ei <= top.eiEnd == |OutEdges(g, top.u)|
  {
    assert (stack + [top])[|stack|] == top;
    if GoodStack(g, stack + [top]) {
      forall k | 0 <= k < |stack|
        ensures stack[k].u < g.order && stack[k].ei <= stack[k].eiEnd == |OutEdges(g, stack[k].u)|
      {
        assert (stack + [top])[k] == stack[k];
      }
    }
  }

  /** `r` comes before `s` in the order that makes the traversal end. */
  ghost predicate Smaller(g: Graph, r: State, s: State)
    requires Shape(g, r) && Shape(g, s)
  {
    || WhiteVertices(r.vc) < WhiteVertices(s.vc)
    || (WhiteVertices(r.vc) <= WhiteVertices(s.vc) && Pending(g, r.frames) < Pending(g, s.frames))
  }

  /** `r` is on the run of `s`. */
  ghost predicate OnRun(g: Graph, term: Terminator, r: State, s: State) {
    && Shape(g, r) && Shape(g, s)
    && Run(g, term, r) == Run(g, term, s)
    && (r == s || Smaller(g, r, s))
  }

  lemma StepOnRun(g: Graph, term: Terminator, r: State, s: State)
    requires OnRun(g, term, r, s) && r.frames != []
    ensures OnRun(g, term, Step(g, term, r), s) && Smaller(g, Step(g, term, r), s) && Smaller(g, Step(g, term, r), r)
  {
    StepDecreases(g, term, r);
  }

  ghost function At(vc: seq<Color>, ec: seq<Color>, stack: seq<VertexInfo>, trace: seq<Event>): State {
    State(vc, ec, FramesOf(stack), trace)
  }

  lemma AtTop(g: Graph, vc: seq<Color>, ec: seq<Color>, stack: seq<VertexInfo>, top: VertexInfo, trace: seq<Event>)
    requires Good(g, vc, ec, stack + [top])
    ensures Shape(g, At(vc, ec, stack + [top], trace)) && At(vc, ec, stack + [top], trace).frames != []
  {
  }

  ghost predicate Good(g: Graph, vc: seq<Color>, ec: seq<Color>, stack: seq<VertexInfo>) {
    GoodStack(g, stack) && |vc| == g.order && |ec| == |g.edges|
  }

  /** The discovery of the start vertex. */
  lemma FirstFrame(g: Graph, term: Terminator, s: State, start: nat)
    requires Shape(g, s) && s.frames == [] && start < g.order
    ensures var stack := [VertexInfo(start, if term(start) then |OutEdges(g, start)| else 0, |OutEdges(g, start)|)];
      && Good(g, s.vc[start := Gray], s.ec, stack)
      && At(s.vc[start := Gray], s.ec, stack, s.trace + [DiscoverVertex(start)]) == Enter(g, term, s, start)
  {
  }

  /** The exit of the inner loop. */
  lemma FinishStep(g: Graph, term: Terminator, vc: seq<Color>, ec: seq<Color>,
                   stack: seq<VertexInfo>, top: VertexInfo, trace: seq<Event>)
    requires Good(g, vc, ec, stack + [top]) && top.ei == top.eiEnd
    ensures top.u < |vc| && Shape(g, At(vc, ec, stack + [top], trace))
    ensures Step(g, term, At(vc, ec, stack + [top], trace))
         == At(vc[top.u := Black], ec, stack, trace + [FinishVertex(top.u)])
  {
    GoodPush(g, stack, top);
    AtTop(g, vc, ec, stack, top, trace);
    FramesOfPush(stack, top);
  }

  /** The edge that is read next. */
  lemma NextEdge(g: Graph, vc: seq<Color>, ec: seq<Color>, stack: seq<VertexInfo>, top: VertexInfo, trace: seq<Event>)
    returns (d: Descriptor)
    requires Good(g, vc, ec, stack + [top]) && top.ei != top.eiEnd
    ensures GoodStack(g, stack) && top.u < g.order && top.ei < top.eiEnd == |OutEdges(g, top.u)|
    ensures d == OutEdges(g, top.u)[top.ei] && Valid(g, d) && d.id < |ec| && Target(g, d) < g.order == |vc|
    ensures var s := At(vc, ec, stack + [top], trace);
            CanExamine(g, s) && Current(g, s) == d && Top(s) == Frame(top.u, top.ei) && Rest(s) == FramesOf(stack)
  {
    AtTop(g, vc, ec, stack, top, trace);
    GoodPush(g, stack, top);
    FramesOfPush(stack, top);
    IncidentSource(g, top.u, top.ei);
    d := OutEdges(g, top.u)[top.ei];
  }

  /** The step from an edge to a vertex that is not white. */
  lemma StayStep(g: Graph, term: Terminator, vc: seq<Color>, ec: seq<Color>,
                 stack: seq<VertexInfo>, top: VertexInfo, trace: seq<Event>, d: Descriptor, report: seq<Event>)
    requires Good(g, vc, ec, stack + [top]) && top.ei != top.eiEnd
    requires CanExamine(g, At(vc, ec, stack + [top], trace)) && d == Current(g, At(vc, ec, stack + [top], trace))
    requires vc[Target(g, d)] != White
    requires report == if vc[Target(g, d)] == Black then [ForwardOrCrossEdge(d)]
                       else if Get(ec, d) == White then [BackEdge(d)] else []
    ensures var top' := VertexInfo(top.u, top.ei + 1, top.eiEnd);
      && Good(g, vc, Put(ec, d, Black), stack + [top'])
      && Step(g, term, At(vc, ec, stack + [top], trace))
         == At(vc, Put(ec, d, Black), stack + [top'], trace + [DepthFirst.ExamineEdge(d)] + report)
  {
    var top' := VertexInfo(top.u, top.ei + 1, top.eiEnd);
    var e := NextEdge(g, vc, ec, stack, top, trace);
    GoodPush(g, stack, top');
    FramesOfPush(stack, top');
    assert report == [] ==> trace + [DepthFirst.ExamineEdge(d)] + report == trace + [DepthFirst.ExamineEdge(d)];
  }

  /** The step from an edge to a white vertex. */
  lemma DescendStep(g: Graph, term: Terminator, vc: seq<Color>, ec: seq<Color>,
                    stack: seq<VertexInfo>, top: VertexInfo, trace: seq<Event>, d: Descriptor)
    requires Good(g, vc, ec, stack + [top]) && top.ei != top.eiEnd
    requires CanExamine(g, At(vc, ec, stack + [top], trace)) && d == Current(g, At(vc, ec, stack + [top], trace))
    requires Target(g, d) < |vc| && vc[Target(g, d)] == White
    ensures var v := Target(g, d);
      var below := stack + [VertexInfo(top.u, top.ei + 1, top.eiEnd)];
      var n := |OutEdges(g, v)|;
      var top' := VertexInfo(v, if term(v) then n else 0, n);
      && Good(g, vc[v := Gray], Put(ec, d, Black), below + [top'])
      && Step(g, term, At(vc, ec, stack + [top], trace))
         == At(vc[v := Gray], Put(ec, d, Black), below + [top'],
               trace + [DepthFirst.ExamineEdge(d)] + [TreeEdge(d)] + [DiscoverVertex(v)])
  {
    var v, next := Target(g, d), VertexInfo(top.u, top.ei + 1, top.eiEnd);
    var n := |OutEdges(g, v)|;
    var top' := VertexInfo(v, if term(v) then n else 0, n);
    var e := NextEdge(g, vc, ec, stack, top, trace);
    GoodPush(g, stack, next);
    FramesOfPush(stack, next);
    GoodPush(g, stack + [next], top');
    FramesOfPush(stack + [next], top');
  }

  class Search {
    const g: Graph
    var vertexColor: seq<Color>
    var edgeColor: seq<Color>
    /** The visitor, reduced to the log of its calls. */
    var trace: seq<Event>

    ghost predicate Valid()
      reads this
    {
      WellFormed(g) && |vertexColor| == g.order && |edgeColor| == |g.edges|
    }

    ghost function Snapshot(frames: seq<Frame>): State
      reads this
    {
      State(vertexColor, edgeColor, frames, trace)
    }

    constructor (g: Graph, vertexColor: seq<Color>, edgeColor: seq<Color>)
      requires WellFormed(g) && |vertexColor| == g.order && |edgeColor| == |g.edges|
      ensures Valid() && this.g == g && Snapshot([]) == State(vertexColor, edgeColor, [], [])
    {
      this.g := g;
      this.vertexColor := vertexColor;
      this.edgeColor := edgeColor;
      this.trace := [];
    }

    /** The body of the inner loop: read the current edge of `top`. */
    method ExamineEdge(stack: seq<VertexInfo>, top: VertexInfo, term: Terminator)
      returns (stack': seq<VertexInfo>, top': VertexInfo)
      requires Good(g, vertexColor, edgeColor, stack + [top]) && top.ei != top.eiEnd
      modifies this
      ensures Good(g, vertexColor, edgeColor, stack' + [top'])
      ensures Shape(g, old(At(vertexColor, edgeColor, stack + [top], trace)))
      ensures At(vertexColor, edgeColor, stack' + [top'], trace)
        == Step(g, term, old(At(vertexColor, edgeColor, stack + [top], trace)))
    {
      var u, ei, eiEnd := top.u, top.ei, top.eiEnd;
      ghost var vc, ec, before := vertexColor, edgeColor, trace;
      ghost var next := NextEdge(g, vc, ec, stack, top, before);
      var d := OutEdges(g, u)[ei];
      var v := Target(g, d);
      trace := trace + [DepthFirst.ExamineEdge(d)];
      var vColor := vertexColor[v];
      var uvColor := Get(edgeColor, d);
      edgeColor := Put(edgeColor, d, Black);
      stack' := stack;
      if vColor == White {
        DescendStep(g, term, vc, ec, stack, top, before, d);
        trace := trace + [TreeEdge(d)];
        stack' := stack + [VertexInfo(u, ei + 1, eiEnd)];
        u := v;
        vertexColor := vertexColor[u := Gray];
        trace := trace + [DiscoverVertex(u)];
        ei, eiEnd := 0, |OutEdges(g, u)|;
        if term(u) {
          ei := eiEnd;
        }
      } else if vColor == Gray {
        StayStep(g, term, vc, ec, stack, top, before, d, if uvColor == White then [BackEdge(d)] else []);
        if uvColor == White {
          trace := trace + [BackEdge(d)];
        }
        ei := ei + 1;
      } else {
        StayStep(g, term, vc, ec, stack, top, before, d, [ForwardOrCrossEdge(d)]);
        trace := trace + [ForwardOrCrossEdge(d)];
        ei := ei + 1;
      }
      top' := VertexInfo(u, ei, eiEnd);
    }

    /** The inner loop: follow edges until the vertex on top has none left. */
    method ReadEdges(stack: seq<VertexInfo>, top: VertexInfo, term: Terminator)
      returns (stack': seq<VertexInfo>, top': VertexInfo)
      requires Good(g, vertexColor, edgeColor, stack + [top])
      modifies this
      ensures Good(g, vertexColor, edgeColor, stack' + [top']) && top'.ei == top'.eiEnd
      ensures OnRun(g, term, At(vertexColor, edgeColor, stack' + [top'], trace),
                    old(At(vertexColor, edgeColor, stack + [top], trace)))
    {
      stack', top' := stack, top;
      ghost var s := At(vertexColor, edgeColor, stack + [top], trace);
      AtTop(g, vertexColor, edgeColor, stack, top, trace);
      while top'.ei != top'.eiEnd
        invariant Good(g, vertexColor, edgeColor, stack' + [top'])
        invariant OnRun(g, term, At(vertexColor, edgeColor, stack' + [top'], trace), s)
        decreases WhiteVertices(vertexColor), Pending(g, FramesOf(stack' + [top']))
      {
        AtTop(g, vertexColor, edgeColor, stack', top', trace);
        StepOnRun(g, term, At(vertexColor, edgeColor, stack' + [top'], trace), s);
        stack', top' := ExamineEdge(stack', top', term);
      }
    }

    /** The colouring and call that close a vertex. */
    method CloseVertex(ghost stack: seq<VertexInfo>, top: VertexInfo, ghost term: Terminator, ghost s: State)
      requires Good(g, vertexColor, edgeColor, stack + [top]) && top.ei == top.eiEnd
      requires OnRun(g, term, At(vertexColor, edgeColor, stack + [top], trace), s)
      modifies this
      ensures Good(g, vertexColor, edgeColor, stack)
      ensures vertexColor == old(vertexColor)[top.u := Black] && edgeColor == old(edgeColor)
      ensures trace == old(trace) + [FinishVertex(top.u)]
      ensures OnRun(g, term, At(vertexColor, edgeColor, stack, trace), s)
      ensures Smaller(g, At(vertexColor, edgeColor, stack, trace), s)
    {
      GoodPush(g, stack, top);
      AtTop(g, vertexColor, edgeColor, stack, top, trace);
      FinishStep(g, term, vertexColor, edgeColor, stack, top, trace);
      StepOnRun(g, term, At(vertexColor, edgeColor, stack + [top], trace), s);
      vertexColor := vertexColor[top.u := Black];
      trace := trace + [FinishVertex(top.u)];
    }

    /** The body of the outer loop: take the top of the stack, follow its edges, close it. */
    method ServeTop(stack: seq<VertexInfo>, term: Terminator) returns (rest: seq<VertexInfo>)
      requires Good(g, vertexColor, edgeColor, stack) && stack != []
      modifies this
      ensures Good(g, vertexColor, edgeColor, rest)
      ensures Shape(g, old(At(vertexColor, edgeColor, stack, trace)))
      ensures OnRun(g, term, At(vertexColor, edgeColor, rest, trace), old(At(vertexColor, edgeColor, stack, trace)))
      ensures Smaller(g, At(vertexColor, edgeColor, rest, trace), old(At(vertexColor, edgeColor, stack, trace)))
    {
      ghost var s := At(vertexColor, edgeColor, stack, trace);
      var back := stack[|stack| - 1];
      assert stack == stack[..|stack| - 1] + [back];
      rest := stack[..|stack| - 1];
      rest, back := ReadEdges(rest, back, term);
      CloseVertex(rest, back, term, s);
    }

    /** The outer loop. */
    method EmptyStack(stack: seq<VertexInfo>, term: Terminator)
      requires Good(g, vertexColor, edgeColor, stack)
      modifies this
      ensures Valid()
      ensures Shape(g, old(At(vertexColor, edgeColor, stack, trace)))
      ensures Snapshot([]) == Run(g, term, old(At(vertexColor, edgeColor, stack, trace)))
    {
      ghost var s := At(vertexColor, edgeColor, stack, trace);
      var stack := stack;
      while stack != []
        invariant Good(g, vertexColor, edgeColor, stack)
        invariant Run(g, term, At(vertexColor, edgeColor, stack, trace)) == Run(g, term, s)
        decreases WhiteVertices(vertexColor), Pending(g, FramesOf(stack))
      {
        stack := ServeTop(stack, term);
      }
      assert FramesOf(stack) == [];
    }

    /** `undir_dfv_impl_term`. */
    method VisitImpl(start: nat, term: Terminator)
      requires Valid() && start < g.order
      modifies this
      ensures Valid()
      ensures Snapshot([]) == Visit(g, term, old(Snapshot([])), start)
    {
      FirstFrame(g, term, Snapshot([]), start);
      vertexColor := vertexColor[start := Gray];
      trace := trace + [DiscoverVertex(start)];
      var ei, eiEnd := 0, |OutEdges(g, start)|;
      var stack;
      if term(start) {
        stack := [VertexInfo(start, eiEnd, eiEnd)];
      } else {
        stack := [VertexInfo(start, ei, eiEnd)];
      }
      EmptyStack(stack, term);
    }

    /** Behind the old log stand the calls of the complete log of a visit, and the colours are those
        that it tells. */
    ghost predicate IsVisit(term: Terminator, u: nat, vc: seq<Color>, ec: seq<Color>, before: seq<Event>, r: State) {
      && WellFormed(g) && |r.vc| == |vc| == g.order && |r.ec| == |ec| == |g.edges| && before <= r.trace
      && var calls := r.trace[|before|..];
        && Complete(VisitSearch(g, term, vc, ec, u), calls)
        && (forall v :: 0 <= v < g.order ==> r.vc[v] == ColorIn(vc, calls, v))
        && (forall e :: 0 <= e < |g.edges| ==> r.ec[e] == EdgeColorIn(ec, calls, e))
    }

    lemma VisitIsVisit(term: Terminator, s: State, u: nat)
      requires Shape(g, s) && u < g.order
      ensures IsVisit(term, u, s.vc, s.ec, s.trace, Visit(g, term, s, u))
    {
      VisitLog(g, term, s, u);
      var r := Visit(g, term, s, u);
      assert r.trace[|s.trace|..] == VisitCalls(g, term, s, u);
    }

    /** `undirected_depth_first_visit`. */
    method DepthFirstVisit(start: nat, term: Terminator)
      requires Valid() && start < g.order
      modifies this
      ensures Valid()
      ensures Snapshot([]) == Visit(g, term, old(Snapshot([])), start)
      ensures IsVisit(term, start, old(vertexColor), old(edgeColor), old(trace), Snapshot([]))
      ensures (forall v :: 0 <= v < g.order ==> old(vertexColor)[v] != Gray) ==>
        forall v :: 0 <= v < g.order ==>
          (vertexColor[v] == Black <==> old(vertexColor)[v] == Black || Reaches(g, term, old(vertexColor), start, v))
    {
      ghost var entry := Snapshot([]);
      VisitImpl(start, term);
      VisitIsVisit(term, entry, start);
      if forall v :: 0 <= v < g.order ==> entry.vc[v] != Gray {
        forall v | 0 <= v < g.order
          ensures vertexColor[v] == Black <==> entry.vc[v] == Black || Reaches(g, term, entry.vc, start, v)
        {
          VisitBlackensReachable(g, term, entry, start, v);
        }
      }
    }

    /** The two loops that clear the colour maps. */
    method Initialize()
      requires Valid() && trace == []
      modifies this
      ensures Valid() && Snapshot([]) == Initial(g)
    {
      var ui := 0;
      while ui < g.order
        invariant 0 <= ui <= g.order && |vertexColor| == g.order && |edgeColor| == |g.edges|
        invariant forall v :: 0 <= v < ui ==> vertexColor[v] == White
        invariant trace == InitialEvents(ui)
      {
        vertexColor := vertexColor[ui := White];
        trace := trace + [InitializeVertex(ui)];
        ui := ui + 1;
      }
      var e := 0;
      while e < |g.edges|
        invariant 0 <= e <= |g.edges| == |edgeColor|
        invariant forall k :: 0 <= k < e ==> edgeColor[k] == White
        invariant |vertexColor| == g.order && trace == InitialEvents(g.order)
        invariant forall v :: 0 <= v < g.order ==> vertexColor[v] == White
      {
        edgeColor := Put(edgeColor, Descriptor(e, false), White);
        e := e + 1;
      }
    }

    /** A `start_vertex` call and the visit after it. */
    method VisitFrom(u: nat)
      requires Valid() && u < g.order
      modifies this
      ensures Valid() && Snapshot([]) == StartAt(g, old(Snapshot([])), u)
    {
      trace := trace + [StartVertex(u)];
      VisitImpl(u, NeverStop);
    }

    /** The loop over the vertices: a visit from each one that is still white. */
    method StartEach()
      requires Valid()
      modifies this
      ensures Valid() && Snapshot([]) == Sweep(g, old(Snapshot([])), 0)
    {
      ghost var s := Snapshot([]);
      var ui: nat := 0;
      ghost var all := Sweep(g, s, ui);
      while ui < g.order
        invariant 0 <= ui <= g.order && Valid()
        invariant Sweep(g, Snapshot([]), ui) == all
      {
        if vertexColor[ui] == White {
          VisitFrom(ui);
        }
        ui := ui + 1;
      }
    }

    /** `undirected_dfs`. The first vertex is 0, so the graph must have one; the log covers this
        traversal only. */
    method UndirectedDfs(start: nat)
      requires Valid() && start < g.order
      modifies this
      ensures Valid() && Snapshot([]) == Traverse(g, start)
      ensures forall v :: 0 <= v < g.order ==> vertexColor[v] == Black
      ensures forall e :: 0 <= e < |g.edges| ==> Reports(trace, e) == 1
      ensures Acyclic(g, TreeEdges(g, trace)) && |TreeEdges(g, trace)| + Starts(trace) == g.order
      ensures Complete(TraversalSearch(g, start), trace)
      ensures |trace| > g.order && trace[..g.order] == InitialEvents(g.order) && trace[g.order] == StartVertex(start)
    {
      trace := [];
      Initialize();
      if start != 0 {
        VisitFrom(start);
      }
      StartEach();
      TraversalResults(start, Snapshot([]));
    }

    lemma TraversalResults(start: nat, r: State)
      requires WellFormed(g) && start < g.order && r == Traverse(g, start)
      ensures |r.vc| == g.order && forall v :: 0 <= v < g.order ==> r.vc[v] == Black
      ensures forall e :: 0 <= e < |g.edges| ==> Reports(r.trace, e) == 1
      ensures Acyclic(g, TreeEdges(g, r.trace)) && |TreeEdges(g, r.trace)| + Starts(r.trace) == g.order
      ensures Complete(TraversalSearch(g, start), r.trace)
      ensures |r.trace| > g.order
      ensures r.trace[..g.order] == InitialEvents(g.order) && r.trace[g.order] == StartVertex(start)
    {
      TraversalLog(g, start);
      BeginsAtStart(g, start, r.trace);
      TraverseEnds(g, start);
      TreeEdgesSpan(g, start, 0, 0);
      forall e | 0 <= e < |g.edges| ensures Reports(r.trace, e) == 1 {
        EveryEdgeClassifiedOnce(g, start, e);
      }
    }
  }
}
