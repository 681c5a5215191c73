/** The theorems of the full traversal `undirected_dfs`, for every graph and start vertex. */
module TraversalTheorems {
  import opened Sequences
  import opened Wrappers
  import opened UndirectedGraph
  import opened Walks
  import opened DepthFirst
  import opened GreyStack
  import opened EdgeEvents
  import opened SpanningForest
  import opened TraceRules

  /** What every step of a traversal keeps. */
  ghost predicate Inv(g: Graph, s: State) {
    && StackIsGreyPath(g, s)
    && Nested(s)
    && SlotsTracked(g, s)
    && EdgesTracked(g, s)
    && VerticesTracked(s)
    && Forest(g, s)
    && Lawful(g, s.trace)
  }

  lemma ExamineKeepsInv(g: Graph, s: State)
    requires Inv(g, s) && CanExamine(g, s)
    ensures Inv(g, Examine(g, NeverStop, s))
  {
    StepKeepsStack(g, NeverStop, s);
    StepKeepsNesting(g, NeverStop, s);
    StepKeepsTracking(g, s);
    ExamineKeepsVertices(g, NeverStop, s);
    ExamineKeepsForest(g, s);
    ExamineKeepsLawful(g, s);
  }

  lemma FinishKeepsInv(g: Graph, s: State)
    requires Inv(g, s) && CanFinish(g, s)
    ensures Inv(g, Finish(g, s))
  {
    StepKeepsStack(g, NeverStop, s);
    StepKeepsNesting(g, NeverStop, s);
    StepKeepsTracking(g, s);
    FinishKeepsVertices(g, s);
    FinishKeepsForest(g, s);
    LawfulAppend(g, s.trace, FinishVertex(Top(s).v));
  }

  lemma StepKeepsInv(g: Graph, s: State)
    requires Inv(g, s) && s.frames != []
    ensures Inv(g, Step(g, NeverStop, s))
  {
    if Top(s).next < |OutEdges(g, Top(s).v)| {
      ExamineKeepsInv(g, s);
    } else {
      FinishKeepsInv(g, s);
    }
  }

  lemma {:induction false} RunKeepsInv(g: Graph, s: State)
    requires Inv(g, s)
    ensures Inv(g, Run(g, NeverStop, s))
    decreases WhiteVertices(s.vc), Pending(g, s.frames)
  {
    if s.frames != [] {
      StepKeepsInv(g, s);
      StepDecreases(g, NeverStop, s);
      RunKeepsInv(g, Step(g, NeverStop, s));
    }
  }

  /** Discovered vertices stay discovered. */
  lemma {:induction false} RunKeepsDiscovered(g: Graph, term: Terminator, s: State, v: nat)
    requires Shape(g, s) && v < g.order && s.vc[v] != White
    ensures Run(g, term, s).vc[v] != White
    decreases WhiteVertices(s.vc), Pending(g, s.frames)
  {
    if s.frames != [] {
      StepDecreases(g, term, s);
      RunKeepsDiscovered(g, term, Step(g, term, s), v);
    }
  }

  // ----- between visits -----

  lemma QuiescentBlack(g: Graph, s: State, v: nat)
    requires StackIsGreyPath(g, s) && s.frames == [] && v < g.order
    ensures s.vc[v] != Gray
  {
    assert !OnStack(s.frames, v);
  }

  /** Between visits, what has been discovered is closed under walks. */
  lemma {:induction false} DiscoveredClosed(g: Graph, s: State, a: nat, b: nat, w: seq<Descriptor>)
    requires Inv(g, s) && s.frames == [] && a < g.order && s.vc[a] != White
    requires Walk(g, AllEdges(g), a, b, w)
    ensures b < g.order && s.vc[b] != White
    decreases |w|
  {
    if w != [] {
      QuiescentBlack(g, s, a);
      SlotExists(g, w[0]);
      assert Read(g, s, w[0]);
      assert SlotTracked(g, s, w[0]);
      DiscoveredClosed(g, s, Target(g, w[0]), b, w[1..]);
    }
  }

  lemma DiscoverEventsValid(g: Graph, s: State, v: nat)
    requires Inv(g, s)
    ensures v < g.order ==> (DiscoverVertex(v) in s.trace <==> s.vc[v] != White)
  {
    if v < g.order {
      assert VertexTracked(s, v);
    }
  }

  lemma StartAllowed(g: Graph, s: State, u: nat)
    requires Inv(g, s) && s.frames == [] && u < g.order && s.vc[u] == White
    ensures Allowed(g, s.trace, StartVertex(u))
  {
    forall v | DiscoverVertex(v) in s.trace ensures !Connected(g, AllEdges(g), v, u) {
      if w :| Walk(g, AllEdges(g), v, u, w) {
        WalkStartsInside(g, v, u, w);
        DiscoverEventsValid(g, s, v);
        DiscoveredClosed(g, s, v, u, w);
      }
    }
  }

  lemma WalkStartsInside(g: Graph, a: nat, b: nat, w: seq<Descriptor>)
    requires WellFormed(g) && b < g.order && Walk(g, AllEdges(g), a, b, w)
    ensures a < g.order
  {
    if w != [] {
      SlotExists(g, w[0]);
    }
  }

  lemma StartKeepsInv(g: Graph, s: State, u: nat)
    requires Inv(g, s) && s.frames == [] && u < g.order && s.vc[u] == White
    ensures Inv(g, StartAt(g, s, u))
  {
    var s1 := Report(s, StartVertex(u));
    var r := Enter(g, NeverStop, s1, u);
    assert s1.(frames := []) == s1;
    StartAllowed(g, s, u);
    LawfulAppend(g, s.trace, StartVertex(u));
    LawfulAppend(g, s1.trace, DiscoverVertex(u));
    ReportKeepsTracking(g, s, StartVertex(u));
    EnterKeepsTracking(g, s1, u);
    NestQuiet(s.trace, StartVertex(u));
    EnterKeepsNesting(g, NeverStop, s1, u);
    StartKeepsForest(g, s, u);
    RunKeepsInv(g, r);
  }

  lemma ReportKeepsTracking(g: Graph, s: State, e: Event)
    requires Inv(g, s) && e.StartVertex?
    ensures var r := Report(s, e);
      StackIsGreyPath(g, r) && SlotsTracked(g, r) && EdgesTracked(g, r) && VerticesTracked(r)
  {
    var r := Report(s, e);
    ReportKeepsStack(g, s, e);
    forall d | Valid(g, d) ensures SlotTracked(g, r, d) {
      assert SlotTracked(g, s, d);
      ReportReads(g, s, e, d);
    }
    forall x | 0 <= x < |g.edges| ensures EdgeTracked(g, r, x) {
      assert EdgeTracked(g, s, x);
      ReportReads(g, s, e, Descriptor(x, true));
      ReportReads(g, s, e, Descriptor(x, false));
      ReportsAppend(s.trace, [e], x);
    }
    forall v | 0 <= v < |s.vc| ensures VertexTracked(r, v) {
      assert VertexTracked(s, v);
    }
  }

  lemma EnterKeepsTracking(g: Graph, s: State, u: nat)
    requires StackIsGreyPath(g, s) && s.frames == [] && u < g.order && s.vc[u] == White
    requires SlotsTracked(g, s) && EdgesTracked(g, s) && VerticesTracked(s)
    ensures var r := Enter(g, NeverStop, s, u);
      StackIsGreyPath(g, r) && SlotsTracked(g, r) && EdgesTracked(g, r) && VerticesTracked(r)
  {
    EnterKeepsStack(g, NeverStop, s, u);
    EnterKeepsSlots(g, s, u);
    EnterKeepsEdges(g, s, u);
    EnterKeepsVertices(g, NeverStop, s, u);
  }

  lemma {:induction false} InitialEventsQuiet(g: Graph, n: nat)
    ensures Nest(InitialEvents(n)) == Some([]) && Lawful(g, InitialEvents(n))
    ensures TreeEdges(g, InitialEvents(n)) == {} && Starts(InitialEvents(n)) == 0 && !BackEdgeIn(InitialEvents(n))
  {
    if n > 0 {
      InitialEventsQuiet(g, n - 1);
      NestQuiet(InitialEvents(n - 1), InitializeVertex(n - 1));
      LawfulAppend(g, InitialEvents(n - 1), InitializeVertex(n - 1));
      QuietEvent(g, InitialEvents(n - 1), InitializeVertex(n - 1));
    }
  }

  lemma InitialTracking(g: Graph)
    requires WellFormed(g)
    ensures var s := Initial(g); SlotsTracked(g, s) && EdgesTracked(g, s) && VerticesTracked(s)
  {
    var s := Initial(g);
    forall e: Event | !e.InitializeVertex? ensures multiset(s.trace)[e] == 0 {
      assert e !in s.trace;
    }
    forall d | Valid(g, d) ensures !Read(g, s, d) && SlotTracked(g, s, d) {
      SlotExists(g, d);
    }
    forall e | 0 <= e < |g.edges| ensures EdgeTracked(g, s, e) {
      assert !Read(g, s, Descriptor(e, true)) && !Read(g, s, Descriptor(e, false));
    }
    forall v | 0 <= v < |s.vc| ensures VertexTracked(s, v) {
    }
  }

  lemma EmptyForest(g: Graph, s: State)
    requires StackIsGreyPath(g, s) && s.frames == [] && Discovered(s) == {}
    requires TreeEdges(g, s.trace) == {} && Starts(s.trace) == 0 && !BackEdgeIn(s.trace)
    requires forall e :: 0 <= e < |g.edges| ==> s.ec[e] == White
    ensures Forest(g, s)
  {
    NoEdgesAcyclic(g);
  }

  lemma InitialStack(g: Graph)
    requires WellFormed(g)
    ensures StackIsGreyPath(g, Initial(g)) && Discovered(Initial(g)) == {}
  {
  }

  lemma InitialInv(g: Graph)
    requires WellFormed(g)
    ensures Inv(g, Initial(g))
  {
    var s := Initial(g);
    InitialEventsQuiet(g, g.order);
    InitialTracking(g);
    InitialStack(g);
    assert StackOf([]) == [];
    EmptyForest(g, s);
  }

  lemma StartKeepsDiscovered(g: Graph, s: State, u: nat, v: nat)
    requires Shape(g, s) && s.frames == [] && u < g.order && v < g.order && (s.vc[v] != White || v == u)
    ensures StartAt(g, s, u).vc[v] != White
  {
    RunKeepsDiscovered(g, NeverStop, Enter(g, NeverStop, Report(s, StartVertex(u)).(frames := []), u), v);
  }

  /** What every start from a white vertex keeps, the sweep keeps. */
  lemma {:induction false} SweepInduction(g: Graph, s: State, u: nat, P: State -> bool)
    requires Shape(g, s) && s.frames == [] && u <= g.order && P(s)
    requires forall t: State, v: nat {:trigger StartAt(g, t, v)} ::
      Shape(g, t) && t.frames == [] && v < g.order && t.vc[v] == White && P(t) ==> P(StartAt(g, t, v))
    ensures P(Sweep(g, s, u))
    decreases g.order - u
  {
    if u < g.order {
      SweepInduction(g, if s.vc[u] == White then StartAt(g, s, u) else s, u + 1, P);
    }
  }

  lemma SweepKeepsInv(g: Graph, s: State, u: nat)
    requires Inv(g, s) && s.frames == [] && u <= g.order
    ensures Inv(g, Sweep(g, s, u))
  {
    forall t: State, v: nat | Shape(g, t) && t.frames == [] && v < g.order && t.vc[v] == White && Inv(g, t)
      ensures Inv(g, StartAt(g, t, v))
    {
      StartKeepsInv(g, t, v);
    }
    SweepInduction(g, s, u, t => Inv(g, t));
  }

  lemma {:induction false} SweepDiscovers(g: Graph, s: State, u: nat, v: nat)
    requires Shape(g, s) && s.frames == [] && u <= g.order && v < g.order && (s.vc[v] != White || u <= v)
    ensures Sweep(g, s, u).vc[v] != White
    decreases g.order - u
  {
    if u < g.order {
      if s.vc[u] == White {
        if s.vc[v] != White || v == u {
          StartKeepsDiscovered(g, s, u, v);
        }
        SweepDiscovers(g, StartAt(g, s, u), u + 1, v);
      } else {
        SweepDiscovers(g, s, u + 1, v);
      }
    }
  }

  lemma TraverseKeepsInv(g: Graph, start: nat)
    requires WellFormed(g) && start < g.order
    ensures Inv(g, Traverse(g, start))
  {
    InitialInv(g);
    var s := Initial(g);
    if start != 0 {
      StartKeepsInv(g, s, start);
      s := StartAt(g, s, start);
    }
    SweepKeepsInv(g, s, 0);
  }

  lemma BlackVerticesReadAll(g: Graph, s: State, d: Descriptor)
    requires Inv(g, s) && Valid(g, d) && s.vc[Source(g, d)] == Black
    ensures Read(g, s, d) && s.ec[d.id] == Black
  {
    SlotExists(g, d);
    assert EdgeTracked(g, s, d.id);
    assert d == Descriptor(d.id, d.reversed);
  }

  lemma TraverseBlackens(g: Graph, start: nat, v: nat)
    requires WellFormed(g) && start < g.order && v < g.order
    ensures v < |Traverse(g, start).vc| && Traverse(g, start).vc[v] == Black
  {
    TraverseKeepsInv(g, start);
    QuiescentBlack(g, Traverse(g, start), v);
    SweepDiscovers(g, if start != 0 then StartAt(g, Initial(g), start) else Initial(g), 0, v);
  }

  /** Every run of `undirected_dfs` ends with the invariant, all vertices and all edges black. */
  lemma TraverseEnds(g: Graph, start: nat)
    requires WellFormed(g) && start < g.order
    ensures Inv(g, Traverse(g, start))
    ensures forall v :: 0 <= v < g.order ==> Traverse(g, start).vc[v] == Black
    ensures forall e :: 0 <= e < |g.edges| ==> Traverse(g, start).ec[e] == Black
  {
    TraverseKeepsInv(g, start);
    var s := Traverse(g, start);
    forall v | 0 <= v < g.order ensures s.vc[v] == Black {
      TraverseBlackens(g, start, v);
    }
    forall e | 0 <= e < |g.edges| ensures s.ec[e] == Black {
      BlackVerticesReadAll(g, s, Descriptor(e, true));
    }
  }

  // ----- the theorems -----

  /** Every edge is reported exactly once as a tree edge or a back edge, loops and parallel edges
      included, and each of its two ends is examined exactly once. */
  lemma EveryEdgeClassifiedOnce(g: Graph, start: nat, e: nat)
    requires WellFormed(g) && start < g.order && e < |g.edges|
    ensures var t := Traverse(g, start).trace;
      && Reports(t, e) == 1
      && multiset(t)[ExamineEdge(Descriptor(e, true))] == 1
      && multiset(t)[ExamineEdge(Descriptor(e, false))] == 1
  {
    TraverseEnds(g, start);
    var s := Traverse(g, start);
    assert EdgeTracked(g, s, e);
    BlackVerticesReadAll(g, s, Descriptor(e, true));
    BlackVerticesReadAll(g, s, Descriptor(e, false));
    assert SlotTracked(g, s, Descriptor(e, true));
    assert SlotTracked(g, s, Descriptor(e, false));
  }

  /** The examined edges, in order. */
  function Examinations(t: seq<Event>): seq<Descriptor> {
    if t == [] then []
    else Examinations(t[..|t| - 1]) + if t[|t| - 1].ExamineEdge? then [t[|t| - 1].d] else []
  }

  lemma {:induction false} ExaminationsCount(t: seq<Event>, d: Descriptor)
    ensures multiset(Examinations(t))[d] == multiset(t)[ExamineEdge(d)]
  {
    if t != [] {
      ExaminationsCount(t[..|t| - 1], d);
      assert t == t[..|t| - 1] + [t[|t| - 1]];
    }
  }

  lemma {:induction false} CountsMakeNoDup(s: seq<Descriptor>)
    requires forall d :: d in s ==> multiset(s)[d] <= 1
    ensures NoDup(s)
  {
    if s != [] {
      var init := s[..|s| - 1];
      assert s == init + [s[|s| - 1]];
      forall d | d in init ensures multiset(init)[d] <= 1 {
        assert d in s;
      }
      CountsMakeNoDup(init);
      assert s[|s| - 1] !in multiset(init) by {
        assert multiset(s)[s[|s| - 1]] <= 1;
      }
    }
  }

  lemma AllExaminedOnce(g: Graph, t: seq<Event>)
    requires forall d :: multiset(t)[ExamineEdge(d)] == if Valid(g, d) then 1 else 0
    ensures |Examinations(t)| == 2 * |g.edges|
  {
    var x := Examinations(t);
    forall d ensures multiset(x)[d] == if Valid(g, d) then 1 else 0 {
      ExaminationsCount(t, d);
    }
    CountsMakeNoDup(x);
    NoDupCardinality(x);
    DescriptorCount(|g.edges|);
    forall d ensures d in x <==> d in Descriptors(g) {
      assert d in x <==> multiset(x)[d] > 0;
      assert d == Descriptor(d.id, d.reversed);
    }
    assert (set d | d in x) == Descriptors(g);
  }

  lemma OnlyEdgesExamined(g: Graph, t: seq<Event>, d: Descriptor)
    requires Lawful(g, t) && ExamineEdge(d) in t
    ensures Valid(g, d)
  {
    var i :| 0 <= i < |t| && t[i] == ExamineEdge(d);
    assert Allowed(g, t[..i], t[i]);
  }

  /** `examine_edge` is called exactly twice the number of edges. */
  lemma ExaminesTwicePerEdge(g: Graph, start: nat)
    requires WellFormed(g) && start < g.order
    ensures |Examinations(Traverse(g, start).trace)| == 2 * |g.edges|
  {
    var t := Traverse(g, start).trace;
    assert Lawful(g, t) by {
      TraverseKeepsInv(g, start);
    }
    forall d ensures multiset(t)[ExamineEdge(d)] == if Valid(g, d) then 1 else 0 {
      if Valid(g, d) {
        EveryEdgeClassifiedOnce(g, start, d.id);
        assert d == Descriptor(d.id, d.reversed);
      } else if ExamineEdge(d) in t {
        OnlyEdgesExamined(g, t, d);
      }
    }
    AllExaminedOnce(g, t);
  }

  /** The tree edges are a spanning forest. */
  lemma TreeEdgesSpan(g: Graph, start: nat, a: nat, b: nat)
    requires WellFormed(g) && start < g.order
    ensures var t := Traverse(g, start).trace;
      && Acyclic(g, TreeEdges(g, t))
      && (Connected(g, TreeEdges(g, t), a, b) <==> Connected(g, AllEdges(g), a, b))
      && |TreeEdges(g, t)| + Starts(t) == g.order
  {
    TraverseEnds(g, start);
    var s := Traverse(g, start);
    var t := TreeEdges(g, s.trace);
    assert Discovered(s) == Below(g.order);
    if Connected(g, t, a, b) {
      ConnectedMonotone(g, t, AllEdges(g), a, b);
    }
    if Connected(g, AllEdges(g), a, b) {
      ConnectedCovered(g, AllEdges(g), t, a, b);
    }
  }

  lemma ReportedSomehow(t: seq<Event>, e: nat)
    requires Reports(t, e) == 1
    ensures IsTreeEdge(t, e) || BackEdgeIn(t)
  {
    if multiset(t)[BackEdge(Descriptor(e, true))] > 0 {
      assert BackEdge(Descriptor(e, true)) in t;
    } else if multiset(t)[BackEdge(Descriptor(e, false))] > 0 {
      assert BackEdge(Descriptor(e, false)) in t;
    }
  }

  /** There are no back edges exactly when the undirected graph has no cycle. */
  lemma NoBackEdgesIffAcyclic(g: Graph, start: nat)
    requires WellFormed(g) && start < g.order
    ensures !BackEdgeIn(Traverse(g, start).trace) <==> Acyclic(g, AllEdges(g))
  {
    TraverseKeepsInv(g, start);
    var t := Traverse(g, start).trace;
    if !BackEdgeIn(t) {
      forall e | e in AllEdges(g) ensures e in TreeEdges(g, t) {
        EveryEdgeClassifiedOnce(g, start, e);
        ReportedSomehow(t, e);
      }
      assert TreeEdges(g, t) == AllEdges(g);
    }
  }

  /** Each vertex is discovered and finished exactly once, and the calls nest. */
  lemma VerticesOnce(g: Graph, start: nat, v: nat)
    requires WellFormed(g) && start < g.order && v < g.order
    ensures var t := Traverse(g, start).trace;
      && Nest(t) == Some([])
      && multiset(t)[DiscoverVertex(v)] == 1
      && multiset(t)[FinishVertex(v)] == 1
  {
    var s := Traverse(g, start);
    assert Nested(s) && VertexTracked(s, v) && s.vc[v] == Black by {
      TraverseEnds(g, start);
    }
    assert StackOf([]) == [];
  }

  /** Every call is made only when its rule allows it; there are no genuine cross edges. */
  lemma CallsAreLawful(g: Graph, start: nat, i: nat)
    requires WellFormed(g) && start < g.order && i < |Traverse(g, start).trace|
    ensures Allowed(g, Traverse(g, start).trace[..i], Traverse(g, start).trace[i])
  {
    TraverseKeepsInv(g, start);
  }
}
