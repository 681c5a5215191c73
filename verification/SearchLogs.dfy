/** The log of a visit and of `undirected_dfs`, for every graph, colouring, terminator and start. */
module SearchLogs {
  import opened Wrappers
  import opened UndirectedGraph
  import opened DepthFirst
  import opened GreyStack
  import opened TraceRules
  import opened TraversalTheorems
  import opened CallLog

  // ----- a visit -----

  /** The search does not read its own log. */
  lemma StepShift(g: Graph, term: Terminator, s: State, p: seq<Event>)
    requires Shape(g, s) && s.frames != []
    ensures Step(g, term, s.(trace := p + s.trace)) == Step(g, term, s).(trace := p + Step(g, term, s).trace)
  {
    if Top(s).next < |OutEdges(g, Top(s).v)| {
      ExamineShift(g, term, s, p);
    } else {
      assert p + s.trace + [FinishVertex(Top(s).v)] == p + (s.trace + [FinishVertex(Top(s).v)]);
    }
  }

  lemma ExamineShift(g: Graph, term: Terminator, s: State, p: seq<Event>)
    requires CanExamine(g, s)
    ensures Examine(g, term, s.(trace := p + s.trace)) == Examine(g, term, s).(trace := p + Examine(g, term, s).trace)
  {
    var d := Current(g, s);
    var v := Target(g, d);
    var t := s.trace + [ExamineEdge(d)];
    assert p + s.trace + [ExamineEdge(d)] == p + t;
    assert p + t + [TreeEdge(d)] == p + (t + [TreeEdge(d)]);
    assert p + (t + [TreeEdge(d)]) + [DiscoverVertex(v)] == p + (t + [TreeEdge(d)] + [DiscoverVertex(v)]);
    assert p + t + [BackEdge(d)] == p + (t + [BackEdge(d)]);
    assert p + t + [ForwardOrCrossEdge(d)] == p + (t + [ForwardOrCrossEdge(d)]);
  }

  lemma {:induction false} RunShift(g: Graph, term: Terminator, s: State, p: seq<Event>)
    requires Shape(g, s)
    ensures Run(g, term, s.(trace := p + s.trace)) == Run(g, term, s).(trace := p + Run(g, term, s).trace)
    decreases WhiteVertices(s.vc), Pending(g, s.frames)
  {
    if s.frames != [] {
      StepDecreases(g, term, s);
      StepShift(g, term, s, p);
      RunShift(g, term, Step(g, term, s), p);
    }
  }

  function VisitSearch(g: Graph, term: Terminator, vc: seq<Color>, ec: seq<Color>, u: nat): Search {
    Search(g, term, vc, ec, OneVisit(u))
  }

  /** The calls of a visit. */
  function VisitCalls(g: Graph, term: Terminator, s: State, u: nat): seq<Event>
    requires Shape(g, s) && u < g.order
  {
    Visit(g, term, s.(trace := []), u).trace
  }

  lemma VisitAppends(g: Graph, term: Terminator, s: State, u: nat)
    requires Shape(g, s) && u < g.order
    ensures Visit(g, term, s, u) ==
      Visit(g, term, s.(trace := []), u).(trace := s.trace + VisitCalls(g, term, s, u))
  {
    var e := Enter(g, term, s.(frames := [], trace := []), u);
    assert s.(trace := []).(frames := []) == s.(frames := [], trace := []);
    assert [] + [DiscoverVertex(u)] == [DiscoverVertex(u)];
    assert e.(trace := s.trace + e.trace) == Enter(g, term, s.(frames := []), u);
    RunShift(g, term, e, s.trace);
  }

  lemma EntryTold(g: Graph, term: Terminator, s: State, u: nat)
    requires Shape(g, s) && u < g.order && s.frames == [] && s.trace == []
    ensures Told(VisitSearch(g, term, s.vc, s.ec, u), Enter(g, term, s, u))
  {
    var x, r := VisitSearch(g, term, s.vc, s.ec, u), Enter(g, term, s, u);
    assert r.trace == [DiscoverVertex(u)];
    assert StackOf([]) == [];
    EnterKeepsNesting(g, term, s, u);
    assert NextCall(x, []) == Some(DiscoverVertex(u));
    FollowsAppend(x, [], DiscoverVertex(u));
    assert [] + [DiscoverVertex(u)] == r.trace;
    EnterFrames(x, s, u);
    assert ColorsTold(x, r) by {
      forall v | 0 <= v < g.order ensures r.vc[v] == ColorIn(x.vc, r.trace, v) {
      }
    }
  }

  /** The calls of every visit, whatever the terminator and the colours on entry, are the complete log
      of this visit, and the colours on exit are those that the log tells. */
  lemma VisitLog(g: Graph, term: Terminator, s: State, u: nat)
    requires Shape(g, s) && u < g.order
    ensures var calls, r := VisitCalls(g, term, s, u), Visit(g, term, s, u);
      && r.trace == s.trace + calls
      && Complete(VisitSearch(g, term, s.vc, s.ec, u), calls)
      && (forall v :: 0 <= v < g.order ==> r.vc[v] == ColorIn(s.vc, calls, v))
      && (forall e :: 0 <= e < |g.edges| ==> r.ec[e] == EdgeColorIn(s.ec, calls, e))
  {
    var x, s0 := VisitSearch(g, term, s.vc, s.ec, u), s.(trace := [], frames := []);
    VisitAppends(g, term, s, u);
    assert s.(trace := []).(frames := []) == s0;
    EntryTold(g, term, s0, u);
    RunKeepsTold(x, Enter(g, term, s0, u));
    RunGrows(g, term, Enter(g, term, s0, u));
    VisitEnds(x, Run(g, term, Enter(g, term, s0, u)));
  }

  lemma {:induction false} RunGrows(g: Graph, term: Terminator, s: State)
    requires Shape(g, s)
    ensures s.trace <= Run(g, term, s).trace
    decreases WhiteVertices(s.vc), Pending(g, s.frames)
  {
    if s.frames != [] {
      StepDecreases(g, term, s);
      RunGrows(g, term, Step(g, term, s));
    }
  }

  lemma VisitEnds(x: Search, r: State)
    requires Told(x, r) && r.frames == [] && r.trace != [] && x.extent.OneVisit?
    ensures Complete(x, r.trace)
  {
    InnermostIsTop(x, r);
  }

  // ----- the traversal -----

  function TraversalSearch(g: Graph, start: nat): Search {
    Search(g, NeverStop, seq(g.order, _ => White), seq(|g.edges|, _ => White), Everything(start))
  }

  ghost predicate Traverses(x: Search) {
    WellFormed(x.g) && x.extent.Everything? && x == TraversalSearch(x.g, x.extent.start)
  }

  lemma {:induction false} InitialFollows(x: Search, n: nat)
    requires x.Fits() && x.extent.Everything? && n <= x.g.order
    ensures Waiting(x, InitialEvents(n))
  {
    if n > 0 {
      InitialFollows(x, n - 1);
      InitializeFollows(x, InitialEvents(n - 1), n - 1);
      assert InitialEvents(n) == InitialEvents(n - 1) + [InitializeVertex(n - 1)];
    }
  }

  /** The log has followed the rules, no vertex is open and no call is owed. */
  ghost predicate Waiting(x: Search, t: seq<Event>) {
    x.Fits() && Follows(x, t) && Owed(x, t) == None && Nest(t) == Some([])
  }

  lemma InitializeFollows(x: Search, t: seq<Event>, n: nat)
    requires Waiting(x, t) && x.extent.Everything? && |t| == n < x.g.order
    ensures Waiting(x, t + [InitializeVertex(n)])
  {
    FollowsAppend(x, t, InitializeVertex(n));
    InitLast(t, InitializeVertex(n));
    NestQuiet(t, InitializeVertex(n));
  }

  lemma {:induction false} InitialReadsNothing(g: Graph, n: nat, v: nat)
    requires WellFormed(g)
    ensures ExaminedFrom(g, InitialEvents(n), v) == 0
  {
    if n > 0 {
      InitialReadsNothing(g, n - 1, v);
      ExaminedFromAppend(g, InitialEvents(n - 1), InitializeVertex(n - 1), v);
    }
  }

  lemma OnlyInitialized(n: nat, e: Event)
    requires !e.InitializeVertex?
    ensures e !in InitialEvents(n)
  {
  }

  lemma InitialTold(g: Graph, start: nat)
    requires WellFormed(g)
    ensures Told(TraversalSearch(g, start), Initial(g))
  {
    var x, s := TraversalSearch(g, start), Initial(g);
    InitialFollows(x, g.order);
    assert StackOf([]) == [];
    forall v: nat ensures DiscoverVertex(v) !in s.trace && FinishVertex(v) !in s.trace {
      OnlyInitialized(g.order, DiscoverVertex(v));
      OnlyInitialized(g.order, FinishVertex(v));
    }
    forall v: nat ensures DiscoveredFirst(g, s.trace, v) {
      OnlyInitialized(g.order, FinishVertex(v));
      InitialReadsNothing(g, g.order, v);
    }
    forall e | 0 <= e < |g.edges| ensures !Examined(s.trace, e) {
      OnlyInitialized(g.order, ExamineEdge(Descriptor(e, true)));
      OnlyInitialized(g.order, ExamineEdge(Descriptor(e, false)));
    }
  }

  lemma UndiscoveredIsWhite(x: Search, s: State, v: nat)
    requires Told(x, s) && v < x.g.order && x.vc[v] == White
    ensures s.vc[v] == White <==> DiscoverVertex(v) !in s.trace
    ensures s.vc[v] == White ==> FinishVertex(v) !in s.trace
  {
    assert s.vc[v] == ColorIn(x.vc, s.trace, v);
    assert DiscoveredFirst(x.g, s.trace, v);
  }

  lemma StartKeepsTold(x: Search, s: State, u: nat)
    requires Told(x, s) && s.frames == [] && x.term == NeverStop && u < x.g.order
    requires s.vc[u] == White && x.vc[u] == White && Outside(x, s.trace) == Some(StartVertex(u))
    ensures Told(x, StartAt(x.g, s, u)) && |StartAt(x.g, s, u).trace| > |s.trace|
  {
    var r := Report(s, StartVertex(u));
    assert r.(frames := []) == r;
    InnermostIsTop(x, s);
    UndiscoveredIsWhite(x, s, u);
    ReportKeeps(x, s, StartVertex(u));
    InitLast(s.trace, StartVertex(u));
    EnterKeeps(x, r, u);
    RunKeepsTold(x, Enter(x.g, x.term, r, u));
    RunGrows(x.g, x.term, Enter(x.g, x.term, r, u));
  }

  /** The sweep has come to vertex `u`: whatever it has left behind has been discovered. */
  ghost predicate CameTo(x: Search, s: State, u: nat) {
    && Told(x, s) && s.frames == [] && Traverses(x) && u <= x.g.order
    && (forall v :: 0 <= v < u ==> s.vc[v] != White)
    && (|s.trace| > x.g.order || (|s.trace| == x.g.order && u == x.extent.start < x.g.order && s.vc[u] == White))
  }

  /** One turn of the loop over the vertices. */
  function Turn(g: Graph, s: State, u: nat): (r: State)
    requires Shape(g, s) && s.frames == [] && u < g.order
    ensures Shape(g, r) && r.frames == []
  {
    if s.vc[u] == White then StartAt(g, s, u) else s
  }

  lemma TurnComesOn(x: Search, s: State, u: nat)
    requires CameTo(x, s, u) && u < x.g.order
    ensures CameTo(x, Turn(x.g, s, u), u + 1)
  {
    if s.vc[u] == White {
      SweepStarts(x, s, u);
    }
  }

  /** What every turn takes one vertex further, the sweep takes to the end. */
  lemma {:induction false} TurnByTurn(g: Graph, s: State, u: nat, P: (State, nat) -> bool)
    requires Shape(g, s) && s.frames == [] && u <= g.order && P(s, u)
    requires forall t: State, v: nat {:trigger Turn(g, t, v)} ::
      Shape(g, t) && t.frames == [] && v < g.order && P(t, v) ==> P(Turn(g, t, v), v + 1)
    ensures P(Sweep(g, s, u), g.order)
    decreases g.order - u
  {
    if u < g.order {
      TurnByTurn(g, Turn(g, s, u), u + 1, P);
    }
  }

  lemma SweepIsTold(x: Search, s: State, u: nat)
    requires CameTo(x, s, u)
    ensures CameTo(x, Sweep(x.g, s, u), x.g.order)
  {
    forall t: State, v: nat | Shape(x.g, t) && t.frames == [] && v < x.g.order && CameTo(x, t, v)
      ensures CameTo(x, Turn(x.g, t, v), v + 1)
    {
      TurnComesOn(x, t, v);
    }
    TurnByTurn(x.g, s, u, (t: State, v: nat) => CameTo(x, t, v));
  }

  lemma SweepStarts(x: Search, s: State, u: nat)
    requires Told(x, s) && s.frames == [] && Traverses(x) && u < x.g.order && s.vc[u] == White
    requires forall v :: 0 <= v < u ==> s.vc[v] != White
    requires |s.trace| > x.g.order || (|s.trace| == x.g.order && x.extent.start == u)
    ensures var r := StartAt(x.g, s, u);
      Told(x, r) && |r.trace| > |s.trace| && forall v :: 0 <= v < u + 1 ==> r.vc[v] != White
  {
    NextStart(x, s, u);
    StartKeepsTold(x, s, u);
    forall v | 0 <= v < u + 1 ensures StartAt(x.g, s, u).vc[v] != White {
      StartKeepsDiscovered(x.g, s, u, v);
    }
  }

  lemma NextStart(x: Search, s: State, u: nat)
    requires Told(x, s) && Traverses(x) && u < x.g.order && s.vc[u] == White
    requires forall v :: 0 <= v < u ==> s.vc[v] != White
    requires |s.trace| > x.g.order || (|s.trace| == x.g.order && x.extent.start == u)
    ensures Outside(x, s.trace) == Some(StartVertex(u))
  {
    forall v | 0 <= v <= u ensures DiscoverVertex(v) in s.trace <==> v < u {
      UndiscoveredIsWhite(x, s, v);
    }
    MissingIs(s.trace, u, x.g.order);
  }

  lemma MissingIs(t: seq<Event>, u: nat, order: nat)
    requires u < order && forall v: nat :: v <= u ==> (DiscoverVertex(v) in t <==> v < u)
    ensures FirstMissing(t, 0, order) == Some(u)
  {
    var v := FirstMissing(t, 0, order);
    assert DiscoverVertex(u) !in t;
  }

  lemma AllDiscovered(x: Search, s: State)
    requires CameTo(x, s, x.g.order)
    ensures Complete(x, s.trace)
  {
    InnermostIsTop(x, s);
    forall v | 0 <= v < x.g.order ensures DiscoverVertex(v) in s.trace {
      UndiscoveredIsWhite(x, s, v);
    }
  }

  /** The calls of every traversal are its complete log. */
  lemma TraversalLog(g: Graph, start: nat)
    requires WellFormed(g) && start < g.order
    ensures Complete(TraversalSearch(g, start), Traverse(g, start).trace)
  {
    var x, s := TraversalSearch(g, start), Initial(g);
    InitialTold(g, start);
    if start != 0 {
      StartKeepsTold(x, s, start);
      s := StartAt(g, s, start);
    }
    SweepIsTold(x, s, 0);
    AllDiscovered(x, Sweep(g, s, 0));
  }

  /** The traversal initializes the vertices in order, then starts from the vertex it was given. */
  lemma BeginsAtStart(g: Graph, start: nat, t: seq<Event>)
    requires WellFormed(g) && start < g.order && Complete(TraversalSearch(g, start), t)
    ensures |t| > g.order && t[..g.order] == InitialEvents(g.order) && t[g.order] == StartVertex(start)
  {
    var x := TraversalSearch(g, start);
    InitialFollows(x, g.order);
    FollowsAppend(x, InitialEvents(g.order), StartVertex(start));
    NotLonger(x, t, InitialEvents(g.order) + [StartVertex(start)]);
    SameSoFar(x, t, InitialEvents(g.order) + [StartVertex(start)], g.order + 1);
    assert t[..g.order + 1][..g.order] == t[..g.order];
    assert (InitialEvents(g.order) + [StartVertex(start)])[..g.order + 1]
      == InitialEvents(g.order) + [StartVertex(start)];
    assert t[..g.order + 1][g.order] == t[g.order];
  }

  /** A later start is from the first vertex that has not been discovered. */
  lemma LaterStart(g: Graph, start: nat, t: seq<Event>, i: nat)
    requires WellFormed(g) && start < g.order && Complete(TraversalSearch(g, start), t)
    requires g.order < i < |t| && t[i].StartVertex?
    ensures t[i].v < g.order && DiscoverVertex(t[i].v) !in t[..i]
    ensures forall w: nat :: w < t[i].v ==> DiscoverVertex(w) in t[..i]
    ensures i + 1 < |t| && t[i + 1] == DiscoverVertex(t[i].v)
  {
    var x := TraversalSearch(g, start);
    assert NextCall(x, t[..i]) == Some(t[i]);
    assert |t[..i]| == i;
    var v := FirstMissing(t[..i], 0, g.order);
    OwedBehind(x, t, i);
  }

  /** An owed call stands behind. */
  lemma OwedBehind(x: Search, t: seq<Event>, i: nat)
    requires x.Fits() && Complete(x, t) && i < |t|
    ensures Owed(x, t[..i + 1]).Some? ==> i + 1 < |t| && Some(t[i + 1]) == Owed(x, t[..i + 1])
    ensures t[..i + 1] == t[..i] + [t[i]] && Init(t[..i + 1]) == t[..i] && Last(t[..i + 1]) == t[i]
  {
    OneCallMore(t, i + 1);
    if i + 1 == |t| {
      WholeLog(t);
    } else {
      assert NextCall(x, t[..i + 1]) == Some(t[i + 1]);
    }
  }

  /** Behind the first start, the starts go up in vertex number. */
  lemma StartsGoUp(g: Graph, start: nat, t: seq<Event>, i: nat, j: nat)
    requires WellFormed(g) && start < g.order && Complete(TraversalSearch(g, start), t)
    requires g.order < i < j < |t| && t[i].StartVertex? && t[j].StartVertex?
    ensures t[i].v < t[j].v
  {
    LaterStart(g, start, t, i);
    LaterStart(g, start, t, j);
    assert t[i + 1] != t[j];
    assert t[..j][i + 1] == t[i + 1];
    forall w: nat | w < t[i].v ensures DiscoverVertex(w) in t[..j] {
      var k :| 0 <= k < i && t[..i][k] == DiscoverVertex(w);
      assert t[..j][k] == DiscoverVertex(w);
    }
  }

  // ----- what an examined edge is reported as -----

  /** The call behind call `i`. */
  function Behind(t: seq<Event>, i: nat): Option<Event>
    requires i < |t|
  {
    if i + 1 < |t| then Some(t[i + 1]) else None
  }

  /** In the complete log of any visit or traversal, what an edge is reported as when it is examined
      can be read off the calls before: a forward or cross edge if and only if its target has been
      finished, or was black on entry and not discovered again; a back edge if and only if its target
      is open, or was grey on entry, and the edge was neither examined before nor coloured on entry;
      a tree edge if and only if its target has not been discovered and was white on entry. Otherwise
      there is no report. */
  lemma EdgeReports(x: Search, t: seq<Event>, i: nat, d: Descriptor)
    requires x.Fits() && Complete(x, t) && i < |t| && t[i] == ExamineEdge(d)
    ensures Valid(x.g, d) && Target(x.g, d) < x.g.order
    ensures var v, past, next := Target(x.g, d), t[..i], Behind(t, i);
      var discovered, finished := DiscoverVertex(v) in past, FinishVertex(v) in past;
      && (next == Some(ForwardOrCrossEdge(d)) <==> finished || (!discovered && x.vc[v] == Black))
      && (next == Some(BackEdge(d)) <==>
            !finished && (discovered || x.vc[v] == Gray) && !Examined(past, d.id) && x.ec[d.id] == White)
      && (next == Some(TreeEdge(d)) <==> !finished && !discovered && x.vc[v] == White)
      && next.Some?
      && (next == Some(ForwardOrCrossEdge(d)) || next == Some(BackEdge(d)) || next == Some(TreeEdge(d))
          || next.value.ExamineEdge? || next.value.FinishVertex?)
  {
    ExaminedIsValid(x, t, i, d);
    BehindIsNext(x, t, i);
    BehindExamined(x, t[..i], d);
  }

  lemma BehindIsNext(x: Search, t: seq<Event>, i: nat)
    requires x.Fits() && Complete(x, t) && i < |t|
    ensures Behind(t, i) == NextCall(x, t[..i] + [t[i]])
  {
    OneCallMore(t, i + 1);
    WholeLog(t);
    assert i + 1 < |t| ==> NextCall(x, t[..i + 1]) == Some(t[i + 1]);
  }

  lemma ExaminedIsValid(x: Search, t: seq<Event>, i: nat, d: Descriptor)
    requires x.Fits() && Complete(x, t) && i < |t| && t[i] == ExamineEdge(d)
    ensures Valid(x.g, d) && Target(x.g, d) < x.g.order && Innermost(t[..i]) == Some(Source(x.g, d))
  {
    assert NextCall(x, t[..i]) == Some(ExamineEdge(d));
    var v := Innermost(t[..i]).value;
    IncidentSource(x.g, v, ExaminedFrom(x.g, t[..i], v));
  }

  /** The call behind an examined edge: its report, or what the open vertex does next. */
  lemma BehindExamined(x: Search, past: seq<Event>, d: Descriptor)
    requires x.Fits() && Valid(x.g, d) && Source(x.g, d) < x.g.order && Innermost(past) == Some(Source(x.g, d))
    ensures var next := NextCall(x, past + [ExamineEdge(d)]);
      if Reported(x, past, d).Some? then next == Reported(x, past, d)
      else next.Some? && (next.value.ExamineEdge? || next.value.FinishVertex?)
  {
    InitLast(past, ExamineEdge(d));
    NestQuiet(past, ExamineEdge(d));
  }
}
