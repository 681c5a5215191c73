/** The visitor calls of utilmm/undirected_dfs.hh, one determined by those before it: a description of
    the log without stack, colour maps or machine. */
module CallLog {
  import opened Wrappers
  import opened UndirectedGraph
  import opened DepthFirst
  import opened GreyStack
  import opened TraceRules

  /** One visit, or a traversal of the whole graph. */
  datatype Extent = OneVisit(u: nat) | Everything(start: nat)

  /** A search, with the colours that it finds on entry. */
  datatype Search = Search(g: Graph, term: Terminator, vc: seq<Color>, ec: seq<Color>, extent: Extent)
  {
    ghost predicate Fits() {
      WellFormed(g) && |vc| == g.order && |ec| == |g.edges|
    }
  }

  /** The colour of a vertex, as the calls since entry tell it. */
  function ColorIn(vc: seq<Color>, t: seq<Event>, v: nat): Color
    requires v < |vc|
  {
    if FinishVertex(v) in t then Black else if DiscoverVertex(v) in t then Gray else vc[v]
  }

  function EdgeColorIn(ec: seq<Color>, t: seq<Event>, e: nat): Color
    requires e < |ec|
  {
    if Examined(t, e) then Black else ec[e]
  }

  /** How often an edge has been examined from `v`. */
  function ExaminedFrom(g: Graph, t: seq<Event>, v: nat): nat
    requires WellFormed(g)
  {
    if t == [] then 0 else ExaminedFrom(g, Init(t), v) + if LeavesFrom(g, Last(t), v) then 1 else 0
  }

  predicate LeavesFrom(g: Graph, e: Event, v: nat)
    requires WellFormed(g)
  {
    e.ExamineEdge? && Valid(g, e.d) && Source(g, e.d) == v
  }

  /** The call that must stand right behind the last one, if there is one. */
  function Owed(x: Search, t: seq<Event>): Option<Event>
    requires x.Fits()
  {
    if t == [] then None
    else
      match Last(t)
      case ExamineEdge(d) => if Valid(x.g, d) then Reported(x, Init(t), d) else None
      case TreeEdge(d) => if Valid(x.g, d) then Some(DiscoverVertex(Target(x.g, d))) else None
      case StartVertex(v) => Some(DiscoverVertex(v))
      case _ => None
  }

  /** What an edge is reported as when it is examined: a tree edge to an undiscovered vertex, a back
      edge to an open one if the edge has no colour yet, a forward or cross edge to a finished one. */
  function Reported(x: Search, past: seq<Event>, d: Descriptor): Option<Event>
    requires x.Fits() && Valid(x.g, d)
  {
    SlotExists(x.g, d);
    match ColorIn(x.vc, past, Target(x.g, d))
    case White => Some(TreeEdge(d))
    case Gray => if EdgeColorIn(x.ec, past, d.id) == White then Some(BackEdge(d)) else None
    case Black => Some(ForwardOrCrossEdge(d))
  }

  /** The innermost open vertex. */
  function Innermost(t: seq<Event>): Option<nat> {
    var open := Nest(t);
    if open.Some? && open.value != [] then Some(open.value[|open.value| - 1]) else None
  }

  /** What an open vertex does next: examine the next edge of its list, or finish. */
  function Onward(x: Search, t: seq<Event>, v: nat): Event
    requires x.Fits() && v < x.g.order
  {
    var k := ExaminedFrom(x.g, t, v);
    if !x.term(v) && k < |OutEdges(x.g, v)| then ExamineEdge(OutEdges(x.g, v)[k]) else FinishVertex(v)
  }

  /** The first vertex from `k` on that has not been discovered. */
  function FirstMissing(t: seq<Event>, k: nat, order: nat): (v: Option<nat>)
    requires k <= order
    ensures v.Some? ==> k <= v.value < order && DiscoverVertex(v.value) !in t
    ensures forall w: nat :: k <= w < (if v.Some? then v.value else order) ==> DiscoverVertex(w) in t
    decreases order - k
  {
    if k == order then None
    else if DiscoverVertex(k) !in t then Some(k)
    else FirstMissing(t, k + 1, order)
  }

  /** What is called while no vertex is open. A visit discovers its vertex. A traversal initializes
      the vertices in order, starts from the one it was given, and from then on starts from the first
      one that has not been discovered. */
  function Outside(x: Search, t: seq<Event>): Option<Event>
    requires x.Fits()
  {
    match x.extent
    case OneVisit(u) => if t == [] then Some(DiscoverVertex(u)) else None
    case Everything(start) =>
      if |t| < x.g.order then Some(InitializeVertex(|t|))
      else if |t| == x.g.order then Some(StartVertex(start))
      else
        match FirstMissing(t, 0, x.g.order)
        case None => None
        case Some(v) => Some(StartVertex(v))
  }

  /** The next call. */
  function NextCall(x: Search, t: seq<Event>): Option<Event>
    requires x.Fits()
  {
    if Owed(x, t).Some? then Owed(x, t)
    else
      match Innermost(t)
      case None => Outside(x, t)
      case Some(v) => if v < x.g.order then Some(Onward(x, t, v)) else None
  }

  /** Every call is the one that those before it determine. */
  ghost predicate Follows(x: Search, t: seq<Event>)
    requires x.Fits()
  {
    forall i {:trigger NextCall(x, t[..i])} :: 0 <= i < |t| ==> NextCall(x, t[..i]) == Some(t[i])
  }

  /** And there is none to follow. */
  ghost predicate Complete(x: Search, t: seq<Event>)
    requires x.Fits()
  {
    Follows(x, t) && NextCall(x, t) == None
  }

  /** There is only one complete log. */
  lemma CompleteUnique(x: Search, t: seq<Event>, u: seq<Event>)
    requires x.Fits() && Complete(x, t) && Complete(x, u)
    ensures t == u
  {
    NotLonger(x, t, u);
    NotLonger(x, u, t);
    SameSoFar(x, t, u, |t|);
    assert t[..|t|] == t && u[..|u|] == u;
  }

  lemma NotLonger(x: Search, t: seq<Event>, u: seq<Event>)
    requires x.Fits() && Complete(x, t) && Follows(x, u)
    ensures |u| <= |t|
  {
    if |t| < |u| {
      SameSoFar(x, t, u, |t|);
      WholeLog(t);
      CallAt(x, u, |t|);
    }
  }

  lemma CallAt(x: Search, t: seq<Event>, i: nat)
    requires x.Fits() && Follows(x, t) && i < |t|
    ensures NextCall(x, t[..i]) == Some(t[i])
  {
  }

  lemma WholeLog(t: seq<Event>)
    ensures t[..|t|] == t
  {
  }

  lemma {:induction false} SameSoFar(x: Search, t: seq<Event>, u: seq<Event>, n: nat)
    requires x.Fits() && Follows(x, t) && Follows(x, u) && n <= |t| && n <= |u|
    ensures t[..n] == u[..n]
  {
    if n > 0 {
      SameSoFar(x, t, u, n - 1);
      CallAt(x, t, n - 1);
      CallAt(x, u, n - 1);
      OneCallMore(t, n);
      OneCallMore(u, n);
    }
  }

  lemma OneCallMore(t: seq<Event>, n: nat)
    requires 0 < n <= |t|
    ensures t[..n] == t[..n - 1] + [t[n - 1]]
  {
  }

  // ----- one call more -----

  lemma InitLast(t: seq<Event>, e: Event)
    ensures Init(t + [e]) == t && Last(t + [e]) == e
  {
  }

  lemma FollowsAppend(x: Search, t: seq<Event>, e: Event)
    requires x.Fits() && Follows(x, t) && NextCall(x, t) == Some(e)
    ensures Follows(x, t + [e])
  {
    forall i | 0 <= i < |t + [e]| ensures NextCall(x, (t + [e])[..i]) == Some((t + [e])[i]) {
      assert (t + [e])[..i] == if i < |t| then t[..i] else t;
      assert i < |t| ==> NextCall(x, t[..i]) == Some(t[i]);
    }
  }

  lemma ExaminedFromAppend(g: Graph, t: seq<Event>, e: Event, v: nat)
    requires WellFormed(g)
    ensures ExaminedFrom(g, t + [e], v) == ExaminedFrom(g, t, v) + if LeavesFrom(g, e, v) then 1 else 0
  {
    InitLast(t, e);
  }

  // ----- the log tells the state -----

  ghost predicate FrameTold(x: Search, s: State, k: nat)
    requires x.Fits() && Shape(x.g, s) && k < |s.frames|
  {
    var f := s.frames[k];
    && DiscoverVertex(f.v) in s.trace && FinishVertex(f.v) !in s.trace
    && f.next == if x.term(f.v) then |OutEdges(x.g, f.v)| else ExaminedFrom(x.g, s.trace, f.v)
  }

  ghost predicate ColorsTold(x: Search, s: State)
    requires x.Fits() && Shape(x.g, s)
  {
    && (forall v :: 0 <= v < x.g.order ==> s.vc[v] == ColorIn(x.vc, s.trace, v))
    && (forall e :: 0 <= e < |x.g.edges| ==> s.ec[e] == EdgeColorIn(x.ec, s.trace, e))
  }

  ghost predicate FramesTold(x: Search, s: State)
    requires x.Fits() && Shape(x.g, s)
  {
    && Distinct(s.frames)
    && (forall k :: 0 <= k < |s.frames| ==> FrameTold(x, s, k))
    && (forall v: nat :: DiscoveredFirst(x.g, s.trace, v))
  }

  /** Nothing is read from a vertex, and it is not finished, before it is discovered. */
  ghost predicate DiscoveredFirst(g: Graph, t: seq<Event>, v: nat)
    requires WellFormed(g)
  {
    DiscoverVertex(v) in t || (FinishVertex(v) !in t && ExaminedFrom(g, t, v) == 0)
  }

  lemma DiscoveredFirstAppend(g: Graph, t: seq<Event>, e: Event, v: nat)
    requires WellFormed(g) && DiscoveredFirst(g, t, v)
    requires LeavesFrom(g, e, v) || e == FinishVertex(v) ==> DiscoverVertex(v) in t
    ensures DiscoveredFirst(g, t + [e], v)
  {
    ExaminedFromAppend(g, t, e, v);
  }

  /** Between the steps, with no call owed, the log tells the state and has followed the rules. */
  ghost predicate Told(x: Search, s: State) {
    && x.Fits() && Shape(x.g, s) && Nested(s)
    && ColorsTold(x, s) && FramesTold(x, s)
    && Owed(x, s.trace) == None && Follows(x, s.trace)
  }

  lemma InnermostIsTop(x: Search, s: State)
    requires Told(x, s)
    ensures Innermost(s.trace) == if s.frames == [] then None else Some(Top(s).v)
  {
  }

  // ----- examining an edge -----

  lemma ExamineIsNext(x: Search, s: State)
    requires Told(x, s) && CanExamine(x.g, s)
    ensures NextCall(x, s.trace) == Some(ExamineEdge(Current(x.g, s))) && !x.term(Top(s).v)
  {
    InnermostIsTop(x, s);
    assert FrameTold(x, s, |s.frames| - 1);
  }

  /** The call that the machine makes for the edge is the one that is owed. */
  lemma ReportIsOwed(x: Search, s: State)
    requires Told(x, s) && CanExamine(x.g, s)
    ensures var d := Current(x.g, s);
            Owed(x, s.trace + [ExamineEdge(d)]) ==
              match s.vc[Target(x.g, d)]
              case White => Some(TreeEdge(d))
              case Gray => if s.ec[d.id] == White then Some(BackEdge(d)) else None
              case Black => Some(ForwardOrCrossEdge(d))
  {
    InitLast(s.trace, ExamineEdge(Current(x.g, s)));
  }

  lemma ConsumeFollows(x: Search, s: State)
    requires Told(x, s) && CanExamine(x.g, s)
    ensures Follows(x, Consume(x.g, s).trace)
  {
    ExamineIsNext(x, s);
    FollowsAppend(x, s.trace, ExamineEdge(Current(x.g, s)));
  }

  lemma ConsumeColors(x: Search, s: State)
    requires Told(x, s) && CanExamine(x.g, s)
    ensures ColorsTold(x, Consume(x.g, s))
  {
    var d, t := Current(x.g, s), s.trace;
    var r := Consume(x.g, s);
    assert d == Descriptor(d.id, d.reversed);
    forall e | 0 <= e < |x.g.edges| ensures r.ec[e] == EdgeColorIn(x.ec, r.trace, e) {
      assert s.ec[e] == EdgeColorIn(x.ec, t, e);
      assert Examined(r.trace, e) <==> Examined(t, e) || e == d.id;
    }
    forall v | 0 <= v < x.g.order ensures r.vc[v] == ColorIn(x.vc, r.trace, v) {
      assert s.vc[v] == ColorIn(x.vc, t, v);
    }
  }

  lemma ConsumeFrames(x: Search, s: State)
    requires Told(x, s) && CanExamine(x.g, s)
    ensures FramesTold(x, Consume(x.g, s))
  {
    var d, n := Current(x.g, s), |s.frames| - 1;
    var r := Consume(x.g, s);
    ExamineIsNext(x, s);
    forall v: nat ensures ExaminedFrom(x.g, r.trace, v) == ExaminedFrom(x.g, s.trace, v) + One(v == Top(s).v) {
      ExaminedFromAppend(x.g, s.trace, ExamineEdge(d), v);
    }
    assert FrameTold(x, s, n);
    forall k | 0 <= k < |r.frames| ensures FrameTold(x, r, k) {
      assert FrameTold(x, s, k);
      assert s.frames[n].v == Top(s).v;
    }
    forall v: nat ensures DiscoveredFirst(x.g, r.trace, v) {
      assert DiscoveredFirst(x.g, s.trace, v);
      DiscoveredFirstAppend(x.g, s.trace, ExamineEdge(d), v);
    }
  }

  function One(b: bool): nat {
    if b then 1 else 0
  }

  /** A report that is no discovery changes nothing. */
  lemma ReportKeeps(x: Search, s: State, e: Event)
    requires x.Fits() && Shape(x.g, s) && Nested(s) && ColorsTold(x, s) && FramesTold(x, s) && Follows(x, s.trace)
    requires e.TreeEdge? || e.BackEdge? || e.ForwardOrCrossEdge? || e.StartVertex?
    requires NextCall(x, s.trace) == Some(e)
    ensures var r := Report(s, e);
            Nested(r) && ColorsTold(x, r) && FramesTold(x, r) && Follows(x, r.trace)
  {
    var r := Report(s, e);
    NestQuiet(s.trace, e);
    FollowsAppend(x, s.trace, e);
    forall v: nat ensures ExaminedFrom(x.g, r.trace, v) == ExaminedFrom(x.g, s.trace, v) {
      ExaminedFromAppend(x.g, s.trace, e, v);
    }
    forall k | 0 <= k < |r.frames| ensures FrameTold(x, r, k) {
      assert FrameTold(x, s, k);
    }
    forall v: nat ensures DiscoveredFirst(x.g, r.trace, v) {
      assert DiscoveredFirst(x.g, s.trace, v);
    }
    forall i | 0 <= i < |x.g.edges| ensures r.ec[i] == EdgeColorIn(x.ec, r.trace, i) {
      assert s.ec[i] == EdgeColorIn(x.ec, s.trace, i);
    }
    forall v | 0 <= v < x.g.order ensures r.vc[v] == ColorIn(x.vc, r.trace, v) {
      assert s.vc[v] == ColorIn(x.vc, s.trace, v);
    }
  }

  lemma EnterKeeps(x: Search, s: State, v: nat)
    requires x.Fits() && Shape(x.g, s) && Nested(s) && ColorsTold(x, s) && FramesTold(x, s) && Follows(x, s.trace)
    requires v < x.g.order && DiscoverVertex(v) !in s.trace && FinishVertex(v) !in s.trace
    requires NextCall(x, s.trace) == Some(DiscoverVertex(v))
    ensures Told(x, Enter(x.g, x.term, s, v))
  {
    var e := DiscoverVertex(v);
    var r := Enter(x.g, x.term, s, v);
    EnterKeepsNesting(x.g, x.term, s, v);
    FollowsAppend(x, s.trace, e);
    InitLast(s.trace, e);
    EnterFrames(x, s, v);
    forall i | 0 <= i < |x.g.edges| ensures r.ec[i] == EdgeColorIn(x.ec, r.trace, i) {
      assert s.ec[i] == EdgeColorIn(x.ec, s.trace, i);
    }
    forall w | 0 <= w < x.g.order ensures r.vc[w] == ColorIn(x.vc, r.trace, w) {
      assert s.vc[w] == ColorIn(x.vc, s.trace, w);
    }
  }

  lemma EnterFrames(x: Search, s: State, v: nat)
    requires x.Fits() && Shape(x.g, s) && FramesTold(x, s)
    requires v < x.g.order && DiscoverVertex(v) !in s.trace && FinishVertex(v) !in s.trace
    ensures FramesTold(x, Enter(x.g, x.term, s, v))
  {
    var r := Enter(x.g, x.term, s, v);
    forall w: nat ensures ExaminedFrom(x.g, r.trace, w) == ExaminedFrom(x.g, s.trace, w) {
      ExaminedFromAppend(x.g, s.trace, DiscoverVertex(v), w);
    }
    forall k | 0 <= k < |s.frames| ensures s.frames[k].v != v && FrameTold(x, r, k) {
      assert FrameTold(x, s, k);
    }
    assert DiscoveredFirst(x.g, s.trace, v);
    assert FrameTold(x, r, |s.frames|);
    forall w: nat ensures DiscoveredFirst(x.g, r.trace, w) {
      assert DiscoveredFirst(x.g, s.trace, w);
    }
  }

  lemma ConsumeTold(x: Search, s: State)
    requires Told(x, s) && CanExamine(x.g, s)
    ensures var r := Consume(x.g, s);
            Nested(r) && ColorsTold(x, r) && FramesTold(x, r) && Follows(x, r.trace)
  {
    ConsumeKeepsNesting(x.g, s);
    ConsumeColors(x, s);
    ConsumeFrames(x, s);
    ConsumeFollows(x, s);
  }

  lemma TreeEdgeTold(x: Search, s: State)
    requires Told(x, s) && CanExamine(x.g, s) && s.vc[Target(x.g, Current(x.g, s))] == White
    ensures Told(x, Examine(x.g, x.term, s))
  {
    var d, r := Current(x.g, s), Consume(x.g, s);
    var v := Target(x.g, d);
    ConsumeTold(x, s);
    ReportIsOwed(x, s);
    assert s.vc[v] == ColorIn(x.vc, s.trace, v);
    ReportKeeps(x, r, TreeEdge(d));
    InitLast(r.trace, TreeEdge(d));
    EnterKeeps(x, Report(r, TreeEdge(d)), v);
  }

  lemma BackEdgeTold(x: Search, s: State)
    requires Told(x, s) && CanExamine(x.g, s) && s.vc[Target(x.g, Current(x.g, s))] == Gray
    ensures Told(x, Examine(x.g, x.term, s))
  {
    var d, r := Current(x.g, s), Consume(x.g, s);
    ConsumeTold(x, s);
    ReportIsOwed(x, s);
    if s.ec[d.id] == White {
      ReportKeeps(x, r, BackEdge(d));
      InitLast(r.trace, BackEdge(d));
    }
  }

  lemma CrossEdgeTold(x: Search, s: State)
    requires Told(x, s) && CanExamine(x.g, s) && s.vc[Target(x.g, Current(x.g, s))] == Black
    ensures Told(x, Examine(x.g, x.term, s))
  {
    var d, r := Current(x.g, s), Consume(x.g, s);
    ConsumeTold(x, s);
    ReportIsOwed(x, s);
    ReportKeeps(x, r, ForwardOrCrossEdge(d));
    InitLast(r.trace, ForwardOrCrossEdge(d));
  }

  lemma ExamineKeepsTold(x: Search, s: State)
    requires Told(x, s) && CanExamine(x.g, s)
    ensures Told(x, Examine(x.g, x.term, s))
  {
    match s.vc[Target(x.g, Current(x.g, s))]
    case White => TreeEdgeTold(x, s);
    case Gray => BackEdgeTold(x, s);
    case Black => CrossEdgeTold(x, s);
  }

  // ----- finishing a vertex -----

  lemma FinishKeepsTold(x: Search, s: State)
    requires Told(x, s) && CanFinish(x.g, s)
    ensures Told(x, Finish(x.g, s))
  {
    var r, e := Finish(x.g, s), FinishVertex(Top(s).v);
    InnermostIsTop(x, s);
    assert FrameTold(x, s, |s.frames| - 1);
    FinishKeepsNesting(x.g, s);
    FollowsAppend(x, s.trace, e);
    InitLast(s.trace, e);
    FinishFrames(x, s);
    forall i | 0 <= i < |x.g.edges| ensures r.ec[i] == EdgeColorIn(x.ec, r.trace, i) {
      assert s.ec[i] == EdgeColorIn(x.ec, s.trace, i);
    }
    forall w | 0 <= w < x.g.order ensures r.vc[w] == ColorIn(x.vc, r.trace, w) {
      assert s.vc[w] == ColorIn(x.vc, s.trace, w);
    }
  }

  lemma FinishFrames(x: Search, s: State)
    requires Told(x, s) && CanFinish(x.g, s)
    ensures FramesTold(x, Finish(x.g, s))
  {
    var r, n := Finish(x.g, s), |s.frames| - 1;
    forall w: nat ensures ExaminedFrom(x.g, r.trace, w) == ExaminedFrom(x.g, s.trace, w) {
      ExaminedFromAppend(x.g, s.trace, FinishVertex(Top(s).v), w);
    }
    assert FrameTold(x, s, n);
    forall k | 0 <= k < |r.frames| ensures FrameTold(x, r, k) {
      assert FrameTold(x, s, k) && s.frames[k].v != s.frames[n].v;
    }
    forall v: nat ensures DiscoveredFirst(x.g, r.trace, v) {
      assert DiscoveredFirst(x.g, s.trace, v);
      DiscoveredFirstAppend(x.g, s.trace, FinishVertex(Top(s).v), v);
    }
  }

  lemma {:induction false} RunKeepsTold(x: Search, s: State)
    requires Told(x, s)
    ensures Told(x, Run(x.g, x.term, s))
    decreases WhiteVertices(s.vc), Pending(x.g, s.frames)
  {
    if s.frames != [] {
      StepDecreases(x.g, x.term, s);
      if Top(s).next < |OutEdges(x.g, Top(s).v)| {
        ExamineKeepsTold(x, s);
      } else {
        FinishKeepsTold(x, s);
      }
      RunKeepsTold(x, Step(x.g, x.term, s));
    }
  }
}
