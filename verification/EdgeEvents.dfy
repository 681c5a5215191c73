/** Edge bookkeeping of the full traversal (no terminator): which edge slots have been read, and
    what each edge has been reported as. */
module EdgeEvents {
  import opened UndirectedGraph
  import opened DepthFirst
  import opened GreyStack

  /** How many slots of `u` its frame has read; 0 when it has no frame. */
  function ReadOnStack(frames: seq<Frame>, u: nat): nat {
    if frames == [] then 0
    else if frames[|frames| - 1].v == u then frames[|frames| - 1].next
    else ReadOnStack(frames[..|frames| - 1], u)
  }

  lemma ReadOnStackPush(frames: seq<Frame>, f: Frame, u: nat)
    ensures ReadOnStack(frames + [f], u) == if f.v == u then f.next else ReadOnStack(frames, u)
  {
    assert (frames + [f])[..|frames|] == frames;
  }

  lemma {:induction false} NotOnStackReadsNothing(frames: seq<Frame>, u: nat)
    requires !OnStack(frames, u)
    ensures ReadOnStack(frames, u) == 0
  {
    if frames != [] {
      var n := |frames| - 1;
      assert frames[n].v != u;
      assert forall k :: 0 <= k < n ==> frames[k].v != u;
      NotOnStackReadsNothing(frames[..n], u);
    }
  }

  ghost function Progress(g: Graph, s: State, u: nat): nat
    requires Shape(g, s) && u < g.order
  {
    if s.vc[u] == Black then |OutEdges(g, u)| else ReadOnStack(s.frames, u)
  }

  ghost predicate Read(g: Graph, s: State, d: Descriptor)
    requires Shape(g, s) && Valid(g, d)
  {
    SlotExists(g, d);
    Slot(g, d) < Progress(g, s, Source(g, d))
  }

  ghost predicate EdgeRead(g: Graph, s: State, e: nat)
    requires Shape(g, s) && e < |g.edges|
  {
    Read(g, s, Descriptor(e, true)) || Read(g, s, Descriptor(e, false))
  }

  /** How often edge `e` was reported as a tree edge or a back edge, from either end. */
  function Reports(t: seq<Event>, e: nat): nat {
    multiset(t)[TreeEdge(Descriptor(e, true))] + multiset(t)[TreeEdge(Descriptor(e, false))]
    + multiset(t)[BackEdge(Descriptor(e, true))] + multiset(t)[BackEdge(Descriptor(e, false))]
  }

  /** A read slot has no white end, its edge is black; an edge has been examined once for each slot
      read, and reported once when black. */
  ghost predicate SlotsTracked(g: Graph, s: State)
    requires Shape(g, s)
  {
    forall d :: Valid(g, d) ==> SlotTracked(g, s, d)
  }

  ghost predicate SlotTracked(g: Graph, s: State, d: Descriptor)
    requires Shape(g, s) && Valid(g, d)
  {
    SlotExists(g, d);
    && (Read(g, s, d) ==> s.vc[Source(g, d)] != White && s.vc[Target(g, d)] != White)
    && multiset(s.trace)[ExamineEdge(d)] == if Read(g, s, d) then 1 else 0
  }

  ghost predicate EdgesTracked(g: Graph, s: State)
    requires Shape(g, s)
  {
    forall e :: 0 <= e < |g.edges| ==> EdgeTracked(g, s, e)
  }

  ghost predicate EdgeTracked(g: Graph, s: State, e: nat)
    requires Shape(g, s) && e < |g.edges|
  {
    && s.ec[e] != Gray
    && (s.ec[e] == Black <==> EdgeRead(g, s, e))
    && Reports(s.trace, e) == if s.ec[e] == Black then 1 else 0
  }

  // ----- effect of a step on the read slots -----

  lemma ConsumeProgress(g: Graph, s: State, u: nat)
    requires StackIsGreyPath(g, s) && CanExamine(g, s) && u < g.order
    ensures Progress(g, Consume(g, s), u) == if u == Top(s).v then Top(s).next + 1 else Progress(g, s, u)
    ensures Progress(g, s, Top(s).v) == Top(s).next
  {
    StackTop(g, s);
    ReadOnStackPush(Rest(s), Top(s), u);
    ReadOnStackPush(Rest(s), Frame(Top(s).v, Top(s).next + 1), u);
  }

  lemma ConsumeReads(g: Graph, s: State, d: Descriptor)
    requires StackIsGreyPath(g, s) && CanExamine(g, s) && Valid(g, d)
    ensures Read(g, Consume(g, s), d) <==> Read(g, s, d) || d == Current(g, s)
    ensures !Read(g, s, Current(g, s))
  {
    SlotExists(g, d);
    ConsumeProgress(g, s, Source(g, d));
    SlotUnique(g, Top(s).v, Top(s).next, d);
    SlotUnique(g, Top(s).v, Top(s).next, Current(g, s));
  }

  lemma EnterReads(g: Graph, s: State, v: nat, d: Descriptor)
    requires StackIsGreyPath(g, s) && v < g.order && s.vc[v] == White && Valid(g, d)
    ensures Read(g, Enter(g, NeverStop, s, v), d) <==> Read(g, s, d)
  {
    SlotExists(g, d);
    ReadOnStackPush(s.frames, Frame(v, 0), Source(g, d));
    NotOnStackReadsNothing(s.frames, v);
  }

  lemma FinishReads(g: Graph, s: State, d: Descriptor)
    requires StackIsGreyPath(g, s) && CanFinish(g, s) && Valid(g, d)
    ensures Read(g, Finish(g, s), d) <==> Read(g, s, d)
  {
    SlotExists(g, d);
    StackTop(g, s);
    ReadOnStackPush(Rest(s), Top(s), Source(g, d));
  }

  lemma ReportReads(g: Graph, s: State, e: Event, d: Descriptor)
    requires Shape(g, s) && Valid(g, d)
    ensures Read(g, Report(s, e), d) <==> Read(g, s, d)
  {
  }

  // ----- slots -----

  /** An edge read from one end only is white when its far end is, so a tree edge is new. */
  lemma WhiteTargetWhiteEdge(g: Graph, s: State)
    requires StackIsGreyPath(g, s) && CanExamine(g, s) && SlotsTracked(g, s) && EdgesTracked(g, s)
    requires s.vc[Target(g, Current(g, s))] == White
    ensures s.ec[Current(g, s).id] == White
  {
    var d := Current(g, s);
    ConsumeReads(g, s, d);
    assert Valid(g, Flip(d)) && Source(g, Flip(d)) == Target(g, d);
    assert d == Descriptor(d.id, d.reversed);
    assert EdgeTracked(g, s, d.id);
    assert SlotTracked(g, s, Flip(d));
    assert !EdgeRead(g, s, d.id);
  }

  lemma BlackTargetBlackEdge(g: Graph, s: State)
    requires StackIsGreyPath(g, s) && CanExamine(g, s) && SlotsTracked(g, s) && EdgesTracked(g, s)
    requires s.vc[Target(g, Current(g, s))] == Black
    ensures s.ec[Current(g, s).id] == Black && ExamineEdge(Flip(Current(g, s))) in s.trace
  {
    var d := Current(g, s);
    SlotExists(g, Flip(d));
    assert Read(g, s, Flip(d));
    assert EdgeTracked(g, s, d.id);
    assert Flip(d) == Descriptor(d.id, !d.reversed);
    assert EdgeRead(g, s, d.id);
    assert SlotTracked(g, s, Flip(d));
  }

  lemma ExamineReads(g: Graph, s: State, x: Descriptor)
    requires StackIsGreyPath(g, s) && CanExamine(g, s) && Valid(g, x)
    ensures Read(g, Examine(g, NeverStop, s), x) <==> Read(g, s, x) || x == Current(g, s)
  {
    var d := Current(g, s);
    var s1 := Consume(g, s);
    ConsumeReads(g, s, x);
    if s.vc[Target(g, d)] == White {
      ConsumeKeepsStack(g, s);
      ReportKeepsStack(g, s1, TreeEdge(d));
      ReportReads(g, s1, TreeEdge(d), x);
      EnterReads(g, Report(s1, TreeEdge(d)), Target(g, d), x);
    } else {
      ReportReads(g, s1, BackEdge(d), x);
      ReportReads(g, s1, ForwardOrCrossEdge(d), x);
    }
  }

  /** The visitor calls one examined edge makes. */
  function Calls(g: Graph, s: State): (calls: seq<Event>)
    requires CanExamine(g, s)
    ensures forall i :: 0 <= i < |calls| ==> !calls[i].StartVertex? && !calls[i].FinishVertex?
  {
    var d := Current(g, s);
    [ExamineEdge(d)] +
    match s.vc[Target(g, d)]
    case White => [TreeEdge(d), DiscoverVertex(Target(g, d))]
    case Gray => if Get(s.ec, d) == White then [BackEdge(d)] else []
    case Black => [ForwardOrCrossEdge(d)]
  }

  lemma ExamineTraceIs(g: Graph, term: Terminator, s: State)
    requires CanExamine(g, s)
    ensures Examine(g, term, s).trace == s.trace + Calls(g, s)
  {
    var d := Current(g, s);
    match s.vc[Target(g, d)]
    case White => assert Calls(g, s) == [ExamineEdge(d), TreeEdge(d), DiscoverVertex(Target(g, d))];
    case Gray => assert Get(s.ec, d) == White ==> Calls(g, s) == [ExamineEdge(d), BackEdge(d)];
    case Black => assert Calls(g, s) == [ExamineEdge(d), ForwardOrCrossEdge(d)];
  }

  lemma ExamineTrace(g: Graph, term: Terminator, s: State)
    requires CanExamine(g, s)
    ensures Examine(g, term, s).trace == s.trace + Calls(g, s)
    ensures multiset(Examine(g, term, s).trace) == multiset(s.trace) + multiset(Calls(g, s))
  {
    ExamineTraceIs(g, term, s);
    assert multiset(s.trace + Calls(g, s)) == multiset(s.trace) + multiset(Calls(g, s));
  }

  lemma CallsExamineOnce(g: Graph, s: State, x: Descriptor)
    requires CanExamine(g, s)
    ensures multiset(Calls(g, s))[ExamineEdge(x)] == if x == Current(g, s) then 1 else 0
  {
  }

  lemma ExamineColors(g: Graph, s: State, v: nat)
    requires CanExamine(g, s) && v < g.order
    ensures Examine(g, NeverStop, s).vc[Target(g, Current(g, s))] != White
    ensures s.vc[v] != White ==> Examine(g, NeverStop, s).vc[v] == s.vc[v]
  {
  }

  lemma ExamineKeepsSlots(g: Graph, s: State)
    requires StackIsGreyPath(g, s) && CanExamine(g, s) && SlotsTracked(g, s)
    ensures SlotsTracked(g, Examine(g, NeverStop, s))
  {
    var d := Current(g, s);
    StackTop(g, s);
    ConsumeReads(g, s, d);
    forall x | Valid(g, x) ensures SlotTracked(g, Examine(g, NeverStop, s), x) {
      assert SlotTracked(g, s, x);
      SlotExists(g, x);
      ExamineReads(g, s, x);
      ExamineTrace(g, NeverStop, s);
      CallsExamineOnce(g, s, x);
      ExamineColors(g, s, Source(g, x));
      ExamineColors(g, s, Target(g, x));
    }
  }

  lemma FinishKeepsSlots(g: Graph, s: State)
    requires StackIsGreyPath(g, s) && CanFinish(g, s) && SlotsTracked(g, s)
    ensures SlotsTracked(g, Finish(g, s))
  {
    forall x | Valid(g, x) ensures SlotTracked(g, Finish(g, s), x) {
      assert SlotTracked(g, s, x);
      FinishReads(g, s, x);
    }
  }

  lemma EnterKeepsSlots(g: Graph, s: State, v: nat)
    requires StackIsGreyPath(g, s) && v < g.order && s.vc[v] == White && SlotsTracked(g, s)
    ensures SlotsTracked(g, Enter(g, NeverStop, s, v))
  {
    forall x | Valid(g, x) ensures SlotTracked(g, Enter(g, NeverStop, s, v), x) {
      assert SlotTracked(g, s, x);
      EnterReads(g, s, v, x);
    }
  }

  // ----- edges -----

  lemma CallsReports(g: Graph, s: State, e: nat)
    requires CanExamine(g, s) && s.ec[Current(g, s).id] != Gray
    requires s.vc[Target(g, Current(g, s))] == White ==> s.ec[Current(g, s).id] == White
    requires s.vc[Target(g, Current(g, s))] == Black ==> s.ec[Current(g, s).id] == Black
    ensures Reports(Calls(g, s), e) == if e == Current(g, s).id && s.ec[e] == White then 1 else 0
  {
    var d := Current(g, s);
    assert d == Descriptor(d.id, d.reversed);
  }

  lemma ReportsAppend(t: seq<Event>, u: seq<Event>, e: nat)
    ensures Reports(t + u, e) == Reports(t, e) + Reports(u, e)
  {
  }

  lemma ExamineTracksEdge(g: Graph, s: State, e: nat)
    requires StackIsGreyPath(g, s) && CanExamine(g, s) && e < |g.edges| && EdgeTracked(g, s, e)
    requires s.ec[Current(g, s).id] != Gray
    requires s.vc[Target(g, Current(g, s))] == White ==> s.ec[Current(g, s).id] == White
    requires s.vc[Target(g, Current(g, s))] == Black ==> s.ec[Current(g, s).id] == Black
    ensures EdgeTracked(g, Examine(g, NeverStop, s), e)
  {
    var d := Current(g, s);
    assert d == Descriptor(d.id, d.reversed);
    ExamineReads(g, s, Descriptor(e, true));
    ExamineReads(g, s, Descriptor(e, false));
    ExamineTrace(g, NeverStop, s);
    ReportsAppend(s.trace, Calls(g, s), e);
    CallsReports(g, s, e);
    assert Examine(g, NeverStop, s).ec[e] == if e == d.id then Black else s.ec[e];
  }

  lemma ExamineKeepsEdges(g: Graph, s: State)
    requires StackIsGreyPath(g, s) && CanExamine(g, s) && SlotsTracked(g, s) && EdgesTracked(g, s)
    ensures EdgesTracked(g, Examine(g, NeverStop, s))
  {
    var d := Current(g, s);
    assert EdgeTracked(g, s, d.id);
    if s.vc[Target(g, d)] == White {
      WhiteTargetWhiteEdge(g, s);
    }
    if s.vc[Target(g, d)] == Black {
      BlackTargetBlackEdge(g, s);
    }
    forall e | 0 <= e < |g.edges| ensures EdgeTracked(g, Examine(g, NeverStop, s), e) {
      assert EdgeTracked(g, s, e);
      ExamineTracksEdge(g, s, e);
    }
  }

  lemma FinishKeepsEdges(g: Graph, s: State)
    requires StackIsGreyPath(g, s) && CanFinish(g, s) && EdgesTracked(g, s)
    ensures EdgesTracked(g, Finish(g, s))
  {
    forall e | 0 <= e < |g.edges| ensures EdgeTracked(g, Finish(g, s), e) {
      assert EdgeTracked(g, s, e);
      FinishReads(g, s, Descriptor(e, true));
      FinishReads(g, s, Descriptor(e, false));
      ReportsAppend(s.trace, [FinishVertex(Top(s).v)], e);
    }
  }

  lemma EnterKeepsEdges(g: Graph, s: State, v: nat)
    requires StackIsGreyPath(g, s) && v < g.order && s.vc[v] == White && EdgesTracked(g, s)
    ensures EdgesTracked(g, Enter(g, NeverStop, s, v))
  {
    forall e | 0 <= e < |g.edges| ensures EdgeTracked(g, Enter(g, NeverStop, s, v), e) {
      assert EdgeTracked(g, s, e);
      EnterReads(g, s, v, Descriptor(e, true));
      EnterReads(g, s, v, Descriptor(e, false));
      ReportsAppend(s.trace, [DiscoverVertex(v)], e);
    }
  }

  lemma StepKeepsTracking(g: Graph, s: State)
    requires StackIsGreyPath(g, s) && s.frames != [] && SlotsTracked(g, s) && EdgesTracked(g, s)
    ensures SlotsTracked(g, Step(g, NeverStop, s)) && EdgesTracked(g, Step(g, NeverStop, s))
  {
    if Top(s).next < |OutEdges(g, Top(s).v)| {
      ExamineKeepsSlots(g, s);
      ExamineKeepsEdges(g, s);
    } else {
      FinishKeepsSlots(g, s);
      FinishKeepsEdges(g, s);
    }
  }
}
