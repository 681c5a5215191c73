/** What every step of the traversal keeps, whatever the terminator: the grey vertices are the
    stack, the stack is a simple path of examined edges, and discover/finish calls nest. */
module GreyStack {
  import opened Wrappers
  import opened UndirectedGraph
  import opened DepthFirst

  predicate OnStack(frames: seq<Frame>, v: nat) {
    exists k :: 0 <= k < |frames| && frames[k].v == v
  }

  /** The last edge read at frame `k`. */
  function LastRead(g: Graph, f: Frame): (d: Descriptor)
    requires WellFormed(g) && f.v < g.order && 0 < f.next <= |OutEdges(g, f.v)|
    ensures Valid(g, d) && Source(g, d) == f.v && Target(g, d) < g.order
    ensures d == OutEdges(g, f.v)[f.next - 1]
  {
    IncidentSource(g, f.v, f.next - 1);
    OutEdges(g, f.v)[f.next - 1]
  }

  ghost predicate Linked(g: Graph, s: State, k: nat)
    requires Shape(g, s) && k + 1 < |s.frames|
  {
    s.frames[k].next > 0 && Target(g, LastRead(g, s.frames[k])) == s.frames[k + 1].v
  }

  ghost predicate Distinct(frames: seq<Frame>) {
    forall i, j :: 0 <= i < j < |frames| ==> frames[i].v != frames[j].v
  }

  ghost predicate StackIsGreyPath(g: Graph, s: State) {
    && Shape(g, s)
    && Distinct(s.frames)
    && (forall v :: 0 <= v < g.order ==> (s.vc[v] == Gray <==> OnStack(s.frames, v)))
    && (forall k :: 0 <= k < |s.frames| - 1 ==> Linked(g, s, k))
  }

  function StackOf(frames: seq<Frame>): seq<nat> {
    seq(|frames|, k requires 0 <= k < |frames| => frames[k].v)
  }

  /** The vertices discovered and not yet finished, innermost last; None if the calls do not nest. */
  function Nest(t: seq<Event>): Option<seq<nat>> {
    if t == [] then Some([])
    else
      var open := Nest(t[..|t| - 1]);
      var last := t[|t| - 1];
      if open.None? then None
      else if last.DiscoverVertex? then Some(open.value + [last.v])
      else if last.FinishVertex? then
        if open.value != [] && open.value[|open.value| - 1] == last.v then Some(open.value[..|open.value| - 1])
        else None
      else open
  }

  lemma NestQuiet(t: seq<Event>, e: Event)
    requires !e.DiscoverVertex? && !e.FinishVertex?
    ensures Nest(t + [e]) == Nest(t)
  {
    assert (t + [e])[..|t|] == t;
  }

  lemma NestDiscover(t: seq<Event>, v: nat)
    requires Nest(t).Some?
    ensures Nest(t + [DiscoverVertex(v)]) == Some(Nest(t).value + [v])
  {
    assert (t + [DiscoverVertex(v)])[..|t|] == t;
  }

  lemma NestFinish(t: seq<Event>, open: seq<nat>, v: nat)
    requires Nest(t) == Some(open + [v])
    ensures Nest(t + [FinishVertex(v)]) == Some(open)
  {
    assert (t + [FinishVertex(v)])[..|t|] == t;
    assert (open + [v])[..|open|] == open;
  }

  ghost predicate Nested(s: State) {
    Nest(s.trace) == Some(StackOf(s.frames))
  }

  // ----- the stack -----

  lemma StackTop(g: Graph, s: State)
    requires StackIsGreyPath(g, s) && s.frames != []
    ensures s.frames == Rest(s) + [Top(s)] && s.vc[Top(s).v] == Gray
    ensures !OnStack(Rest(s), Top(s).v)
    ensures forall v :: OnStack(s.frames, v) <==> OnStack(Rest(s), v) || v == Top(s).v
  {
    var n := |s.frames| - 1;
    assert s.frames[n].v == Top(s).v;
    forall v ensures OnStack(s.frames, v) <==> OnStack(Rest(s), v) || v == Top(s).v {
      if k :| 0 <= k < |s.frames| && s.frames[k].v == v && k < n {
        assert Rest(s)[k].v == v;
      }
    }
  }

  lemma ConsumeKeepsStack(g: Graph, s: State)
    requires StackIsGreyPath(g, s) && CanExamine(g, s)
    ensures StackIsGreyPath(g, Consume(g, s))
    ensures LastRead(g, Top(Consume(g, s))) == Current(g, s)
  {
    var r := Consume(g, s);
    StackTop(g, s);
    forall v ensures OnStack(r.frames, v) <==> OnStack(s.frames, v) {
      if k :| 0 <= k < |s.frames| && s.frames[k].v == v {
        assert r.frames[k].v == v;
      }
      if k :| 0 <= k < |r.frames| && r.frames[k].v == v {
        assert s.frames[k].v == v;
      }
    }
    forall k | 0 <= k < |r.frames| - 1 ensures Linked(g, r, k) {
      assert Linked(g, s, k);
    }
  }

  lemma EnterKeepsStack(g: Graph, term: Terminator, s: State, v: nat)
    requires StackIsGreyPath(g, s) && v < g.order && s.vc[v] != Gray
    requires s.frames != [] ==> Top(s).next > 0 && Target(g, LastRead(g, Top(s))) == v
    ensures StackIsGreyPath(g, Enter(g, term, s, v))
  {
    var r := Enter(g, term, s, v);
    assert !OnStack(s.frames, v);
    forall x ensures OnStack(r.frames, x) <==> OnStack(s.frames, x) || x == v {
      if k :| 0 <= k < |s.frames| && s.frames[k].v == x {
        assert r.frames[k].v == x;
      }
      assert r.frames[|s.frames|].v == v;
    }
    forall k | 0 <= k < |r.frames| - 1 ensures Linked(g, r, k) {
      if k < |s.frames| - 1 {
        assert Linked(g, s, k);
      }
    }
  }

  lemma FinishKeepsStack(g: Graph, s: State)
    requires StackIsGreyPath(g, s) && CanFinish(g, s)
    ensures StackIsGreyPath(g, Finish(g, s))
  {
    var r := Finish(g, s);
    StackTop(g, s);
    forall k | 0 <= k < |r.frames| - 1 ensures Linked(g, r, k) {
      assert Linked(g, s, k);
    }
  }

  lemma StepKeepsStack(g: Graph, term: Terminator, s: State)
    requires StackIsGreyPath(g, s) && s.frames != []
    ensures StackIsGreyPath(g, Step(g, term, s))
  {
    if Top(s).next < |OutEdges(g, Top(s).v)| {
      var d := Current(g, s);
      ConsumeKeepsStack(g, s);
      if s.vc[Target(g, d)] == White {
        ReportKeepsStack(g, Consume(g, s), TreeEdge(d));
        EnterKeepsStack(g, term, Report(Consume(g, s), TreeEdge(d)), Target(g, d));
      } else {
        ReportKeepsStack(g, Consume(g, s), BackEdge(d));
        ReportKeepsStack(g, Consume(g, s), ForwardOrCrossEdge(d));
      }
    } else {
      FinishKeepsStack(g, s);
    }
  }

  lemma ReportKeepsStack(g: Graph, s: State, e: Event)
    requires StackIsGreyPath(g, s)
    ensures StackIsGreyPath(g, Report(s, e))
  {
    forall k | 0 <= k < |s.frames| - 1 ensures Linked(g, Report(s, e), k) {
      assert Linked(g, s, k);
    }
  }

  // ----- nesting -----

  lemma StackOfPush(frames: seq<Frame>, f: Frame)
    ensures StackOf(frames + [f]) == StackOf(frames) + [f.v]
  {
  }

  lemma ConsumeKeepsNesting(g: Graph, s: State)
    requires CanExamine(g, s) && Nested(s)
    ensures Nested(Consume(g, s))
  {
    assert s.frames == Rest(s) + [Top(s)];
    StackOfPush(Rest(s), Top(s));
    StackOfPush(Rest(s), Frame(Top(s).v, Top(s).next + 1));
    NestQuiet(s.trace, ExamineEdge(Current(g, s)));
  }

  lemma EnterKeepsNesting(g: Graph, term: Terminator, s: State, v: nat)
    requires Shape(g, s) && v < g.order && Nested(s)
    ensures Nested(Enter(g, term, s, v))
  {
    StackOfPush(s.frames, Frame(v, if term(v) then |OutEdges(g, v)| else 0));
    NestDiscover(s.trace, v);
  }

  lemma FinishKeepsNesting(g: Graph, s: State)
    requires CanFinish(g, s) && Nested(s)
    ensures Nested(Finish(g, s))
  {
    assert s.frames == Rest(s) + [Top(s)];
    StackOfPush(Rest(s), Top(s));
    NestFinish(s.trace, StackOf(Rest(s)), Top(s).v);
  }

  lemma StepKeepsNesting(g: Graph, term: Terminator, s: State)
    requires Shape(g, s) && s.frames != [] && Nested(s)
    ensures Nested(Step(g, term, s))
  {
    if Top(s).next < |OutEdges(g, Top(s).v)| {
      var d := Current(g, s);
      var s1 := Consume(g, s);
      ConsumeKeepsNesting(g, s);
      NestQuiet(s1.trace, TreeEdge(d));
      NestQuiet(s1.trace, BackEdge(d));
      NestQuiet(s1.trace, ForwardOrCrossEdge(d));
      EnterKeepsNesting(g, term, Report(s1, TreeEdge(d)), Target(g, d));
    } else {
      FinishKeepsNesting(g, s);
    }
  }
}
