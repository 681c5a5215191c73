/** What `undirected_depth_first_visit` reaches, with any terminator and from any colouring that
    has no grey vertex. */
module VisitReach {
  import opened UndirectedGraph
  import opened DepthFirst
  import opened GreyStack

  /** `w` leads from `a` to `b` through vertices white in `vc`, and goes on from a vertex only if
      the terminator allows it. The colour of `a` does not matter. */
  ghost predicate OpenPath(g: Graph, term: Terminator, vc: seq<Color>, a: nat, b: nat, w: seq<Descriptor>)
    requires WellFormed(g) && |vc| == g.order
    decreases |w|
  {
    if w == [] then a == b
    else
      && Valid(g, w[0]) && Source(g, w[0]) == a && !term(a)
      && (SlotExists(g, w[0]); vc[Target(g, w[0])] == White)
      && OpenPath(g, term, vc, Target(g, w[0]), b, w[1..])
  }

  ghost predicate Reaches(g: Graph, term: Terminator, vc: seq<Color>, a: nat, b: nat)
    requires WellFormed(g) && |vc| == g.order
  {
    exists w :: OpenPath(g, term, vc, a, b, w)
  }

  lemma {:induction false} OpenPathExtends(g: Graph, term: Terminator, vc: seq<Color>, a: nat, b: nat,
                                            w: seq<Descriptor>, d: Descriptor)
    requires WellFormed(g) && |vc| == g.order && OpenPath(g, term, vc, a, b, w)
    requires Valid(g, d) && Source(g, d) == b && !term(b) && Target(g, d) < g.order && vc[Target(g, d)] == White
    ensures OpenPath(g, term, vc, a, Target(g, d), w + [d])
    decreases |w|
  {
    if w == [] {
      assert [d][1..] == [];
    } else {
      OpenPathExtends(g, term, vc, Target(g, w[0]), b, w[1..], d);
      assert (w + [d])[1..] == w[1..] + [d];
    }
  }

  /** Newly visited: the start, or white on entry. */
  predicate New(vc: seq<Color>, u: nat, v: nat) {
    v < |vc| && (v == u || vc[v] == White)
  }

  ghost predicate Sound(g: Graph, term: Terminator, vc: seq<Color>, u: nat, s: State)
    requires Shape(g, s) && |vc| == g.order
  {
    forall v :: 0 <= v < g.order && s.vc[v] != White ==> vc[v] == Black || Reaches(g, term, vc, u, v)
  }

  ghost predicate Grows(g: Graph, vc: seq<Color>, u: nat, s: State)
    requires Shape(g, s) && |vc| == g.order
  {
    && (forall v :: 0 <= v < g.order && (vc[v] != White || v == u) ==> s.vc[v] != White)
    && (forall k :: 0 <= k < |s.frames| ==> New(vc, u, s.frames[k].v))
    && (forall k :: 0 <= k < |s.frames| ==> Reached(g, s, s.frames[k].v))
  }

  predicate Reached(g: Graph, s: State, v: nat) {
    v < |s.vc| && s.vc[v] != White
  }

  /** Whatever was read led to a vertex no longer white. */
  ghost predicate Closed(g: Graph, term: Terminator, vc: seq<Color>, u: nat, s: State)
    requires Shape(g, s) && |vc| == g.order
  {
    && (forall k, i :: 0 <= k < |s.frames| && 0 <= i < s.frames[k].next && !term(s.frames[k].v) ==>
      Reached(g, s, FarEnd(g, s.frames[k].v, i)))
    && (forall v, i ::
      0 <= v < g.order && s.vc[v] == Black && New(vc, u, v) && !term(v) && 0 <= i < |OutEdges(g, v)| ==>
      Reached(g, s, FarEnd(g, v, i)))
  }

  function FarEnd(g: Graph, v: nat, i: nat): nat
    requires WellFormed(g) && v < g.order && i < |OutEdges(g, v)|
  {
    IncidentSource(g, v, i);
    Target(g, OutEdges(g, v)[i])
  }

  ghost predicate VisitInv(g: Graph, term: Terminator, vc: seq<Color>, u: nat, s: State) {
    && StackIsGreyPath(g, s) && |vc| == g.order
    && Sound(g, term, vc, u, s)
    && Grows(g, vc, u, s)
    && Closed(g, term, vc, u, s)
    && (forall k :: 0 <= k < |s.frames| && term(s.frames[k].v) ==> s.frames[k].next == |OutEdges(g, s.frames[k].v)|)
  }

  lemma ExamineColors(g: Graph, term: Terminator, s: State, v: nat)
    requires CanExamine(g, s) && v < g.order
    ensures Examine(g, term, s).vc[v] ==
      if v == Target(g, Current(g, s)) && s.vc[v] == White then Gray else s.vc[v]
  {
  }

  lemma ExamineKeepsSound(g: Graph, term: Terminator, vc: seq<Color>, u: nat, s: State)
    requires CanExamine(g, s) && VisitInv(g, term, vc, u, s)
    ensures Sound(g, term, vc, u, Examine(g, term, s))
  {
    var d := Current(g, s);
    var v := Top(s).v;
    StackTop(g, s);
    forall x | 0 <= x < g.order && Examine(g, term, s).vc[x] != White
      ensures vc[x] == Black || Reaches(g, term, vc, u, x)
    {
      ExamineColors(g, term, s, x);
      if s.vc[x] == White {
        assert s.frames[|s.frames| - 1] == Top(s);
        TopReaches(g, term, vc, u, s);
        var w :| OpenPath(g, term, vc, u, v, w);
        OpenPathExtends(g, term, vc, u, v, w, d);
      }
    }
  }

  lemma TopReaches(g: Graph, term: Terminator, vc: seq<Color>, u: nat, s: State)
    requires s.frames != [] && VisitInv(g, term, vc, u, s)
    ensures Reaches(g, term, vc, u, Top(s).v)
  {
    var v := s.frames[|s.frames| - 1].v;
    assert New(vc, u, v) && Reached(g, s, v);
    if v == u {
      assert OpenPath(g, term, vc, u, u, []);
    }
  }

  lemma ExamineFrames(g: Graph, term: Terminator, s: State, k: nat)
    requires CanExamine(g, s) && k < |Examine(g, term, s).frames|
    ensures var r := Examine(g, term, s);
      if k < |s.frames| - 1 then r.frames[k] == s.frames[k]
      else if k == |s.frames| - 1 then r.frames[k] == Frame(Top(s).v, Top(s).next + 1)
      else
        var v := Target(g, Current(g, s));
        s.vc[v] == White && r.frames[k] == Frame(v, if term(v) then |OutEdges(g, v)| else 0)
  {
  }

  lemma ExamineKeepsGrows(g: Graph, term: Terminator, vc: seq<Color>, u: nat, s: State)
    requires CanExamine(g, s) && VisitInv(g, term, vc, u, s)
    ensures Grows(g, vc, u, Examine(g, term, s))
  {
    var r := Examine(g, term, s);
    forall v | 0 <= v < g.order && (vc[v] != White || v == u) ensures r.vc[v] != White {
      ExamineColors(g, term, s, v);
    }
    forall k | 0 <= k < |r.frames| ensures New(vc, u, r.frames[k].v) && Reached(g, r, r.frames[k].v) {
      ExamineFrames(g, term, s, k);
      ExamineColors(g, term, s, r.frames[k].v);
      if k < |s.frames| {
        assert New(vc, u, s.frames[k].v) && Reached(g, s, s.frames[k].v);
      }
    }
  }

  lemma ExamineKeepsReached(g: Graph, term: Terminator, s: State, v: nat)
    requires CanExamine(g, s) && v < g.order && (Reached(g, s, v) || v == Target(g, Current(g, s)))
    ensures Reached(g, Examine(g, term, s), v)
  {
    ExamineColors(g, term, s, v);
  }

  lemma ExamineKeepsClosed(g: Graph, term: Terminator, vc: seq<Color>, u: nat, s: State)
    requires CanExamine(g, s) && VisitInv(g, term, vc, u, s)
    ensures Closed(g, term, vc, u, Examine(g, term, s))
  {
    var r := Examine(g, term, s);
    forall k, i | 0 <= k < |r.frames| && 0 <= i < r.frames[k].next && !term(r.frames[k].v)
      ensures Reached(g, r, FarEnd(g, r.frames[k].v, i))
    {
      ExamineFrames(g, term, s, k);
      if k < |s.frames| {
        if i < s.frames[k].next {
          assert Reached(g, s, FarEnd(g, s.frames[k].v, i));
        }
        ExamineKeepsReached(g, term, s, FarEnd(g, s.frames[k].v, i));
      }
    }
    forall v, i | 0 <= v < g.order && r.vc[v] == Black && New(vc, u, v) && !term(v) && 0 <= i < |OutEdges(g, v)|
      ensures Reached(g, r, FarEnd(g, v, i))
    {
      ExamineColors(g, term, s, v);
      assert Reached(g, s, FarEnd(g, v, i));
      ExamineKeepsReached(g, term, s, FarEnd(g, v, i));
    }
  }

  lemma ExamineKeepsVisitInv(g: Graph, term: Terminator, vc: seq<Color>, u: nat, s: State)
    requires CanExamine(g, s) && VisitInv(g, term, vc, u, s)
    ensures VisitInv(g, term, vc, u, Examine(g, term, s))
  {
    StepKeepsStack(g, term, s);
    ExamineKeepsSound(g, term, vc, u, s);
    ExamineKeepsGrows(g, term, vc, u, s);
    ExamineKeepsClosed(g, term, vc, u, s);
    var r := Examine(g, term, s);
    forall k | 0 <= k < |r.frames| && term(r.frames[k].v) ensures r.frames[k].next == |OutEdges(g, r.frames[k].v)| {
      ExamineFrames(g, term, s, k);
      assert s.frames[|s.frames| - 1] == Top(s);
    }
  }

  lemma FinishKeepsVisitInv(g: Graph, term: Terminator, vc: seq<Color>, u: nat, s: State)
    requires CanFinish(g, s) && VisitInv(g, term, vc, u, s)
    ensures VisitInv(g, term, vc, u, Finish(g, s))
  {
    var r := Finish(g, s);
    FinishKeepsStack(g, s);
    StackTop(g, s);
    assert s.frames[|s.frames| - 1] == Top(s);
    forall v ensures Reached(g, s, v) <==> Reached(g, r, v) {
    }
    forall k | 0 <= k < |r.frames|
      ensures r.frames[k] == s.frames[k] && New(vc, u, r.frames[k].v) && Reached(g, r, r.frames[k].v)
    {
      assert New(vc, u, s.frames[k].v) && Reached(g, s, s.frames[k].v);
    }
    assert Sound(g, term, vc, u, r) by {
      forall v | 0 <= v < g.order && r.vc[v] != White ensures vc[v] == Black || Reaches(g, term, vc, u, v) {
        assert s.vc[v] != White;
      }
    }
    assert Closed(g, term, vc, u, r);
  }

  lemma {:induction false} RunKeepsVisitInv(g: Graph, term: Terminator, vc: seq<Color>, u: nat, s: State)
    requires VisitInv(g, term, vc, u, s)
    ensures VisitInv(g, term, vc, u, Run(g, term, s))
    decreases WhiteVertices(s.vc), Pending(g, s.frames)
  {
    if s.frames != [] {
      StepDecreases(g, term, s);
      if Top(s).next < |OutEdges(g, Top(s).v)| {
        ExamineKeepsVisitInv(g, term, vc, u, s);
      } else {
        FinishKeepsVisitInv(g, term, vc, u, s);
      }
      RunKeepsVisitInv(g, term, vc, u, Step(g, term, s));
    }
  }

  lemma EnterVisitInv(g: Graph, term: Terminator, s: State, u: nat)
    requires Shape(g, s) && s.frames == [] && u < g.order && (forall v :: 0 <= v < g.order ==> s.vc[v] != Gray)
    ensures VisitInv(g, term, s.vc, u, Enter(g, term, s, u))
  {
    assert StackIsGreyPath(g, s);
    EnterKeepsStack(g, term, s, u);
    var r := Enter(g, term, s, u);
    forall v | 0 <= v < g.order && r.vc[v] != White ensures s.vc[v] == Black || Reaches(g, term, s.vc, u, v) {
      if v == u {
        assert OpenPath(g, term, s.vc, u, u, []);
      }
    }
  }

  lemma {:induction false} OpenPathBlack(g: Graph, term: Terminator, vc: seq<Color>, u: nat, s: State,
                                          a: nat, b: nat, w: seq<Descriptor>)
    requires VisitInv(g, term, vc, u, s) && s.frames == []
    requires New(vc, u, a) && s.vc[a] == Black && OpenPath(g, term, vc, a, b, w)
    ensures b < g.order && s.vc[b] == Black
    decreases |w|
  {
    if w != [] {
      var d := w[0];
      SlotExists(g, d);
      assert FarEnd(g, a, Slot(g, d)) == Target(g, d);
      assert Reached(g, s, FarEnd(g, a, Slot(g, d)));
      assert !OnStack(s.frames, Target(g, d));
      OpenPathBlack(g, term, vc, u, s, Target(g, d), b, w[1..]);
    }
  }

  /** A visit blackens exactly what the start reaches through vertices white on entry, going on
      only from vertices the terminator lets through; it leaves no grey vertex. */
  lemma VisitBlackensReachable(g: Graph, term: Terminator, s: State, u: nat, v: nat)
    requires Shape(g, s) && s.frames == [] && u < g.order && v < g.order
    requires forall x :: 0 <= x < g.order ==> s.vc[x] != Gray
    ensures Visit(g, term, s, u).vc[v] != Gray
    ensures Visit(g, term, s, u).vc[v] == Black <==> s.vc[v] == Black || Reaches(g, term, s.vc, u, v)
  {
    var r := Visit(g, term, s, u);
    assert s.(frames := []) == s;
    EnterVisitInv(g, term, s, u);
    RunKeepsVisitInv(g, term, s.vc, u, Enter(g, term, s, u));
    assert !OnStack(r.frames, u) && !OnStack(r.frames, v);
    if w :| OpenPath(g, term, s.vc, u, v, w) {
      OpenPathBlack(g, term, s.vc, u, r, u, v, w);
    }
  }
}
