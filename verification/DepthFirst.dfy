/** The traversal of utilmm/undirected_dfs.hh as a machine on values: one step is one turn of the
    inner loop, or the exit of that loop. The class `Search` in UndirectedDfs.dfy runs it in place. */
module DepthFirst {
  import opened UndirectedGraph

  datatype Color = White | Gray | Black

  /** A vertex with the number of its incident edges already consumed. */
  datatype Frame = Frame(v: nat, next: nat)

  datatype Event =
    | InitializeVertex(v: nat)
    | StartVertex(v: nat)
    | DiscoverVertex(v: nat)
    | ExamineEdge(d: Descriptor)
    | TreeEdge(d: Descriptor)
    | BackEdge(d: Descriptor)
    | ForwardOrCrossEdge(d: Descriptor)
    | FinishVertex(v: nat)

  /** `frames` is the explicit stack with the current vertex on top; `trace` the visitor calls. */
  datatype State = State(vc: seq<Color>, ec: seq<Color>, frames: seq<Frame>, trace: seq<Event>)

  type Terminator = nat -> bool

  function NeverStop(v: nat): bool { false }

  ghost predicate Shape(g: Graph, s: State) {
    && WellFormed(g)
    && |s.vc| == g.order
    && |s.ec| == |g.edges|
    && (forall k :: 0 <= k < |s.frames| ==>
      s.frames[k].v < g.order && s.frames[k].next <= |OutEdges(g, s.frames[k].v)|)
  }

  function Top(s: State): Frame
    requires s.frames != []
  {
    s.frames[|s.frames| - 1]
  }

  function Rest(s: State): seq<Frame>
    requires s.frames != []
  {
    s.frames[..|s.frames| - 1]
  }

  ghost predicate CanExamine(g: Graph, s: State) {
    Shape(g, s) && s.frames != [] && Top(s).next < |OutEdges(g, Top(s).v)|
  }

  ghost predicate CanFinish(g: Graph, s: State) {
    Shape(g, s) && s.frames != [] && Top(s).next == |OutEdges(g, Top(s).v)|
  }

  /** Discover `v`: the terminator hides all its edges. */
  function Enter(g: Graph, term: Terminator, s: State, v: nat): (r: State)
    requires Shape(g, s) && v < g.order
    ensures Shape(g, r)
  {
    State(s.vc[v := Gray], s.ec,
      s.frames + [Frame(v, if term(v) then |OutEdges(g, v)| else 0)],
      s.trace + [DiscoverVertex(v)])
  }

  function Current(g: Graph, s: State): (d: Descriptor)
    requires CanExamine(g, s)
    ensures Valid(g, d) && Source(g, d) == Top(s).v && Target(g, d) < g.order
  {
    IncidentSource(g, Top(s).v, Top(s).next);
    OutEdges(g, Top(s).v)[Top(s).next]
  }

  /** Consume the current edge: move past it, colour it, report it. */
  function Consume(g: Graph, s: State): (r: State)
    requires CanExamine(g, s)
    ensures Shape(g, r)
  {
    State(s.vc, Put(s.ec, Current(g, s), Black),
      Rest(s) + [Frame(Top(s).v, Top(s).next + 1)],
      s.trace + [ExamineEdge(Current(g, s))])
  }

  function Report(s: State, e: Event): State {
    s.(trace := s.trace + [e])
  }

  function Examine(g: Graph, term: Terminator, s: State): (r: State)
    requires CanExamine(g, s)
    ensures Shape(g, r)
  {
    var d := Current(g, s);
    var s1 := Consume(g, s);
    match s.vc[Target(g, d)]
    case White => Enter(g, term, Report(s1, TreeEdge(d)), Target(g, d))
    case Gray => if Get(s.ec, d) == White then Report(s1, BackEdge(d)) else s1
    case Black => Report(s1, ForwardOrCrossEdge(d))
  }

  function Finish(g: Graph, s: State): (r: State)
    requires CanFinish(g, s)
    ensures Shape(g, r)
  {
    State(s.vc[Top(s).v := Black], s.ec, Rest(s), s.trace + [FinishVertex(Top(s).v)])
  }

  function Step(g: Graph, term: Terminator, s: State): (r: State)
    requires Shape(g, s) && s.frames != []
    ensures Shape(g, r)
  {
    if Top(s).next < |OutEdges(g, Top(s).v)| then Examine(g, term, s) else Finish(g, s)
  }

  // ----- termination -----

  function WhiteVertices(vc: seq<Color>): set<nat> {
    set v: nat | v < |vc| && vc[v] == White
  }

  /** Unread edge slots on the stack, plus one for each frame still to be finished. */
  function Pending(g: Graph, frames: seq<Frame>): nat
    requires forall k :: 0 <= k < |frames| ==> frames[k].v < |g.ins| && frames[k].v < |g.outs|
    requires forall k :: 0 <= k < |frames| ==> frames[k].next <= |OutEdges(g, frames[k].v)|
  {
    if frames == [] then 0
    else
      var f := frames[|frames| - 1];
      Pending(g, frames[..|frames| - 1]) + |OutEdges(g, f.v)| - f.next + 1
  }

  lemma PendingPush(g: Graph, frames: seq<Frame>, f: Frame)
    requires forall k :: 0 <= k < |frames| ==> frames[k].v < |g.ins| && frames[k].v < |g.outs|
    requires forall k :: 0 <= k < |frames| ==> frames[k].next <= |OutEdges(g, frames[k].v)|
    requires f.v < |g.ins| && f.v < |g.outs| && f.next <= |OutEdges(g, f.v)|
    ensures Pending(g, frames + [f]) == Pending(g, frames) + |OutEdges(g, f.v)| - f.next + 1
  {
    assert (frames + [f])[..|frames|] == frames;
  }

  lemma TopPending(g: Graph, s: State)
    requires Shape(g, s) && s.frames != []
    ensures Pending(g, s.frames) == Pending(g, Rest(s)) + |OutEdges(g, Top(s).v)| - Top(s).next + 1
  {
    assert s.frames == Rest(s) + [Top(s)];
    PendingPush(g, Rest(s), Top(s));
  }

  lemma FinishDecreases(g: Graph, s: State)
    requires CanFinish(g, s)
    ensures WhiteVertices(Finish(g, s).vc) <= WhiteVertices(s.vc)
    ensures Pending(g, Finish(g, s).frames) < Pending(g, s.frames)
  {
    TopPending(g, s);
  }

  lemma ExamineDecreases(g: Graph, term: Terminator, s: State)
    requires CanExamine(g, s)
    ensures var r := Examine(g, term, s);
      if s.vc[Target(g, Current(g, s))] == White then WhiteVertices(r.vc) < WhiteVertices(s.vc)
      else r.vc == s.vc && Pending(g, r.frames) < Pending(g, s.frames)
  {
    var r, v := Examine(g, term, s), Target(g, Current(g, s));
    if s.vc[v] == White {
      assert v in WhiteVertices(s.vc) && v !in WhiteVertices(r.vc);
      assert WhiteVertices(r.vc) <= WhiteVertices(s.vc);
    } else {
      TopPending(g, s);
      PendingPush(g, Rest(s), Frame(Top(s).v, Top(s).next + 1));
    }
  }

  /** Each step turns a white vertex grey, or else uses up a slot or a frame. */
  lemma StepDecreases(g: Graph, term: Terminator, s: State)
    requires Shape(g, s) && s.frames != []
    ensures var r := Step(g, term, s);
      || WhiteVertices(r.vc) < WhiteVertices(s.vc)
      || (WhiteVertices(r.vc) <= WhiteVertices(s.vc) && Pending(g, r.frames) < Pending(g, s.frames))
  {
    if Top(s).next < |OutEdges(g, Top(s).v)| {
      ExamineDecreases(g, term, s);
    } else {
      FinishDecreases(g, s);
    }
  }

  /** Run until the stack is empty. */
  function Run(g: Graph, term: Terminator, s: State): (r: State)
    requires Shape(g, s)
    ensures Shape(g, r) && r.frames == []
    decreases WhiteVertices(s.vc), Pending(g, s.frames)
  {
    if s.frames == [] then s
    else
      StepDecreases(g, term, s);
      Run(g, term, Step(g, term, s))
  }

  /** `undirected_depth_first_visit` from `u`. */
  function Visit(g: Graph, term: Terminator, s: State, u: nat): (r: State)
    requires Shape(g, s) && u < g.order
    ensures Shape(g, r) && r.frames == []
  {
    Run(g, term, Enter(g, term, s.(frames := []), u))
  }

  function InitialEvents(n: nat): (t: seq<Event>)
    ensures |t| == n && forall i :: 0 <= i < n ==> t[i] == InitializeVertex(i)
  {
    if n == 0 then [] else InitialEvents(n - 1) + [InitializeVertex(n - 1)]
  }

  function Initial(g: Graph): (s: State)
    requires WellFormed(g)
    ensures Shape(g, s)
  {
    State(seq(g.order, _ => White), seq(|g.edges|, _ => White), [], InitialEvents(g.order))
  }

  function StartAt(g: Graph, s: State, u: nat): (r: State)
    requires Shape(g, s) && u < g.order && s.frames == []
    ensures Shape(g, r) && r.frames == []
  {
    Visit(g, NeverStop, Report(s, StartVertex(u)), u)
  }

  /** The second loop of `undirected_dfs`, from vertex `u` on. */
  function Sweep(g: Graph, s: State, u: nat): (r: State)
    requires Shape(g, s) && u <= g.order && s.frames == []
    ensures Shape(g, r) && r.frames == []
    decreases g.order - u
  {
    if u == g.order then s
    else Sweep(g, if s.vc[u] == White then StartAt(g, s, u) else s, u + 1)
  }

  /** `undirected_dfs`: a start vertex other than the first is visited before the others. */
  function Traverse(g: Graph, start: nat): (r: State)
    requires WellFormed(g) && start < g.order
    ensures Shape(g, r) && r.frames == []
  {
    Sweep(g, if start != 0 then StartAt(g, Initial(g), start) else Initial(g), 0)
  }
}
