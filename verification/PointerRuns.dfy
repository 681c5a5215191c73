/** Runs of whole pointer operations over the steps of Ledger.dfy: what the surplus of a cell is. */
module PointerRuns {
  import opened Wrappers
  import opened Ledger

  /** The operations of a pointer. An object handed to one of them as a raw pointer stands here as the
      cell `x` that it resolves to; `t` is the temporary pointer of an assignment. */
  datatype Op<P, C> =
    | Construct(p: P, x: Option<C>)
    | CopyOf(p: P, q: P)
    | Assign(p: P, q: P, t: P)
    | Exchange(p: P, q: P)
    | ResetTo(p: P, x: Option<C>)
    | Destroy(p: P)

  datatype History<P, C> = Begin | And(before: History<P, C>, op: Op<P, C>)

  /** The steps that an operation adds to a run. */
  ghost function Performed<P, C>(run: Run<P, C>, op: Op<P, C>): Run<P, C> {
    match op
    case Construct(p, x) => JoinRun(run, p, x)
    case CopyOf(p, q) => JoinRun(run, p, HeldBy(Replay(run), q))
    case Assign(p, q, t) => ReassignRun(run, p, t, HeldBy(Replay(run), q))
    case Exchange(p, q) => Then(run, Step.Swap(p, q))
    case ResetTo(p, x) => ResetRun(run, p, x)
    case Destroy(p) => DestroyRun(run, p)
  }

  lemma ResetPerformed<P, C>(run: Run<P, C>, p: P, x: Option<C>, held: Option<C>)
    requires HeldBy(Replay(run), p) == held
    ensures Performed(run, ResetTo(p, x)) == Then(RetargetRun(run, p, x), Release(held))
  {
  }

  lemma CopyPerformed<P, C>(run: Run<P, C>, p: P, q: P, x: Option<C>)
    requires HeldBy(Replay(run), q) == x
    ensures Performed(run, CopyOf(p, q)) == JoinRun(run, p, x)
  {
  }

  lemma DestroyPerformed<P, C>(run: Run<P, C>, p: P)
    ensures Performed(run, Op.Destroy(p)) == Then(Performed(run, ResetTo(p, None)), Leave(p))
  {
  }

  ghost function RunOf<P, C>(h: History<P, C>): Run<P, C> {
    match h
    case Begin => Start
    case And(before, op) => Performed(RunOf(before), op)
  }

  ghost function BookOf<P, C>(h: History<P, C>): Book<P, C> {
    Replay(RunOf(h))
  }

  /** Constructors make new pointers, everything else is done to live ones. */
  ghost predicate Allowed<P, C>(b: Book<P, C>, op: Op<P, C>) {
    match op
    case Construct(p, _) => p !in b.holds
    case CopyOf(p, q) => p !in b.holds && q in b.holds
    case Assign(p, q, t) => p in b.holds && q in b.holds && t !in b.holds
    case Exchange(p, q) => p in b.holds && q in b.holds
    case ResetTo(p, _) => p in b.holds
    case Destroy(p) => p in b.holds
  }

  ghost predicate Proper<P, C>(h: History<P, C>) {
    h.And? ==> Proper(h.before) && Allowed(BookOf(h.before), h.op)
  }

  /** The non-null resets that resolved to `c` since it has been there. */
  ghost function Resets<P, C>(h: History<P, C>, c: C): nat {
    match h
    case Begin => 0
    case And(before, op) =>
      if c in BookOf(h).counts then Resets(before, c) + One(op.ResetTo? && op.x == Some(c)) else 0
  }

  // ----- every operation is legal and leaves nothing in flight -----

  /** Between operations nothing is in flight. */
  ghost predicate Settled<P, C>(run: Run<P, C>) {
    Legal(run) && Replay(run).pending == multiset{}
  }

  lemma JoinSettles<P, C>(run: Run<P, C>, p: P, x: Option<C>)
    requires Settled(run) && p !in Replay(run).holds
    ensures Settled(JoinRun(run, p, x)) && Replay(JoinRun(run, p, x)) == Joined(Replay(run), p, x)
  {
    JoinedSettles(Replay(run), p, x);
    var r := Then(run, Manage(x));
    assert Replay(r) == Managed(Replay(run), x);
    assert Legal(r);
  }

  lemma StepAdded<P, C>(run: Run<P, C>, s: Step<P, C>)
    requires Legal(run) && Enabled(Replay(run), s)
    ensures Legal(Then(run, s)) && Replay(Then(run, s)) == After(Replay(run), s)
  {
  }

  lemma ManagedFlight<P, C>(b: Book<P, C>, x: Option<C>)
    ensures Managed(b, x).pending == b.pending + Flight(x) && Managed(b, x).holds == b.holds
    ensures Lost(b, x).pending == b.pending - Flight(x) && Lost(b, x).holds == b.holds
  {
  }

  lemma CountedTwiceLegal<P, C>(run: Run<P, C>, x: Option<C>) returns (r: Run<P, C>)
    requires Settled(run)
    ensures r == Then(Then(Then(run, Manage(x)), Manage(x)), Lose(x)) && Legal(r)
    ensures Replay(r).pending == Flight(x) && Replay(r).holds == Replay(run).holds
  {
    var r1 := Then(run, Manage(x));
    StepAdded(run, Manage(x));
    ManagedFlight(Replay(run), x);
    var r2 := Then(r1, Manage(x));
    StepAdded(r1, Manage(x));
    ManagedFlight(Replay(r1), x);
    r := Then(r2, Lose(x));
    StepAdded(r2, Lose(x));
    ManagedFlight(Replay(r2), x);
  }

  lemma RetargetSettles<P, C>(run: Run<P, C>, p: P, x: Option<C>)
    requires Settled(run)
    ensures Legal(RetargetRun(run, p, x)) && Replay(RetargetRun(run, p, x)).pending == Flight(HeldBy(Replay(run), p))
  {
    var r := CountedTwiceLegal(run, x);
    StepAdded(r, Land(p, x));
  }

  lemma ResetSettles<P, C>(run: Run<P, C>, p: P, x: Option<C>)
    requires Settled(run)
    ensures Settled(ResetRun(run, p, x))
  {
    RetargetSettles(run, p, x);
  }

  lemma DestroySettles<P, C>(run: Run<P, C>, p: P)
    requires Settled(run)
    ensures Settled(DestroyRun(run, p))
  {
    ResetSettles(run, p, None);
    ResetInRun(run, p, None);
  }

  lemma ReassignSettles<P, C>(run: Run<P, C>, p: P, t: P, x: Option<C>)
    requires Settled(run) && p in Replay(run).holds && t !in Replay(run).holds
    ensures Settled(ReassignRun(run, p, t, x))
  {
    JoinSettles(run, t, x);
    JoinedSettles(Replay(run), t, x);
    var s := Then(JoinRun(run, t, x), Step.Swap(p, t));
    assert Settled(s);
    DestroySettles(s, t);
  }

  lemma PerformedSettles<P, C>(run: Run<P, C>, op: Op<P, C>)
    requires Settled(run) && Allowed(Replay(run), op)
    ensures Settled(Performed(run, op))
  {
    match op
    case Construct(p, x) => JoinSettles(run, p, x);
    case CopyOf(p, q) => JoinSettles(run, p, HeldBy(Replay(run), q));
    case Assign(p, q, t) => ReassignSettles(run, p, t, HeldBy(Replay(run), q));
    case Exchange(p, q) =>
    case ResetTo(p, x) => ResetSettles(run, p, x);
    case Destroy(p) => DestroySettles(run, p);
  }

  lemma {:induction false} HistorySettles<P, C>(h: History<P, C>)
    requires Proper(h)
    ensures Settled(RunOf(h))
  {
    if h.And? {
      HistorySettles(h.before);
      PerformedSettles(RunOf(h.before), h.op);
    }
  }

  // ----- what each operation does to the surplus -----

  lemma JoinedSurplus<P, C>(b: Book<P, C>, p: P, x: Option<C>, c: C)
    ensures At(Joined(b, p, x).surplus, c) == At(b.surplus, c)
  {
  }

  /** Of a cell that is there afterwards, only a reset to it moves the surplus, by one. */
  lemma PerformedSurplus<P, C>(run: Run<P, C>, op: Op<P, C>, c: C)
    requires Settled(run) && Allowed(Replay(run), op) && c in Replay(Performed(run, op)).counts
    ensures At(Replay(Performed(run, op)).surplus, c)
         == At(Replay(run).surplus, c) + One(op.ResetTo? && op.x == Some(c))
  {
    match op
    case Construct(p, x) =>
      JoinSettles(run, p, x);
      JoinedSurplus(Replay(run), p, x, c);
    case CopyOf(p, q) =>
      JoinSettles(run, p, HeldBy(Replay(run), q));
      JoinedSurplus(Replay(run), p, HeldBy(Replay(run), q), c);
    case Assign(p, q, t) => ReassignInRun(run, p, t, q);
    case Exchange(p, q) =>
    case ResetTo(p, x) => ResetInRun(run, p, x);
    case Destroy(p) => DestroyInRun(run, p);
  }

  /** In every history the surplus of a cell is the number of non-null resets that resolved to it since
      it has been there. */
  lemma {:induction false} SurplusIsResets<P, C>(h: History<P, C>, c: C)
    requires Proper(h)
    ensures At(BookOf(h).surplus, c) == Resets(h, c)
  {
    HistorySettles(h);
    var b := RunsBalance(RunOf(h));
    if h.And? && c in b.counts {
      HistorySettles(h.before);
      SurplusIsResets(h.before, c);
      PerformedSurplus(RunOf(h.before), h.op, c);
    }
  }

  /** In every history the counter of a cell is the number of its holders plus the number of resets to
      it; what is held is there; and a cell without such a reset is there exactly while it is held. */
  lemma CountersInHistory<P, C>(h: History<P, C>, c: C)
    requires Proper(h)
    ensures c in BookOf(h).counts ==> BookOf(h).counts[c] == |HoldersOf(BookOf(h).holds, c)| + Resets(h, c)
    ensures HoldersOf(BookOf(h).holds, c) != {} ==> c in BookOf(h).counts
    ensures Resets(h, c) == 0 ==> (c in BookOf(h).counts <==> HoldersOf(BookOf(h).holds, c) != {})
  {
    HistorySettles(h);
    SurplusIsResets(h, c);
    CountersInRun(RunOf(h), c);
  }

  lemma PerformedKeeps<P, C>(run: Run<P, C>, op: Op<P, C>, c: C)
    requires Settled(run) && Allowed(Replay(run), op) && c in Replay(run).counts && At(Replay(run).surplus, c) > 0
    ensures c in Replay(Performed(run, op)).counts
  {
    match op
    case Construct(p, x) => JoinSettles(run, p, x);
    case CopyOf(p, q) => JoinSettles(run, p, HeldBy(Replay(run), q));
    case Assign(p, q, t) => ReassignInRun(run, p, t, q);
    case Exchange(p, q) =>
    case ResetTo(p, x) => ResetInRun(run, p, x);
    case Destroy(p) => DestroyInRun(run, p);
  }

  /** An operation keeps a cell that a reset has resolved to. */
  lemma ResetKeepsOn<P, C>(h: History<P, C>, op: Op<P, C>, c: C)
    requires Proper(And(h, op)) && c in BookOf(h).counts && Resets(h, c) > 0
    ensures c in BookOf(And(h, op)).counts && Resets(And(h, op), c) >= Resets(h, c)
  {
    HistorySettles(h);
    SurplusIsResets(h, c);
    PerformedKeeps(RunOf(h), op, c);
  }

  ghost predicate Later<P, C>(h: History<P, C>, l: History<P, C>) {
    l == h || (l.And? && Later(h, l.before))
  }

  /** A cell that a reset has resolved to is never dropped again, whatever operations follow. */
  lemma {:induction false} ResetKeepsForever<P, C>(h: History<P, C>, l: History<P, C>, c: C)
    requires Proper(l) && Later(h, l) && c in BookOf(h).counts && Resets(h, c) > 0
    ensures c in BookOf(l).counts && Resets(l, c) >= Resets(h, c)
  {
    if l != h {
      ResetKeepsForever(h, l.before, c);
      ResetKeepsOn(l.before, l.op, c);
    }
  }
}
