/** The bookkeeping behind reference counting, as values: who holds what, what the counters say, and
    what they count beyond the holders. */
module Ledger {
  import opened Wrappers

  /** Holders `P` hold cells `C`. Each counted cell has a counter and a surplus, which no holder will
      ever give back; `pending` are the references in flight inside an operation. */
  datatype Book<P, C> = Book(holds: map<P, Option<C>>, counts: map<C, nat>, surplus: map<C, nat>, pending: multiset<C>)

  /** The holders of cell `c`. */
  function HoldersOf<P, C(==)>(holds: map<P, Option<C>>, c: C): set<P> {
    set p | p in holds && holds[p] == Some(c)
  }

  /** Every counter is positive and is the number of holders of its cell, plus its references in
      flight, plus its surplus; what is held or in flight is counted. */
  ghost predicate Balanced<P, C>(b: Book<P, C>) {
    && b.surplus.Keys == b.counts.Keys
    && (forall p :: p in b.holds && b.holds[p].Some? ==> b.holds[p].value in b.counts)
    && (forall c :: c in b.pending ==> c in b.counts)
    && (forall c :: c in b.counts ==> b.counts[c] == |HoldersOf(b.holds, c)| + b.surplus[c] + b.pending[c])
    && (forall c :: c in b.counts ==> b.counts[c] > 0)
  }

  type Account<P, C> = b: Book<P, C> | Balanced(b) ghost witness Book(map[], map[], map[], multiset{})

  function Flight<C>(x: Option<C>): multiset<C> {
    if x.Some? then multiset{x.value} else multiset{}
  }

  function One(b: bool): nat {
    if b then 1 else 0
  }

  function At<C>(m: map<C, nat>, c: C): nat {
    if c in m then m[c] else 0
  }

  function HeldBy<P, C>(b: Book<P, C>, p: P): Option<C> {
    if p in b.holds then b.holds[p] else None
  }

  // ----- the steps of the operations -----

  /** `manage` of an object that resolves to `x`, a new cell or a known one, counted once more. */
  ghost function Managed<P, C>(b: Book<P, C>, x: Option<C>): Book<P, C> {
    if x.None? then b
    else
      Book(b.holds, b.counts[x.value := At(b.counts, x.value) + 1], b.surplus[x.value := At(b.surplus, x.value)],
           b.pending + multiset{x.value})
  }

  /** A reference in flight that will never land becomes surplus. */
  ghost function Lost<P, C>(b: Book<P, C>, x: Option<C>): Book<P, C> {
    if x.None? then b
    else b.(surplus := b.surplus[x.value := At(b.surplus, x.value) + 1], pending := b.pending - multiset{x.value})
  }

  /** `pointee = x`: `x` lands in `p`, a new holder or not, and what `p` held comes into flight. */
  ghost function Landed<P, C>(b: Book<P, C>, p: P, x: Option<C>): Book<P, C> {
    b.(holds := b.holds[p := x], pending := b.pending - Flight(x) + Flight(HeldBy(b, p)))
  }

  /** `release`: one reference is given back; a cell whose counter drops to zero is dropped. */
  ghost function Released<P, C>(b: Book<P, C>, x: Option<C>): Book<P, C> {
    if x.None? then b
    else if At(b.counts, x.value) > 1 then
      b.(counts := b.counts[x.value := At(b.counts, x.value) - 1], pending := b.pending - multiset{x.value})
    else b.(counts := b.counts - {x.value}, surplus := b.surplus - {x.value}, pending := b.pending - multiset{x.value})
  }

  /** A holder goes away. */
  ghost function Left<P, C>(b: Book<P, C>, p: P): Book<P, C> {
    b.(holds := b.holds - {p})
  }

  /** `swap`: two holders exchange what they hold. */
  ghost function Swapped<P, C>(b: Book<P, C>, p: P, q: P): Book<P, C> {
    b.(holds := b.holds[p := HeldBy(b, q)][q := HeldBy(b, p)])
  }

  // ----- each step keeps the balance -----

  lemma ManagedBalanced<P, C>(b: Account<P, C>, x: Option<C>) returns (r: Account<P, C>)
    ensures r == Managed(b, x)
    ensures r.pending == b.pending + Flight(x)
  {
    r := b;
    if x.Some? {
      if x.value !in b.counts {
        assert HoldersOf(b.holds, x.value) == {};
      }
      assert Balanced(Managed(b, x));
      r := Managed(b, x);
    }
  }

  lemma LostBalanced<P, C>(b: Account<P, C>, x: Option<C>) returns (r: Account<P, C>)
    requires x.Some? ==> x.value in b.pending
    ensures r == Lost(b, x)
    ensures r.pending == b.pending - Flight(x)
  {
    assert Balanced(Lost(b, x));
    r := Lost(b, x);
  }

  lemma HoldersGain<P, C>(holds: map<P, Option<C>>, p: P, x: Option<C>, c: C)
    ensures HoldersOf(holds[p := x], c) == if x == Some(c) then HoldersOf(holds, c) + {p} else HoldersOf(holds, c) - {p}
    ensures p in HoldersOf(holds, c) <==> p in holds && holds[p] == Some(c)
  {
  }

  /** Landing moves one reference to `c` at most, between the holders and the flight. */
  lemma LandedCount<P, C>(b: Book<P, C>, p: P, x: Option<C>, c: C)
    requires x.Some? ==> x.value in b.pending
    ensures |HoldersOf(Landed(b, p, x).holds, c)| + Landed(b, p, x).pending[c] == |HoldersOf(b.holds, c)| + b.pending[c]
  {
    HoldersGain(b.holds, p, x, c);
  }

  lemma LandedParts<P, C>(b: Account<P, C>, p: P, x: Option<C>)
    requires x.Some? ==> x.value in b.pending
    ensures forall c :: c in Landed(b, p, x).pending ==> c in b.counts
    ensures forall q :: q in Landed(b, p, x).holds && Landed(b, p, x).holds[q].Some? ==>
      Landed(b, p, x).holds[q].value in b.counts
  {
    forall c | c in Landed(b, p, x).pending ensures c in b.counts {
      assert c in b.pending || HeldBy(b, p) == Some(c);
    }
  }

  lemma LandedBalanced<P, C>(b: Account<P, C>, p: P, x: Option<C>) returns (r: Account<P, C>)
    requires x.Some? ==> x.value in b.pending
    ensures r == Landed(b, p, x)
    ensures b.pending == Flight(x) ==> r.pending == Flight(HeldBy(b, p))
  {
    var a := Landed(b, p, x);
    LandedParts(b, p, x);
    forall c | c in b.counts ensures b.counts[c] == |HoldersOf(a.holds, c)| + b.surplus[c] + a.pending[c] {
      LandedCount(b, p, x, c);
    }
    r := a;
  }

  /** A cell is dropped only when nothing holds it and it has no surplus. */
  lemma ReleasedBalanced<P, C>(b: Account<P, C>, x: Option<C>) returns (r: Account<P, C>)
    requires x.Some? ==> x.value in b.pending
    ensures r == Released(b, x)
    ensures r.pending == b.pending - Flight(x)
    ensures x.Some? ==> x.value in b.counts && b.counts[x.value] > 0 && x.value in b.surplus
    ensures x.Some? && x.value !in r.counts ==> b.surplus[x.value] == 0
  {
    if x.Some? && b.counts[x.value] == 1 {
      assert HoldersOf(b.holds, x.value) == {};
      forall p | p in b.holds && b.holds[p].Some? ensures b.holds[p].value != x.value {
        assert p in HoldersOf(b.holds, b.holds[p].value);
      }
    }
    r := Released(b, x);
  }

  lemma LeftBalanced<P, C>(b: Account<P, C>, p: P) returns (r: Account<P, C>)
    requires p in b.holds && b.holds[p] == None
    ensures r == Left(b, p)
  {
    forall c | c in b.counts ensures HoldersOf(b.holds - {p}, c) == HoldersOf(b.holds, c) {
    }
    r := Left(b, p);
  }

  lemma SwappedCount<P, C>(b: Book<P, C>, p: P, q: P, c: C)
    requires p in b.holds && q in b.holds
    ensures |HoldersOf(Swapped(b, p, q).holds, c)| == |HoldersOf(b.holds, c)|
  {
    HoldersGain(b.holds, p, b.holds[q], c);
    HoldersGain(b.holds[p := b.holds[q]], q, b.holds[p], c);
    assert q in HoldersOf(b.holds, c) <==> b.holds[q] == Some(c);
  }

  lemma SwappedBalanced<P, C>(b: Account<P, C>, p: P, q: P) returns (r: Account<P, C>)
    requires p in b.holds && q in b.holds
    ensures r == Swapped(b, p, q)
  {
    forall c | c in b.counts ensures |HoldersOf(Swapped(b, p, q).holds, c)| == |HoldersOf(b.holds, c)| {
      SwappedCount(b, p, q, c);
    }
    r := Swapped(b, p, q);
  }

  // ----- whole operations -----

  /** `manage` and the `assign` of `reset` both count, but one of the two references will land. */
  ghost function CountedTwice<P, C>(b: Book<P, C>, x: Option<C>): Book<P, C> {
    Lost(Managed(Managed(b, x), x), x)
  }

  lemma CountedTwiceHolds<P, C>(b: Book<P, C>, x: Option<C>)
    ensures CountedTwice(b, x).holds == b.holds
  {
  }

  lemma CountedTwiceBalanced<P, C>(b: Account<P, C>, x: Option<C>) returns (r: Account<P, C>)
    requires b.pending == multiset{}
    ensures r == CountedTwice(b, x) && r.pending == Flight(x)
  {
    r := ManagedBalanced(b, x);
    r := ManagedBalanced(r, x);
    r := LostBalanced(r, x);
  }

  /** `reset`: `p` takes `x` and gives back what it held. */
  ghost function Reset<P, C>(b: Book<P, C>, p: P, x: Option<C>): Book<P, C> {
    Released(Landed(CountedTwice(b, x), p, x), HeldBy(b, p))
  }

  /** What a reset of `p` does: `p` holds `x`; only the surplus of `x` grows; and of the cells there
      were, exactly those that nothing holds and that had no surplus are gone. */
  ghost predicate ResetEffect<P, C>(b: Book<P, C>, p: P, x: Option<C>, r: Book<P, C>) {
    && r.holds == b.holds[p := x] && r.pending == multiset{}
    && (forall c :: c in r.counts ==> At(r.surplus, c) == At(b.surplus, c) + One(x == Some(c)))
    && (forall c :: c in b.counts ==> (c in r.counts <==> HoldersOf(r.holds, c) != {} || At(b.surplus, c) > 0))
  }

  lemma CountedTwiceFields<P, C>(b: Book<P, C>, x: Option<C>, c: C)
    ensures c in b.counts ==> c in CountedTwice(b, x).counts
    ensures At(CountedTwice(b, x).surplus, c) == At(b.surplus, c) + One(x == Some(c))
  {
  }

  lemma ResetFields<P, C>(b: Book<P, C>, p: P, x: Option<C>, c: C)
    ensures Reset(b, p, x).holds == b.holds[p := x]
    ensures c in Reset(b, p, x).counts ==> At(Reset(b, p, x).surplus, c) == At(b.surplus, c) + One(x == Some(c))
  {
    var t := CountedTwice(b, x);
    CountedTwiceHolds(b, x);
    CountedTwiceFields(b, x, c);
    ReleasedFields(Landed(t, p, x), HeldBy(b, p), c);
  }

  lemma ReleasedFields<P, C>(b: Book<P, C>, x: Option<C>, c: C)
    ensures Released(b, x).holds == b.holds
    ensures c in Released(b, x).counts ==> At(Released(b, x).surplus, c) == At(b.surplus, c)
    ensures c in b.counts && c !in Released(b, x).counts ==> x == Some(c)
  {
  }

  lemma RetargetedBalanced<P, C>(b: Account<P, C>, p: P, x: Option<C>) returns (l: Account<P, C>)
    requires b.pending == multiset{}
    ensures l == Landed(CountedTwice(b, x), p, x) && l.pending == Flight(HeldBy(b, p))
  {
    var t := CountedTwiceBalanced(b, x);
    assert HeldBy(t, p) == HeldBy(b, p) by { CountedTwiceHolds(b, x); }
    l := LandedBalanced(t, p, x);
  }

  lemma ResetBalanced<P, C>(b: Account<P, C>, p: P, x: Option<C>) returns (r: Account<P, C>)
    requires b.pending == multiset{}
    ensures r == Reset(b, p, x) && r.pending == multiset{}
  {
    var l := RetargetedBalanced(b, p, x);
    r := ReleasedBalanced(l, HeldBy(b, p));
  }

  lemma ResetDrops<P, C>(b: Account<P, C>, p: P, x: Option<C>, c: C)
    requires b.pending == multiset{} && c in b.counts && c !in Reset(b, p, x).counts
    ensures At(b.surplus, c) == 0
  {
    var l := RetargetedBalanced(b, p, x);
    assert HeldBy(b, p) == Some(c) && c in l.counts && At(b.surplus, c) <= At(l.surplus, c) by {
      CountedTwiceFields(b, x, c);
      ReleasedFields(l, HeldBy(b, p), c);
    }
    var r := ReleasedBalanced(l, Some(c));
  }

  lemma ResetMeans<P, C>(b: Account<P, C>, p: P, x: Option<C>) returns (r: Account<P, C>)
    requires b.pending == multiset{}
    ensures r == Reset(b, p, x) && ResetEffect(b, p, x, r)
  {
    r := ResetBalanced(b, p, x);
    forall c
      ensures r.holds == b.holds[p := x]
      ensures c in r.counts ==> At(r.surplus, c) == At(b.surplus, c) + One(x == Some(c))
    {
      ResetFields(b, p, x, c);
    }
    forall c | c in b.counts ensures c in r.counts <==> HoldersOf(r.holds, c) != {} || At(b.surplus, c) > 0 {
      if c !in r.counts {
        ResetDrops(b, p, x, c);
      }
      HeldIsCounted(r, c);
      HoldersGain(b.holds, p, x, c);
    }
  }

  /** A held cell is counted; a cell without surplus and flight is held. */
  lemma HeldIsCounted<P, C>(b: Account<P, C>, c: C)
    ensures HoldersOf(b.holds, c) != {} ==> c in b.counts
    ensures c in b.counts && b.pending == multiset{} ==>
      c in b.surplus && b.counts[c] == |HoldersOf(b.holds, c)| + b.surplus[c]
    ensures c in b.counts && b.pending == multiset{} && b.surplus[c] == 0 ==> HoldersOf(b.holds, c) != {}
  {
    if HoldersOf(b.holds, c) != {} {
      var p :| p in HoldersOf(b.holds, c);
    }
  }

  /** A new pointer: its reference is counted and lands, nothing stays in flight. */
  ghost function Joined<P, C>(b: Book<P, C>, p: P, x: Option<C>): Book<P, C> {
    Landed(Managed(b, x), p, x)
  }

  lemma JoinedSettles<P, C>(b: Book<P, C>, p: P, x: Option<C>)
    requires b.pending == multiset{} && p !in b.holds
    ensures Joined(b, p, x).pending == multiset{} && Enabled(Managed(b, x), Land(p, x))
    ensures Joined(b, p, x).holds == b.holds[p := x] && Joined(b, p, x).counts == Managed(b, x).counts
  {
  }

  /** The destructor: `reset` to null, then the holder is gone. */
  ghost function Destroyed<P, C>(b: Book<P, C>, p: P): Book<P, C> {
    Left(Reset(b, p, None), p)
  }

  /** `operator=`: a copy `t` of the right hand side is swapped with `p` and destroyed. */
  ghost function Reassigned<P, C>(b: Book<P, C>, p: P, t: P, x: Option<C>): Book<P, C> {
    Destroyed(Swapped(Joined(b, t, x), p, t), t)
  }

  /** Holders changed to `holds`, no surplus changed, and exactly the unheld cells without surplus are
      gone. */
  ghost predicate Rehung<P, C>(b: Book<P, C>, holds: map<P, Option<C>>, r: Book<P, C>) {
    && r.holds == holds && r.pending == multiset{}
    && (forall c :: c in r.counts ==> At(r.surplus, c) == At(b.surplus, c))
    && (forall c :: c in b.counts ==> (c in r.counts <==> HoldersOf(holds, c) != {} || At(b.surplus, c) > 0))
  }

  lemma HoldersWithout<P, C>(holds: map<P, Option<C>>, p: P, c: C)
    requires p in holds ==> holds[p] == None
    ensures HoldersOf(holds - {p}, c) == HoldersOf(holds, c)
  {
  }

  lemma LeftMeans<P, C>(b: Book<P, C>, p: P, m: Book<P, C>)
    requires ResetEffect(b, p, None, m)
    ensures Rehung(b, b.holds - {p}, Left(m, p))
  {
    assert m.holds - {p} == b.holds - {p};
    forall c | c in b.counts ensures c in m.counts <==> HoldersOf(b.holds - {p}, c) != {} || At(b.surplus, c) > 0 {
      HoldersWithout(m.holds, p, c);
    }
  }

  lemma DestroyedMeans<P, C>(b: Account<P, C>, p: P) returns (r: Account<P, C>)
    requires b.pending == multiset{}
    ensures r == Destroyed(b, p) && Rehung(b, b.holds - {p}, r)
  {
    var m := ResetMeans(b, p, None);
    r := LeftBalanced(m, p);
    LeftMeans(b, p, m);
  }

  lemma WithoutTemporary<P, C>(holds: map<P, Option<C>>, p: P, t: P, x: Option<C>, y: Option<C>)
    requires t !in holds && t != p
    ensures holds[t := x][p := y] - {t} == holds[p := y]
  {
  }

  lemma JoinedFields<P, C>(b: Book<P, C>, p: P, x: Option<C>)
    requires b.surplus.Keys == b.counts.Keys && (x.Some? ==> x.value in b.counts)
    ensures Joined(b, p, x).holds == b.holds[p := x]
    ensures Joined(b, p, x).counts.Keys == b.counts.Keys && Joined(b, p, x).surplus == b.surplus
  {
  }

  lemma JoinedBalanced<P, C>(b: Account<P, C>, p: P, x: Option<C>) returns (r: Account<P, C>)
    requires b.pending == multiset{} && p !in b.holds
    ensures r == Joined(b, p, x) && r.pending == multiset{}
  {
    JoinedSettles(b, p, x);
    r := ManagedBalanced(b, x);
    r := LandedBalanced(r, p, x);
  }

  lemma SwapWithNew<P, C>(j: Book<P, C>, holds: map<P, Option<C>>, p: P, t: P, x: Option<C>)
    requires p in holds && t !in holds && j.holds == holds[t := x]
    ensures Swapped(j, p, t).holds - {t} == holds[p := x]
  {
  }

  lemma CopySwapped<P, C>(b: Account<P, C>, p: P, t: P, x: Option<C>) returns (s: Account<P, C>)
    requires b.pending == multiset{} && p in b.holds && t !in b.holds && (x.Some? ==> x.value in b.counts)
    ensures s == Swapped(Joined(b, t, x), p, t) && s.pending == multiset{}
  {
    var j := JoinedBalanced(b, t, x);
    s := SwappedBalanced(j, p, t);
  }

  lemma CopySwappedFields<P, C>(b: Account<P, C>, p: P, t: P, x: Option<C>, s: Book<P, C>)
    requires p in b.holds && t !in b.holds && (x.Some? ==> x.value in b.counts)
    requires s == Swapped(Joined(b, t, x), p, t)
    ensures s.holds - {t} == b.holds[p := x] && s.counts.Keys == b.counts.Keys && s.surplus == b.surplus
  {
    JoinedFields(b, t, x);
    SwapWithNew(Joined(b, t, x), b.holds, p, t, x);
  }

  lemma RehungFrom<P, C>(b: Book<P, C>, s: Book<P, C>, holds: map<P, Option<C>>, r: Book<P, C>)
    requires s.counts.Keys == b.counts.Keys && s.surplus == b.surplus && Rehung(s, holds, r)
    ensures Rehung(b, holds, r)
  {
  }

  lemma ReassignedMeans<P, C>(b: Account<P, C>, p: P, t: P, x: Option<C>) returns (r: Account<P, C>)
    requires b.pending == multiset{} && p in b.holds && t !in b.holds && (x.Some? ==> x.value in b.counts)
    ensures r == Reassigned(b, p, t, x) && Rehung(b, b.holds[p := x], r)
  {
    var s := CopySwapped(b, p, t, x);
    CopySwappedFields(b, p, t, x, s);
    r := DestroyedMeans(s, t);
    RehungFrom(b, s, b.holds[p := x], r);
  }

  // ----- runs -----

  datatype Step<P, C> =
    | Manage(x: Option<C>)
    | Lose(x: Option<C>)
    | Land(p: P, x: Option<C>)
    | Release(x: Option<C>)
    | Leave(p: P)
    | Swap(p: P, q: P)

  datatype Run<P, C> = Start | Then(before: Run<P, C>, step: Step<P, C>)

  ghost function After<P, C>(b: Book<P, C>, s: Step<P, C>): Book<P, C> {
    match s
    case Manage(x) => Managed(b, x)
    case Lose(x) => Lost(b, x)
    case Land(p, x) => Landed(b, p, x)
    case Release(x) => Released(b, x)
    case Leave(p) => Left(b, p)
    case Swap(p, q) => Swapped(b, p, q)
  }

  ghost predicate Enabled<P, C>(b: Book<P, C>, s: Step<P, C>) {
    match s
    case Manage(x) => true
    case Lose(x) => x.Some? ==> x.value in b.pending
    case Land(p, x) => x.Some? ==> x.value in b.pending
    case Release(x) => x.Some? ==> x.value in b.pending
    case Leave(p) => p in b.holds && b.holds[p] == None
    case Swap(p, q) => p in b.holds && q in b.holds
  }

  ghost function Replay<P, C>(run: Run<P, C>): Book<P, C> {
    match run
    case Start => Book(map[], map[], map[], multiset{})
    case Then(before, s) => After(Replay(before), s)
  }

  ghost predicate Legal<P, C>(run: Run<P, C>) {
    match run
    case Start => true
    case Then(before, s) => Legal(before) && Enabled(Replay(before), s)
  }

  type LegalRun<P, C> = run: Run<P, C> | Legal(run) ghost witness Start

  /** Every run keeps the books balanced. */
  lemma {:induction false} RunsBalance<P, C>(run: Run<P, C>) returns (b: Account<P, C>)
    requires Legal(run)
    ensures b == Replay(run)
  {
    match run
    case Start => b := Replay(run);
    case Then(before, s) =>
      b := RunsBalance(before);
      match s
      case Manage(x) => b := ManagedBalanced(b, x);
      case Lose(x) => b := LostBalanced(b, x);
      case Land(p, x) => b := LandedBalanced(b, p, x);
      case Release(x) => b := ReleasedBalanced(b, x);
      case Leave(p) => b := LeftBalanced(b, p);
      case Swap(p, q) => b := SwappedBalanced(b, p, q);
  }

  /** What is held, or in flight, is counted. */
  lemma HeldIsLive<P, C>(run: Run<P, C>, p: P)
    requires Legal(run)
    ensures HeldBy(Replay(run), p).Some? ==> HeldBy(Replay(run), p).value in Replay(run).counts
  {
    var b := RunsBalance(run);
  }

  lemma InFlightIsLive<P, C>(run: Run<P, C>, x: Option<C>)
    requires Legal(run) && Enabled(Replay(run), Release(x))
    ensures x.Some? ==> x.value in Replay(run).counts && Replay(run).counts[x.value] > 0
  {
    var b := RunsBalance(run);
  }

  // ----- the runs of the pointer operations -----

  function JoinRun<P, C>(run: Run<P, C>, p: P, x: Option<C>): Run<P, C> {
    Then(Then(run, Manage(x)), Land(p, x))
  }

  function RetargetRun<P, C>(run: Run<P, C>, p: P, x: Option<C>): Run<P, C> {
    Then(Then(Then(Then(run, Manage(x)), Manage(x)), Lose(x)), Land(p, x))
  }

  ghost function ResetRun<P, C>(run: Run<P, C>, p: P, x: Option<C>): Run<P, C> {
    Then(RetargetRun(run, p, x), Release(HeldBy(Replay(run), p)))
  }

  ghost function DestroyRun<P, C>(run: Run<P, C>, p: P): Run<P, C> {
    Then(ResetRun(run, p, None), Leave(p))
  }

  ghost function ReassignRun<P, C>(run: Run<P, C>, p: P, t: P, x: Option<C>): Run<P, C> {
    DestroyRun(Then(JoinRun(run, t, x), Swap(p, t)), t)
  }

  lemma ResetReplays<P, C>(run: Run<P, C>, p: P, x: Option<C>)
    ensures Replay(ResetRun(run, p, x)) == Reset(Replay(run), p, x)
  {
    var r1 := Then(run, Manage(x));
    var r2 := Then(r1, Manage(x));
    var r3 := Then(r2, Lose(x));
    assert Replay(r2) == Managed(Managed(Replay(run), x), x) by { assert Replay(r1) == Managed(Replay(run), x); }
    assert Replay(r3) == CountedTwice(Replay(run), x);
    assert Replay(RetargetRun(run, p, x)) == Landed(CountedTwice(Replay(run), x), p, x);
  }

  lemma DestroyReplays<P, C>(run: Run<P, C>, p: P)
    ensures Replay(DestroyRun(run, p)) == Destroyed(Replay(run), p)
  {
    ResetReplays(run, p, None);
  }

  lemma ReassignReplays<P, C>(run: Run<P, C>, p: P, t: P, x: Option<C>)
    ensures Replay(ReassignRun(run, p, t, x)) == Reassigned(Replay(run), p, t, x)
  {
    var j := JoinRun(run, t, x);
    assert Replay(j) == Joined(Replay(run), t, x);
    DestroyReplays(Then(j, Swap(p, t)), t);
  }

  /** The effect of a reset in any run. */
  lemma ResetInRun<P, C>(run: Run<P, C>, p: P, x: Option<C>)
    requires Legal(run) && Replay(run).pending == multiset{}
    ensures ResetEffect(Replay(run), p, x, Replay(ResetRun(run, p, x)))
  {
    var b := RunsBalance(run);
    var r := ResetMeans(b, p, x);
    ResetReplays(run, p, x);
  }

  /** The effect of a destructor in any run. */
  lemma DestroyInRun<P, C>(run: Run<P, C>, p: P)
    requires Legal(run) && Replay(run).pending == multiset{}
    ensures Rehung(Replay(run), Replay(run).holds - {p}, Replay(DestroyRun(run, p)))
  {
    var b := RunsBalance(run);
    var r := DestroyedMeans(b, p);
    DestroyReplays(run, p);
  }

  /** The effect of `operator=` in any run. */
  lemma ReassignInRun<P, C>(run: Run<P, C>, p: P, t: P, q: P)
    requires Legal(run) && Replay(run).pending == multiset{}
    requires p in Replay(run).holds && q in Replay(run).holds && t !in Replay(run).holds
    ensures var b := Replay(run);
            Rehung(b, b.holds[p := b.holds[q]], Replay(ReassignRun(run, p, t, b.holds[q])))
  {
    var b := RunsBalance(run);
    var r := ReassignedMeans(b, p, t, b.holds[q]);
    ReassignReplays(run, p, t, b.holds[q]);
  }

  /** In every run, between operations, the counter of a cell is the number of its holders plus its
      surplus; a held cell is there; and without surplus a cell is there exactly while it is held. */
  lemma CountersInRun<P, C>(run: Run<P, C>, c: C)
    requires Legal(run) && Replay(run).pending == multiset{}
    ensures c in Replay(run).counts ==>
      Replay(run).counts[c] == |HoldersOf(Replay(run).holds, c)| + At(Replay(run).surplus, c)
    ensures HoldersOf(Replay(run).holds, c) != {} ==> c in Replay(run).counts
    ensures At(Replay(run).surplus, c) == 0 ==> (c in Replay(run).counts <==> HoldersOf(Replay(run).holds, c) != {})
  {
    var b := RunsBalance(run);
    HeldIsCounted(b, c);
  }
}
