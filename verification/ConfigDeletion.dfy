/** What src/configfile/configset.cc deletes when a set is cleared: on the sets of the machine. */
module ConfigDeletion {
  import opened Sequences
  import opened Wrappers
  import opened StringOrder
  import opened Multimap
  import opened ConfigLines
  import opened ConfigGrammar
  import opened ConfigTrees

  /** The sets below set `i` in the order in which they are deleted, each behind those below it. */
  ghost function Below(arena: seq<Record>, i: nat): seq<nat>
    requires i < |arena|
    decreases |arena| - i, 1, 0
  {
    BelowKids(arena, i, arena[i].children)
  }

  ghost function BelowKids(arena: seq<Record>, i: nat, kids: Entries<nat>): seq<nat>
    requires i < |arena|
    decreases |arena| - i, 0, |kids|
  {
    if kids == [] then []
    else BelowKid(arena, i, kids[0].1) + BelowKids(arena, i, kids[1..])
  }

  ghost function BelowKid(arena: seq<Record>, i: nat, d: nat): seq<nat>
    requires i < |arena|
    decreases |arena| - i, 0, 0
  {
    (if i < d < |arena| then Below(arena, d) else []) + [d]
  }

  /** How often set `j` is met when set `i` is deleted. */
  ghost function Times(arena: seq<Record>, i: nat, j: nat): nat
    requires i < |arena|
  {
    multiset(Below(arena, i))[j] + if i == j then 1 else 0
  }

  /** Deleting the file meets every set once. */
  ghost predicate OneWay(arena: seq<Record>) {
    arena != [] && AllSound(arena) && forall j :: 0 <= j < |arena| ==> Times(arena, 0, j) == 1
  }

  // ----- the machine keeps it -----

  lemma {:induction false} SameBelow(a: seq<Record>, b: seq<Record>, i: nat)
    requires i < |a| == |b| && forall k :: 0 <= k < |a| ==> a[k].children == b[k].children
    ensures Below(a, i) == Below(b, i)
    decreases |a| - i, 1, 0
  {
    SameBelowKids(a, b, i, a[i].children);
  }

  lemma {:induction false} SameBelowKids(a: seq<Record>, b: seq<Record>, i: nat, kids: Entries<nat>)
    requires i < |a| == |b| && forall k :: 0 <= k < |a| ==> a[k].children == b[k].children
    ensures BelowKids(a, i, kids) == BelowKids(b, i, kids)
    decreases |a| - i, 0, |kids|
  {
    if kids != [] {
      if i < kids[0].1 < |a| {
        SameBelow(a, b, kids[0].1);
      }
      SameBelowKids(a, b, i, kids[1..]);
    }
  }

  lemma {:induction false} BelowWithin(a: seq<Record>, i: nat)
    requires i < |a| && AllSound(a)
    ensures forall j :: j in Below(a, i) ==> i < j < |a|
    decreases |a| - i, 1, 0
  {
    assert RecordSound(a, i);
    BelowKidsWithin(a, i, a[i].children);
  }

  lemma {:induction false} BelowKidsWithin(a: seq<Record>, i: nat, kids: Entries<nat>)
    requires i < |a| && AllSound(a) && forall e :: e in kids ==> i < e.1 < |a|
    ensures forall j :: j in BelowKids(a, i, kids) ==> i < j < |a|
    decreases |a| - i, 0, |kids|
  {
    if kids != [] {
      var d := kids[0].1;
      assert kids[0] in kids;
      BelowWithin(a, d);
      BelowKidsWithin(a, i, kids[1..]);
      assert BelowKids(a, i, kids) == Below(a, d) + [d] + BelowKids(a, i, kids[1..]);
    }
  }

  /** `b` is `a` with a new set, numbered `|a|`, below set `c`. */
  ghost predicate Entered(a: seq<Record>, b: seq<Record>, c: nat, k: string) {
    && AllSound(a) && c < |a| && |b| == |a| + 1 && b[|a|].children == []
    && b[c].children == Insert<nat>(a[c].children, k, |a|)
    && forall i :: 0 <= i < |a| && i != c ==> b[i].children == a[i].children
  }

  lemma {:induction false} InsertedKid(b: seq<Record>, i: nat, kids: Entries<nat>, k: string, n: nat, j: nat)
    requires i < n < |b| && b[n].children == []
    ensures multiset(BelowKids(b, i, Insert(kids, k, n)))[j]
         == multiset(BelowKids(b, i, kids))[j] + if j == n then 1 else 0
  {
    assert Below(b, n) == BelowKids(b, n, []) == [];
    if kids == [] {
      assert [(k, n)][1..] == [];
    } else if Less(k, kids[0].0) {
      assert ([(k, n)] + kids)[1..] == kids;
    } else {
      InsertedKid(b, i, kids[1..], k, n, j);
      assert Insert(kids, k, n)[1..] == Insert(kids[1..], k, n);
    }
  }

  /** The new set is met as often as the set it was put into; the others are met as before. */
  lemma {:induction false} EnteredTimes(a: seq<Record>, b: seq<Record>, c: nat, k: string, i: nat, j: nat)
    requires Entered(a, b, c, k) && i < |a|
    ensures multiset(Below(b, i))[j] == multiset(Below(a, i))[j] + if j == |a| then Times(a, i, c) else 0
    decreases |a| - i, 1, 0
  {
    assert RecordSound(a, i);
    EnteredKids(a, b, c, k, i, a[i].children, j);
    if i == c {
      InsertedKid(b, i, a[i].children, k, |a|, j);
    }
  }

  lemma {:induction false} EnteredKids(a: seq<Record>, b: seq<Record>, c: nat, k: string,
                                        i: nat, kids: Entries<nat>, j: nat)
    requires Entered(a, b, c, k) && i < |a| && forall e :: e in kids ==> i < e.1 < |a|
    ensures multiset(BelowKids(b, i, kids))[j]
         == multiset(BelowKids(a, i, kids))[j] + if j == |a| then multiset(BelowKids(a, i, kids))[c] else 0
    decreases |a| - i, 0, |kids|
  {
    if kids != [] {
      assert kids[0] in kids;
      EnteredTimes(a, b, c, k, kids[0].1, j);
      EnteredKids(a, b, c, k, i, kids[1..], j);
    }
  }

  lemma EnterOneWay(m: Machine, k: string, findBracket: bool)
    requires Sound(m) && OneWay(m.arena)
    ensures OneWay(Enter(m, k, findBracket).arena)
  {
    var a, b := m.arena, Enter(m, k, findBracket).arena;
    EnterSound(m, k, findBracket);
    BelowWithin(a, 0);
    forall j | 0 <= j < |b| ensures Times(b, 0, j) == 1 {
      EnteredTimes(a, b, m.cur, k, 0, j);
      assert Times(a, 0, m.cur) == 1;
      assert if j < |a| then Times(a, 0, j) == 1 else j !in Below(a, 0);
    }
  }

  lemma StepOneWay(m: Machine, l: Line)
    requires Sound(m) && OneWay(m.arena)
    ensures Step(m, l).Some? ==> OneWay(Step(m, l).value.arena)
  {
    if Step(m, l).Some? {
      if !m.findBracket && (l.Header? || l.HeaderOpen?) {
        EnterOneWay(m, l.key, l.Header?);
      } else {
        var n := Step(m, l).value;
        StepSound(m, l);
        SameBelow(m.arena, n.arena, 0);
        forall j | 0 <= j < |n.arena| ensures Times(n.arena, 0, j) == 1 {
          assert Times(m.arena, 0, j) == 1;
        }
      }
    }
  }

  /** However far the machine comes, deleting the file meets every set exactly once. */
  lemma {:induction false} RunOneWay(m: Machine, ts: seq<Line>)
    requires Sound(m) && OneWay(m.arena)
    ensures Run(m, ts).Some? ==> OneWay(Run(m, ts).value.arena)
    decreases |ts|
  {
    if ts != [] {
      StepOneWay(m, ts[0]);
      StepSound(m, ts[0]);
      if Step(m, ts[0]).Some? {
        RunOneWay(Step(m, ts[0]).value, ts[1..]);
      }
    }
  }

  // ----- the sets by name -----

  function Named<T>(sets: seq<T>, ids: seq<nat>): seq<T>
    requires forall j :: j in ids ==> j < |sets|
  {
    seq(|ids|, k requires 0 <= k < |ids| => (assert ids[k] in ids; sets[ids[k]]))
  }

  /** Every set but the file is deleted, and once. */
  lemma DeletedOnce<T>(sets: seq<T>, arena: seq<Record>)
    requires OneWay(arena) && |sets| == |arena| && NoDup(sets)
    ensures forall j :: j in Below(arena, 0) ==> 0 < j < |sets|
    ensures NoDup(Named(sets, Below(arena, 0)))
    ensures forall x :: x in Named(sets, Below(arena, 0)) <==> x in sets[1..]
  {
    var ids := Below(arena, 0);
    BelowWithin(arena, 0);
    assert forall p :: 0 <= p < |ids| ==> ids[p] in ids;
    forall p, q | 0 <= p < q < |ids| ensures sets[ids[p]] != sets[ids[q]] {
      assert Times(arena, 0, ids[p]) == 1;
      if ids[p] == ids[q] {
        TwiceCounted(ids, p, q);
      }
    }
    forall j | 0 < j < |sets| ensures sets[j] in Named(sets, ids) {
      assert Times(arena, 0, j) == 1 && j in multiset(ids);
      var p :| 0 <= p < |ids| && ids[p] == j;
      assert Named(sets, ids)[p] == sets[j];
    }
    forall x | x in Named(sets, ids) ensures x in sets[1..] {
      var p :| 0 <= p < |ids| && Named(sets, ids)[p] == x;
      assert sets[1..][ids[p] - 1] == x;
    }
    forall x | x in sets[1..] ensures x in Named(sets, ids) {
      var j :| 0 <= j < |sets[1..]| && sets[1..][j] == x;
      assert x == sets[j + 1];
    }
  }

  lemma NamedConcat<T>(sets: seq<T>, a: seq<nat>, b: seq<nat>)
    requires (forall j :: j in a ==> j < |sets|) && (forall j :: j in b ==> j < |sets|)
    ensures Named(sets, a + b) == Named(sets, a) + Named(sets, b)
  {
  }
}
