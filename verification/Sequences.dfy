/** Sequences without repetition, and the elements of sequences. */
module Sequences {

  ghost predicate NoDup<T>(s: seq<T>) {
    forall i, j :: 0 <= i < j < |s| ==> s[i] != s[j]
  }

  lemma {:induction false} NoDupCardinality<T>(s: seq<T>)
    requires NoDup(s)
    ensures |set x | x in s| == |s|
  {
    if s != [] {
      var init := s[..|s| - 1];
      var last := s[|s| - 1];
      NoDupCardinality(init);
      assert (set x | x in s) == (set x | x in init) + {last};
    }
  }

  lemma SplitAt<T>(s: seq<T>, k: nat)
    requires k < |s|
    ensures s == s[..k] + [s[k]] + s[k + 1..]
  {
  }

  /** All of a concatenation but its last element. */
  lemma ConcatButLast<T>(a: seq<T>, b: seq<T>)
    requires b != []
    ensures (a + b)[..|a + b| - 1] == a + b[..|b| - 1] && (a + b)[|a + b| - 1] == b[|b| - 1]
  {
  }

  lemma Regroup<T>(a: seq<T>, b: seq<T>, c: seq<T>)
    ensures a + (b + c) == a + b + c
  {
  }

  lemma SplitInTwo<T>(s: seq<T>, k: nat)
    requires k <= |s|
    ensures s == s[..k] + s[k..]
  {
  }

  lemma SplitInThree<T>(s: seq<T>, k: nat, n: nat)
    requires k + n <= |s|
    ensures s == s[..k] + s[k..k + n] + s[k + n..]
  {
  }

  function Elements<T>(s: seq<T>): set<T> {
    if s == [] then {} else Elements(s[..|s| - 1]) + {s[|s| - 1]}
  }

  lemma {:induction false} ElementsMember<T>(s: seq<T>, x: T)
    ensures x in Elements(s) <==> x in s
  {
    if s != [] {
      ElementsMember(s[..|s| - 1], x);
      assert s == s[..|s| - 1] + [s[|s| - 1]];
    }
  }

  lemma {:induction false} ElementsConcat<T>(s: seq<T>, t: seq<T>)
    ensures Elements(s + t) == Elements(s) + Elements(t)
  {
    if t == [] {
      assert s + t == s;
    } else {
      ElementsConcat(s, t[..|t| - 1]);
      assert (s + t)[..|s + t| - 1] == s + t[..|t| - 1];
    }
  }

  lemma ElementsOne<T>(x: T)
    ensures Elements([x]) == {x}
  {
    assert [x][..0] == [];
  }

  lemma {:induction false} ElementsOfMultiset<T>(s: seq<T>)
    ensures Elements(s) == set x | x in multiset(s)
  {
    if s != [] {
      ElementsOfMultiset(s[..|s| - 1]);
      assert s == s[..|s| - 1] + [s[|s| - 1]];
    }
  }

  lemma PermuteElements<T>(s: seq<T>, t: seq<T>)
    requires multiset(s) == multiset(t)
    ensures Elements(s) == Elements(t)
  {
    ElementsOfMultiset(s);
    ElementsOfMultiset(t);
  }

  lemma MultisetNoDup<T>(s: seq<T>, t: seq<T>)
    requires NoDup(s) && multiset(s) == multiset(t)
    ensures NoDup(t) && |s| == |t|
  {
    assert |multiset(s)| == |multiset(t)|;
    forall i, j | 0 <= i < j < |t| ensures t[i] != t[j] {
      NoDupCount(s, t[i]);
      if t[i] == t[j] {
        TwiceCounted(t, i, j);
      }
    }
  }

  lemma {:induction false} NoDupCount<T>(s: seq<T>, x: T)
    requires NoDup(s)
    ensures multiset(s)[x] <= 1
  {
    if s != [] {
      assert s == s[..|s| - 1] + [s[|s| - 1]];
      NoDupCount(s[..|s| - 1], x);
    }
  }

  lemma TwiceCounted<T>(t: seq<T>, i: nat, j: nat)
    requires i < j < |t| && t[i] == t[j]
    ensures multiset(t)[t[i]] >= 2
  {
    assert t == t[..i] + [t[i]] + t[i + 1..j] + [t[j]] + t[j + 1..];
  }

  lemma {:induction false} ElementsCount<T>(s: seq<T>)
    requires NoDup(s)
    ensures |Elements(s)| == |s|
  {
    if s != [] {
      ElementsCount(s[..|s| - 1]);
      ElementsMember(s[..|s| - 1], s[|s| - 1]);
    }
  }
}
