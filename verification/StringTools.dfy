/** utilmm/stringtools.hh: searching, splitting and joining strings. */
module StringTools {
  import opened Wrappers

  predicate OccursAt(s: string, sep: string, i: nat) {
    i + |sep| <= |s| && s[i..i + |sep|] == sep
  }

  /** `s.find(sep, from)`: the first occurrence of `sep` at or after `from`. */
  function Find(s: string, sep: string, from: nat): (r: Option<nat>)
    ensures r.Some? ==> from <= r.value && OccursAt(s, sep, r.value)
    ensures r.Some? ==> forall j :: from <= j < r.value ==> !OccursAt(s, sep, j)
    ensures r.None? ==> forall j :: from <= j ==> !OccursAt(s, sep, j)
    decreases |s| - from
  {
    if from + |sep| > |s| then None
    else if OccursAt(s, sep, from) then Some(from)
    else Find(s, sep, from + 1)
  }

  /** `starts_with`: the front of `str`, cut to the length of `start`, is `start`. */
  function StartsWith(str: string, start: string): (r: bool)
    ensures r <==> exists rest :: str == start + rest
  {
    var r := (if |start| <= |str| then str[..|start|] else str) == start;
    assert r ==> str == start + str[|start|..];
    r
  }

  /** Searching behind a prefix is searching in the rest. */
  lemma {:induction false} FindShift(a: string, s: string, sep: string, from: nat)
    ensures Find(a + s, sep, |a| + from) == match Find(s, sep, from) case None => None case Some(i) => Some(|a| + i)
    decreases |s| - from
  {
    if from + |sep| <= |s| {
      assert (a + s)[|a| + from..|a| + from + |sep|] == s[from..from + |sep|];
      FindShift(a, s, sep, from + 1);
    }
  }

  // ----- split -----

  /** The pieces between the occurrences of `sep`. */
  function Pieces(s: string, sep: string): (l: seq<string>)
    requires sep != ""
    ensures l != []
    decreases |s|
  {
    match Find(s, sep, 0)
    case None => [s]
    case Some(to) => [s[..to]] + Pieces(s[to + |sep|..], sep)
  }

  /** The pieces that are not empty. */
  function NonEmpty(l: seq<string>): seq<string> {
    if l == [] then [] else if l[0] == "" then NonEmpty(l[1..]) else [l[0]] + NonEmpty(l[1..])
  }

  /** No empty piece is kept, and every other one as often as it is there. */
  lemma {:induction false} NonEmptyKeeps(l: seq<string>)
    ensures "" !in NonEmpty(l)
    ensures forall x: string :: x != "" ==> multiset(NonEmpty(l))[x] == multiset(l)[x]
  {
    if l != [] {
      NonEmptyKeeps(l[1..]);
      assert l == [l[0]] + l[1..];
    }
  }

  /** They are kept in order. */
  lemma {:induction false} NonEmptyInOrder(a: seq<string>, b: seq<string>, x: string)
    ensures NonEmpty(a + b) == NonEmpty(a) + NonEmpty(b)
    ensures NonEmpty([x]) == if x == "" then [] else [x]
  {
    if a == [] {
      assert a + b == b;
    } else {
      assert (a + b)[1..] == a[1..] + b;
      NonEmptyInOrder(a[1..], b, x);
    }
  }

  /** What `split` returns of the pieces `l`. */
  function Kept(l: seq<string>, ignoreEmpty: bool): seq<string> {
    if ignoreEmpty then NonEmpty(l) else l
  }

  /** `push_back`, unless the piece is empty and those are ignored. */
  function Push(l: seq<string>, x: string, ignoreEmpty: bool): seq<string> {
    if x != "" || !ignoreEmpty then l + [x] else l
  }

  lemma KeptFirst(l: seq<string>, x: string, rest: seq<string>, ignoreEmpty: bool)
    ensures l + Kept([x] + rest, ignoreEmpty) == Push(l, x, ignoreEmpty) + Kept(rest, ignoreEmpty)
  {
    assert ([x] + rest)[1..] == rest;
    assert l + ([x] + Kept(rest, ignoreEmpty)) == l + [x] + Kept(rest, ignoreEmpty);
  }

  lemma KeptLast(l: seq<string>, x: string, ignoreEmpty: bool)
    ensures l + Kept([x], ignoreEmpty) == Push(l, x, ignoreEmpty)
  {
    assert [x] + [] == [x];
    KeptFirst(l, x, [], ignoreEmpty);
    assert forall m: seq<string> :: m + [] == m;
  }

  lemma PiecesCons(s: string, sep: string, x: string, rest: string)
    requires sep != "" && Find(s, sep, 0) == Some(|x|) && s[..|x|] == x && s[|x| + |sep|..] == rest
    ensures Pieces(s, sep) == [x] + Pieces(rest, sep)
  {
  }

  lemma SliceRest(s: string, from: nat, to: nat, next: nat)
    requires from <= to <= next <= |s|
    ensures s[from..][..to - from] == s[from..to] && s[from..][next - from..] == s[next..]
  {
  }

  /** One turn of the loop moves the first piece to the result. */
  lemma Turn(s: string, sep: string, from: nat, to: nat, ignoreEmpty: bool, l: seq<string>, rest: seq<string>)
    returns (next: seq<string>)
    requires sep != "" && from <= |s| && Find(s, sep, from) == Some(to)
    requires rest == Kept(Pieces(s[from..], sep), ignoreEmpty)
    ensures next == Kept(Pieces(s[to + |sep|..], sep), ignoreEmpty)
    ensures l + rest == Push(l, s[from..to], ignoreEmpty) + next
  {
    FindRest(s, sep, from);
    SliceRest(s, from, to, to + |sep|);
    PiecesCons(s[from..], sep, s[from..to], s[to + |sep|..]);
    KeptFirst(l, s[from..to], Pieces(s[to + |sep|..], sep), ignoreEmpty);
    next := Kept(Pieces(s[to + |sep|..], sep), ignoreEmpty);
  }

  lemma LastTurn(s: string, sep: string, from: nat, ignoreEmpty: bool, l: seq<string>)
    requires sep != "" && from <= |s| && Find(s, sep, from) == None
    ensures l + Kept(Pieces(s[from..], sep), ignoreEmpty) == Push(l, s[from..], ignoreEmpty)
  {
    FindRest(s, sep, from);
    KeptLast(l, s[from..], ignoreEmpty);
  }

  lemma FindRest(s: string, sep: string, from: nat)
    requires from <= |s|
    ensures Find(s[from..], sep, 0) == match Find(s, sep, from) case None => None case Some(to) => Some(to - from)
  {
    FindShift(s[..from], s[from..], sep, 0);
    assert s[..from] + s[from..] == s;
  }

  /** The loop of `split`, for every separator but the empty one, with which it never ends. */
  method Split(s: string, sep: string, ignoreEmpty: bool) returns (l: seq<string>)
    requires sep != ""
    ensures l == Kept(Pieces(s, sep), ignoreEmpty)
  {
    l := [];
    var from := 0;
    assert s[0..] == s;
    ghost var rest := Kept(Pieces(s, sep), ignoreEmpty);
    while true
      invariant from <= |s| && rest == Kept(Pieces(s[from..], sep), ignoreEmpty)
      invariant l + rest == Kept(Pieces(s, sep), ignoreEmpty)
      decreases |s| - from
    {
      var to := Find(s, sep, from);
      if to.None? {
        LastTurn(s, sep, from, ignoreEmpty, l);
        if from < |s| || !ignoreEmpty {
          l := l + [s[from..]];
        }
        return;
      }
      rest := Turn(s, sep, from, to.value, ignoreEmpty, l, rest);
      if to.value > from || !ignoreEmpty {
        l := l + [s[from..to.value]];
      }
      from := to.value + |sep|;
    }
  }

  /** With an empty separator the loop makes no progress: every position is an occurrence of it. */
  lemma EmptySeparatorStalls(s: string, from: nat)
    ensures from <= |s| ==> Find(s, "", from) == Some(from)
  {
  }

  // ----- join -----

  function Joined(l: seq<string>, sep: string): string {
    if l == [] then "" else if |l| == 1 then l[0] else l[0] + sep + Joined(l[1..], sep)
  }

  method Join(l: seq<string>, sep: string) returns (s: string)
    ensures s == Joined(l, sep)
  {
    if l == [] {
      return "";
    }
    s := l[0];
    for i := 1 to |l|
      invariant s == Joined(l[..i], sep)
    {
      JoinedLast(l[..i], sep, l[i]);
      assert l[..i + 1] == l[..i] + [l[i]];
      s := s + (sep + l[i]);
    }
    assert l[..|l|] == l;
  }

  lemma {:induction false} JoinedLast(l: seq<string>, sep: string, x: string)
    requires l != []
    ensures Joined(l + [x], sep) == Joined(l, sep) + (sep + x)
  {
    assert (l + [x])[1..] == l[1..] + [x];
    if |l| > 1 {
      JoinedLast(l[1..], sep, x);
    }
  }

  /** Joining what was split gives the string back. */
  lemma {:induction false} JoinUndoesSplit(s: string, sep: string)
    requires sep != ""
    ensures Joined(Pieces(s, sep), sep) == s
    decreases |s|
  {
    match Find(s, sep, 0)
    case None =>
    case Some(to) =>
      var rest := Pieces(s[to + |sep|..], sep);
      JoinUndoesSplit(s[to + |sep|..], sep);
      assert ([s[..to]] + rest)[1..] == rest;
      assert s == s[..to] + sep + s[to + |sep|..];
  }

  /** The separator first shows up in each piece followed by a separator right after the piece, and not
      at all in the last piece. */
  ghost predicate CutsAtJoints(l: seq<string>, sep: string) {
    && (forall k :: 0 <= k < |l| - 1 ==> Find(l[k] + sep, sep, 0) == Some(|l[k]|))
    && (l != [] ==> Find(l[|l| - 1], sep, 0) == None)
  }

  /** The first occurrence does not depend on what follows it. */
  lemma FindInPrefix(a: string, sep: string, rest: string)
    requires sep != "" && Find(a + sep, sep, 0) == Some(|a|)
    ensures Find(a + sep + rest, sep, 0) == Some(|a|)
  {
    var s := a + sep + rest;
    assert OccursAt(s, sep, |a|);
    forall j | 0 <= j < |a| ensures !OccursAt(s, sep, j) {
      assert s[j..j + |sep|] == (a + sep)[j..j + |sep|];
      assert !OccursAt(a + sep, sep, j);
    }
  }

  /** Splitting what was joined gives the pieces back if and only if the separator first shows up at
      each joint. */
  lemma {:induction false} SplitUndoesJoin(l: seq<string>, sep: string)
    requires sep != "" && l != []
    ensures CutsAtJoints(l, sep) <==> Pieces(Joined(l, sep), sep) == l
  {
    if |l| == 1 {
      SplitsWhole(l[0], sep);
    } else {
      var rest := Joined(l[1..], sep);
      SplitUndoesJoin(l[1..], sep);
      SplitFirst(l[0], sep, rest);
      CutsTail(l, sep);
    }
  }

  lemma CutsTail(l: seq<string>, sep: string)
    requires |l| > 1
    ensures CutsAtJoints(l, sep) <==> Find(l[0] + sep, sep, 0) == Some(|l[0]|) && CutsAtJoints(l[1..], sep)
  {
    if Find(l[0] + sep, sep, 0) == Some(|l[0]|) && CutsAtJoints(l[1..], sep) {
      forall k | 0 <= k < |l| - 1 ensures Find(l[k] + sep, sep, 0) == Some(|l[k]|) {
        if k > 0 {
          assert l[k] == l[1..][k - 1];
        }
      }
    }
  }

  lemma SplitsWhole(a: string, sep: string)
    requires sep != ""
    ensures Pieces(a, sep) == [a] <==> Find(a, sep, 0) == None
  {
  }

  lemma SplitFirst(a: string, sep: string, rest: string)
    requires sep != ""
    ensures Find(a + sep, sep, 0) == Some(|a|) ==> Pieces(a + sep + rest, sep) == [a] + Pieces(rest, sep)
    ensures Find(a + sep, sep, 0) != Some(|a|) ==> Pieces(a + sep + rest, sep)[0] != a
  {
    if Find(a + sep, sep, 0) == Some(|a|) {
      SplitAtJoint(a, sep, rest);
    } else {
      SplitBeforeJoint(a, sep, rest);
    }
  }

  lemma SplitAtJoint(a: string, sep: string, rest: string)
    requires sep != "" && Find(a + sep, sep, 0) == Some(|a|)
    ensures Pieces(a + sep + rest, sep) == [a] + Pieces(rest, sep)
  {
    var t := a + sep + rest;
    FindInPrefix(a, sep, rest);
    assert t[..|a|] == a && t[|a| + |sep|..] == rest;
  }

  lemma SplitBeforeJoint(a: string, sep: string, rest: string)
    requires sep != "" && Find(a + sep, sep, 0) != Some(|a|)
    ensures Pieces(a + sep + rest, sep)[0] != a
  {
    var s := a + sep + rest;
    assert OccursAt(a + sep, sep, |a|);
    var i := Find(a + sep, sep, 0).value;
    assert i < |a| && s[i..i + |sep|] == (a + sep)[i..i + |sep|];
    assert OccursAt(s, sep, i);
    assert Find(s, sep, 0).Some? && Find(s, sep, 0).value <= i;
  }

  /** A separator of one character that no piece contains cuts at the joints. */
  lemma AbsentCharacterCuts(l: seq<string>, c: char)
    requires forall k :: 0 <= k < |l| ==> c !in l[k]
    ensures CutsAtJoints(l, [c])
  {
    forall k | 0 <= k < |l| ensures Find(l[k] + [c], [c], 0) == Some(|l[k]|) && Find(l[k], [c], 0) == None {
      var e := l[k] + [c];
      assert OccursAt(e, [c], |l[k]|);
      forall j | 0 <= j < |l[k]| ensures !OccursAt(e, [c], j) && !OccursAt(l[k], [c], j) {
        assert e[j] == l[k][j];
        assert e[j..j + 1] == [e[j]] && l[k][j..j + 1] == [l[k][j]];
      }
    }
  }

  // ----- the slash loop of clean_path -----

  /** One slash for each run of slashes. */
  function Collapsed(s: string): (r: string)
    ensures s == "" <==> r == ""
    ensures s != "" ==> r[0] == s[0]
  {
    if |s| < 2 then s
    else if s[0] == '/' && s[1] == '/' then Collapsed(s[1..])
    else [s[0]] + Collapsed(s[1..])
  }

  /** Removing one slash of a pair of slashes does not change what collapses. */
  lemma {:induction false} EraseKeepsCollapsed(s: string, i: nat)
    requires OccursAt(s, "//", i)
    ensures Collapsed(s[..i] + s[i + 1..]) == Collapsed(s)
  {
    var t := s[..i] + s[i + 1..];
    assert s[i] == s[i..i + 2][0] && s[i + 1] == s[i..i + 2][1];
    if i == 0 {
      assert t == s[1..];
    } else {
      assert s[1..][i - 1..i - 1 + 2] == s[i..i + 2];
      EraseKeepsCollapsed(s[1..], i - 1);
      assert t[1..] == s[1..][..i - 1] + s[1..][i..];
      assert t[0] == s[0] && t[1] == s[1];
    }
  }

  lemma {:induction false} CollapsedIsFixed(s: string)
    requires Find(s, "//", 0) == None
    ensures Collapsed(s) == s
  {
    if |s| >= 2 {
      assert !OccursAt(s, "//", 0);
      assert s[0..2] == [s[0], s[1]];
      forall j: nat ensures !OccursAt(s[1..], "//", j) {
        if OccursAt(s[1..], "//", j) {
          assert s[1..][j..j + 2] == s[j + 1..j + 3];
          assert OccursAt(s, "//", j + 1);
        }
      }
      CollapsedIsFixed(s[1..]);
    }
  }

  /** The loop of `clean_path`: it leaves no double slash, and one slash where there were several. */
  method CollapseSlashes(path: string) returns (str: string)
    ensures str == Collapsed(path) && Find(str, "//", 0) == None
    ensures Find(path, "//", 0) == None ==> str == path
  {
    str := path;
    var i := Find(str, "//", 0);
    while i.Some?
      invariant Collapsed(str) == Collapsed(path) && i == Find(str, "//", 0)
      invariant Find(path, "//", 0) == None ==> str == path
      decreases |str|
    {
      EraseKeepsCollapsed(str, i.value);
      str := str[..i.value] + str[i.value + 1..];
      i := Find(str, "//", 0);
    }
    CollapsedIsFixed(str);
  }
}
