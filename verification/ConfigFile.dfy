/** src/configfile/configset.cc and configfile.cc: the sets as objects, and the reader that builds them. */
module ConfigFile {
  import opened Wrappers
  import opened Multimap
  import opened ConfigLines
  import opened ConfigGrammar
  import opened ConfigTrees
  import opened ConfigPrinting
  import opened ConfigDeletion
  import opened Sequences

  class ConfigSet {
    const parent: ConfigSet?
    var values: Entries<string>
    var children: seq<(string, ConfigSet)>

    constructor (parent: ConfigSet?)
      ensures this.parent == parent && values == [] && children == []
    {
      this.parent := parent;
      values, children := [], [];
    }

    /** `delete`: the destructor deletes what is below the set, then the set is gone. */
    method Delete(ghost sets: seq<ConfigSet>, ghost arena: seq<Record>, ghost i: nat)
      returns (ghost deleted: seq<ConfigSet>)
      requires AllSound(arena) && MirrorsFrom(sets, arena, i) && i < |sets| && this == sets[i]
      ensures deleted == DeletedBelow(sets, arena, i) + [this]
      decreases |arena| - i
    {
      deleted := [];
      ghost var ids := arena[i].children;
      var rest := children;
      RecordOf(sets, arena, i);
      NoneDeleted(sets, arena, i);
      while rest != []
        invariant KidsMirror(rest, ids, sets) && PartlyDeleted(sets, arena, i, ids, deleted)
        decreases |rest|
      {
        NextDeleted(sets, arena, i, ids, deleted);
        ghost var more := rest[0].1.Delete(sets, arena, ids[0].1);
        deleted := deleted + more;
        rest, ids := rest[1..], ids[1..];
      }
      NextDeleted(sets, arena, i, ids, deleted);
      deleted := deleted + [this];
    }

    /** The children are deleted, with all that is below them. */
    method Clear(ghost sets: seq<ConfigSet>, ghost arena: seq<Record>, ghost i: nat)
      returns (ghost deleted: seq<ConfigSet>)
      requires AllSound(arena) && MirrorsFrom(sets, arena, i) && i < |sets| && this == sets[i]
      modifies this
      ensures values == [] && children == []
      ensures deleted == DeletedBelow(sets, arena, i)
    {
      deleted := [];
      ghost var ids := arena[i].children;
      RecordOf(sets, arena, i);
      values := [];
      NoneDeleted(sets, arena, i);
      while children != []
        invariant values == [] && MirrorsFrom(sets, arena, i + 1) && KidsMirror(children, ids, sets)
        invariant PartlyDeleted(sets, arena, i, ids, deleted)
        decreases |children|
      {
        NextDeleted(sets, arena, i, ids, deleted);
        ghost var more := children[0].1.Delete(sets, arena, ids[0].1);
        deleted := deleted + more;
        children, ids := children[1..], ids[1..];
      }
      NextDeleted(sets, arena, i, ids, deleted);
    }

    method Exists(name: string) returns (r: bool)
      ensures r <==> EqualRange(values, name) != [] || EqualRange(children, name) != []
    {
      HasMeans(values, name);
      HasMeans(children, name);
      r := Has(values, name) || Has(children, name);
    }

    /** `insert`: one value more for the name, behind the others. */
    method InsertValue(name: string, value: string)
      requires Sorted(values)
      modifies this`values
      ensures Sorted(values) && values == Insert(old(values), name, value)
      ensures EqualRange(values, name) == EqualRange(old(values), name) + [value]
      ensures forall other :: other != name ==> EqualRange(values, other) == EqualRange(old(values), other)
    {
      InsertSorted(values, name, value);
      forall other ensures EqualRange(Insert(values, name, value), other)
        == if name == other then EqualRange(values, name) + [value] else EqualRange(values, other)
      {
        InsertRange(values, name, value, other);
      }
      values := Insert(values, name, value);
    }

    /** `set`: the value replaces all values of the name. */
    method Set(name: string, value: string)
      requires Sorted(values)
      modifies this`values
      ensures Sorted(values) && values == Insert(Erase(old(values), name), name, value)
      ensures EqualRange(values, name) == [value]
      ensures forall other :: other != name ==> EqualRange(values, other) == EqualRange(old(values), other)
    {
      Remove(name);
      InsertValue(name, value);
    }

    /** `erase`. */
    method Remove(name: string)
      requires Sorted(values)
      modifies this`values
      ensures Sorted(values) && values == Erase(old(values), name) && EqualRange(values, name) == []
      ensures forall other :: other != name ==> EqualRange(values, other) == EqualRange(old(values), other)
    {
      EraseSorted(values, name);
      forall other
        ensures EqualRange(Erase(values, name), other) == if name == other then [] else EqualRange(values, other)
      {
        EraseRange(values, name, other);
      }
      values := Erase(values, name);
    }

    method InsertChild(name: string, child: ConfigSet)
      modifies this`children
      ensures children == Insert(old(children), name, child)
    {
      children := Insert(children, name, child);
    }
  }

  // ----- the sets and their numbers -----

  /** The children are the numbered sets. */
  ghost predicate KidsMirror(kids: seq<(string, ConfigSet)>, ids: Entries<nat>, sets: seq<ConfigSet>) {
    && |kids| == |ids|
    && forall k :: 0 <= k < |ids| ==>
         kids[k].0 == ids[k].0 && ids[k].1 < |sets| && kids[k].1 == sets[ids[k].1]
  }

  ghost predicate SetMirrors(s: ConfigSet, r: Record, sets: seq<ConfigSet>)
    reads s
  {
    && s.values == r.values && KidsMirror(s.children, r.children, sets)
    && (if r.parent.None? then s.parent == null else r.parent.value < |sets| && s.parent == sets[r.parent.value])
  }

  /** The sets as objects are those of the machine. */
  ghost predicate Mirrors(sets: seq<ConfigSet>, arena: seq<Record>)
    reads sets
  {
    MirrorsFrom(sets, arena, 0)
  }

  /** The sets from number `lo` on are those of the machine. */
  ghost predicate MirrorsFrom(sets: seq<ConfigSet>, arena: seq<Record>, lo: nat)
    reads sets
  {
    && |sets| == |arena| && NoDup(sets)
    && forall i {:trigger arena[i]} :: lo <= i < |sets| ==> SetMirrors(sets[i], arena[i], sets)
  }

  /** What is deleted with some children of set `i`. */
  ghost function Deleted(sets: seq<ConfigSet>, arena: seq<Record>, i: nat, ids: Entries<nat>): seq<ConfigSet>
    requires AllSound(arena) && |sets| == |arena| && i < |arena| && forall e :: e in ids ==> i < e.1 < |arena|
  {
    BelowKidsWithin(arena, i, ids);
    Named(sets, BelowKids(arena, i, ids))
  }

  /** What is deleted with all that is below set `i`. */
  ghost function DeletedBelow(sets: seq<ConfigSet>, arena: seq<Record>, i: nat): seq<ConfigSet>
    requires AllSound(arena) && |sets| == |arena| && i < |arena|
  {
    assert RecordSound(arena, i);
    Deleted(sets, arena, i, arena[i].children)
  }

  lemma RecordOf(sets: seq<ConfigSet>, arena: seq<Record>, i: nat)
    requires AllSound(arena) && MirrorsFrom(sets, arena, i) && i < |sets|
    ensures SetMirrors(sets[i], arena[i], sets) && RecordSound(arena, i)
  {
  }

  /** Some sets below set `i` are deleted, and some children remain. */
  ghost predicate PartlyDeleted(sets: seq<ConfigSet>, arena: seq<Record>, i: nat, ids: Entries<nat>,
                                deleted: seq<ConfigSet>)
  {
    && AllSound(arena) && |sets| == |arena| && i < |arena| && (forall e :: e in ids ==> i < e.1 < |arena|)
    && deleted + Deleted(sets, arena, i, ids) == DeletedBelow(sets, arena, i)
  }

  lemma NoneDeleted(sets: seq<ConfigSet>, arena: seq<Record>, i: nat)
    requires AllSound(arena) && |sets| == |arena| && i < |arena|
    ensures PartlyDeleted(sets, arena, i, arena[i].children, [])
  {
    assert RecordSound(arena, i);
    assert [] + DeletedBelow(sets, arena, i) == DeletedBelow(sets, arena, i);
  }

  /** The first child that remains is deleted with what is below it. */
  lemma NextDeleted(sets: seq<ConfigSet>, arena: seq<Record>, i: nat, ids: Entries<nat>, deleted: seq<ConfigSet>)
    requires PartlyDeleted(sets, arena, i, ids, deleted)
    ensures ids == [] ==> deleted == DeletedBelow(sets, arena, i)
    ensures ids != [] ==>
      && i < ids[0].1 < |arena|
      && PartlyDeleted(sets, arena, i, ids[1..], deleted + (DeletedBelow(sets, arena, ids[0].1) + [sets[ids[0].1]]))
  {
    if ids == [] {
      assert deleted + [] == deleted;
    } else {
      FirstDeleted(sets, arena, i, ids);
      Regroup(deleted, DeletedBelow(sets, arena, ids[0].1) + [sets[ids[0].1]], Deleted(sets, arena, i, ids[1..]));
    }
  }

  /** The first child, what is below it, and the rest. */
  lemma FirstDeleted(sets: seq<ConfigSet>, arena: seq<Record>, i: nat, ids: Entries<nat>)
    requires AllSound(arena) && |sets| == |arena| && i < |arena| && forall e :: e in ids ==> i < e.1 < |arena|
    ensures ids != [] ==> i < ids[0].1 < |arena|
    ensures ids != [] ==>
      Deleted(sets, arena, i, ids) ==
        DeletedBelow(sets, arena, ids[0].1) + [sets[ids[0].1]] + Deleted(sets, arena, i, ids[1..])
  {
    if ids != [] {
      var d := ids[0].1;
      assert ids[0] in ids && RecordSound(arena, d);
      var below, rest := Below(arena, d), BelowKids(arena, i, ids[1..]);
      assert BelowKids(arena, i, ids) == below + [d] + rest;
      BelowWithin(arena, d);
      BelowKidsWithin(arena, i, ids[1..]);
      assert DeletedBelow(sets, arena, d) == Named(sets, below);
      assert Deleted(sets, arena, i, ids[1..]) == Named(sets, rest);
      NamedConcat(sets, below, [d]);
      NamedConcat(sets, below + [d], rest);
    }
  }

  lemma {:induction false} InsertMirrors(kids: seq<(string, ConfigSet)>, ids: Entries<nat>,
                                          sets: seq<ConfigSet>, k: string, s: ConfigSet)
    requires KidsMirror(kids, ids, sets)
    ensures KidsMirror(Insert(kids, k, s), Insert<nat>(ids, k, |sets|), sets + [s])
  {
    if kids != [] {
      assert KidsMirror(kids[1..], ids[1..], sets);
      InsertMirrors(kids[1..], ids[1..], sets, k, s);
    }
  }

  /** The state of the reader: the current set, and what line the machine is at. */
  ghost predicate At(sets: seq<ConfigSet>, m: Machine, cur: ConfigSet, findBracket: bool)
    reads sets
  {
    Sound(m) && Mirrors(sets, m.arena) && cur == sets[m.cur] && findBracket == m.findBracket
  }

  /** A new set below the current one. */
  method EnterSet(key: string, cur: ConfigSet, findBracket: bool, ghost sets: seq<ConfigSet>, ghost m: Machine)
    returns (child: ConfigSet, ghost after: seq<ConfigSet>)
    requires At(sets, m, cur, false)
    modifies cur
    ensures fresh(child) && after == sets + [child] && At(after, Enter(m, key, findBracket), child, findBracket)
  {
    child := new ConfigSet(cur);
    InsertMirrors(cur.children, m.arena[m.cur].children, sets, key, child);
    cur.InsertChild(key, child);
    after := sets + [child];
    EnterSound(m, key, findBracket);
    ghost var n := Enter(m, key, findBracket);
    forall i | 0 <= i < |after| ensures SetMirrors(after[i], n.arena[i], after) {
      if i < |sets| {
        assert SetMirrors(sets[i], m.arena[i], sets) || i == m.cur;
      }
    }
  }

  /** One value more in the current set. */
  method AddAttribute(key: string, value: string, cur: ConfigSet, ghost sets: seq<ConfigSet>, ghost m: Machine)
    requires At(sets, m, cur, false)
    modifies cur
    ensures At(sets, AddValue(m, key, value), cur, false)
  {
    StepSound(m, Attribute(key, value));
    cur.values := Insert(cur.values, key, value);
  }

  /** The parent pointer of the current set leads to the parent. */
  lemma ParentMirrors(sets: seq<ConfigSet>, m: Machine, cur: ConfigSet)
    requires At(sets, m, cur, false)
    ensures cur.parent == null <==> Step(m, Close).None?
    ensures cur.parent != null ==> At(sets, Step(m, Close).value, cur.parent, false)
  {
    StepSound(m, Close);
    assert SetMirrors(sets[m.cur], m.arena[m.cur], sets);
  }

  /** The sets that are new are freshly allocated. */
  twostate predicate Extends(sets: seq<ConfigSet>, new after: seq<ConfigSet>) {
    sets <= after && forall j :: |sets| <= j < |after| ==> fresh(after[j])
  }

  /** A line that is not blank, outside a bracket search. */
  method ReadItem(l: Line, cur: ConfigSet, ghost sets: seq<ConfigSet>, ghost m: Machine)
    returns (ok: bool, next: ConfigSet, mode: bool, ghost after: seq<ConfigSet>)
    requires At(sets, m, cur, false) && !l.Blank?
    modifies cur
    ensures ok <==> Step(m, l).Some?
    ensures ok ==> At(after, Step(m, l).value, next, mode)
    ensures Extends(sets, after) && (!ok ==> unchanged(cur))
  {
    ok, next, mode, after := true, cur, false, sets;
    match l
    case Attribute(k, v) =>
      AddAttribute(k, v, cur, sets, m);
    case Header(k) =>
      next, after := EnterSet(k, cur, true, sets, m);
      mode := true;
    case HeaderOpen(k) =>
      next, after := EnterSet(k, cur, false, sets, m);
    case Close =>
      ParentMirrors(sets, m, cur);
      if cur.parent == null {
        ok := false;
      } else {
        next := cur.parent;
      }
    case _ =>
      ok := false;
  }

  /** A line in the current state: what the machine does, or nothing for a parse error. */
  method ReadLine(line: string, cur: ConfigSet, findBracket: bool,
                  ghost sets: seq<ConfigSet>, ghost m: Machine, ghost t: Line)
    returns (ok: bool, next: ConfigSet, mode: bool, ghost after: seq<ConfigSet>)
    requires At(sets, m, cur, findBracket) && t == Classify(line)
    modifies cur
    ensures ok <==> Step(m, t).Some?
    ensures ok ==> At(after, Step(m, t).value, next, mode)
    ensures Extends(sets, after) && (!ok ==> unchanged(cur))
  {
    ok, next, mode, after := true, cur, findBracket, sets;
    var l := Classify(line);
    StepSound(m, l);
    if l.Blank? {
    } else if findBracket {
      ok, mode := l.Open?, false;
    } else {
      ok, next, mode, after := ReadItem(l, cur, sets, m);
    }
  }

  /** The machine before and after line `i`. */
  lemma NextLine(s: Machine, ts: seq<Line>, i: nat, m: Machine)
    requires i < |ts| && Sound(s) && Sound(m) && Run(s, ts[..i]) == Some(m)
    ensures Run(s, ts[..i + 1]) == Step(m, ts[i])
    ensures Step(m, ts[i]).None? ==> Run(s, ts).None?
  {
    assert ts[..i + 1] == ts[..i] + [ts[i]] && ts == ts[..i + 1] + ts[i + 1..];
    RunConcat(s, ts[..i], [ts[i]]);
    RunOne(m, ts[i]);
    RunConcat(s, ts[..i + 1], ts[i + 1..]);
  }

  lemma {:induction false} ClassifyAt(lines: seq<string>, i: nat)
    requires i < |lines|
    ensures ClassifyAll(lines)[i] == Classify(lines[i])
  {
    if i > 0 {
      ClassifyAt(lines[1..], i - 1);
      assert lines[1..][i - 1] == lines[i];
    }
  }

  /** The machine stops at line `n`, counted from 1. */
  ghost predicate StopsAt(s: Machine, ts: seq<Line>, n: nat)
    requires Sound(s)
  {
    0 < n <= |ts| && Run(s, ts[..n - 1]).Some? && Run(s, ts[..n]).None?
  }

  /** The file ends where a bracket is missing. */
  ghost predicate EndsOpen(s: Machine, ts: seq<Line>)
    requires Sound(s)
  {
    Run(s, ts).Some? && !Complete(Run(s, ts).value)
  }

  /** The file with all sets below it is a tree that the machine can have built. */
  ghost predicate Built(file: ConfigSet, sets: seq<ConfigSet>, arena: seq<Record>)
    reads sets
  {
    OneWay(arena) && Mirrors(sets, arena) && sets[0] == file
  }

  /** A new file has nothing below it. */
  lemma NewFileBuilt(file: ConfigSet)
    requires file.parent == null && file.values == [] && file.children == []
    ensures Built(file, [file], Start().arena)
  {
    var arena := Start().arena;
    assert RecordSound(arena, 0) && Times(arena, 0, 0) == 1;
    assert SetMirrors(file, arena[0], [file]);
  }

  /** Of some sets all but the file are deleted, each of them once. */
  ghost predicate AllDeleted(sets: seq<ConfigSet>, deleted: seq<ConfigSet>)
    requires sets != []
  {
    && NoDup(deleted)
    && (forall s :: s in deleted ==> s in sets[1..])
    && (forall s :: s in sets[1..] ==> s in deleted)
  }

  /** `clear` of a file. */
  method ClearFile(file: ConfigSet, ghost sets: seq<ConfigSet>, ghost arena: seq<Record>)
    returns (ghost deleted: seq<ConfigSet>)
    requires Built(file, sets, arena)
    modifies file
    ensures file.values == [] && file.children == [] && file.parent == null && AllDeleted(sets, deleted)
  {
    RecordOf(sets, arena, 0);
    deleted := file.Clear(sets, arena, 0);
    DeletedOnce(sets, arena);
  }

  /** The machine is past the first `i` lines. */
  ghost predicate CameTo(start: Machine, ts: seq<Line>, i: nat, m: Machine) {
    Sound(start) && i <= |ts| && Run(start, ts[..i]) == Some(m) && OneWay(m.arena)
  }

  lemma NextCameTo(start: Machine, ts: seq<Line>, i: nat, m: Machine)
    requires CameTo(start, ts, i, m) && i < |ts|
    ensures m.cur < |m.arena|
    ensures Step(m, ts[i]).Some? ==> CameTo(start, ts, i + 1, Step(m, ts[i]).value)
    ensures Step(m, ts[i]).None? ==> Run(start, ts).None? && StopsAt(start, ts, i + 1)
  {
    NextLine(start, ts, i, m);
    StepOneWay(m, ts[i]);
  }

  /** The body of the loop over the lines. */
  method ReadNext(line: string, cur: ConfigSet, findBracket: bool, ghost sets: seq<ConfigSet>,
                  ghost start: Machine, ghost ts: seq<Line>, ghost i: nat, ghost m: Machine)
    returns (ok: bool, next: ConfigSet, mode: bool, ghost after: seq<ConfigSet>, ghost n: Machine)
    requires CameTo(start, ts, i, m) && i < |ts| && ts[i] == Classify(line) && At(sets, m, cur, findBracket)
    modifies cur
    ensures Mirrors(after, n.arena) && OneWay(n.arena)
    ensures if ok then CameTo(start, ts, i + 1, n) && At(after, n, next, mode) && next in after
            else Run(start, ts).None? && StopsAt(start, ts, i + 1)
    ensures sets <= after && forall s :: s in after ==> s in sets || fresh(s)
  {
    NextCameTo(start, ts, i, m);
    ok, next, mode, after := ReadLine(line, cur, findBracket, sets, m, ts[i]);
    n := m;
    if ok {
      n := Step(m, ts[i]).value;
    } else {
      after := sets;
    }
  }

  /** `config_file::read` on the lines of a file: the sets that the machine builds, or the number of
      the line that the machine stops at. What the file had before is deleted. */
  method Read(file: ConfigSet, lines: seq<string>, ghost before: seq<ConfigSet>, ghost arena: seq<Record>)
    returns (r: Result<nat, nat>, ghost sets: seq<ConfigSet>, ghost m: Machine, ghost deleted: seq<ConfigSet>)
    requires Built(file, before, arena)
    modifies file
    ensures AllDeleted(before, deleted)
    ensures Sound(Start()) && (r.Ok? <==> Accepted(Run(Start(), ClassifyAll(lines))))
    ensures r.Ok? ==> Run(Start(), ClassifyAll(lines)) == Some(m)
    ensures r.Err? ==>
      StopsAt(Start(), ClassifyAll(lines), r.error) || (r.error == |lines| && EndsOpen(Start(), ClassifyAll(lines)))
    ensures Built(file, sets, m.arena)
  {
    deleted := ClearFile(file, before, arena);
    ghost var start := Start();
    NewFileBuilt(file);
    r, sets, m := ReadFrom(file, lines, start, ClassifyAll(lines));
  }

  method ReadFrom(file: ConfigSet, lines: seq<string>, ghost start: Machine, ghost ts: seq<Line>)
    returns (r: Result<nat, nat>, ghost sets: seq<ConfigSet>, ghost m: Machine)
    requires At([file], start, file, false) && OneWay(start.arena) && ts == ClassifyAll(lines)
    modifies file
    ensures r.Ok? <==> Accepted(Run(start, ts))
    ensures r.Ok? ==> Run(start, ts) == Some(m)
    ensures r.Err? ==> StopsAt(start, ts, r.error) || (r.error == |lines| && EndsOpen(start, ts))
    ensures Built(file, sets, m.arena)
  {
    var cur, findBracket, i := file, false, 0;
    sets, m := [file], start;
    while i < |lines|
      invariant 0 <= i <= |lines| && CameTo(start, ts, i, m)
      invariant At(sets, m, cur, findBracket) && sets[0] == file && cur in sets
      invariant forall s :: s in sets ==> s == file || fresh(s)
    {
      ClassifyAt(lines, i);
      var ok;
      ok, cur, findBracket, sets, m := ReadNext(lines[i], cur, findBracket, sets, start, ts, i, m);
      if !ok {
        return Err(i + 1), sets, m;
      }
      i := i + 1;
    }
    assert ts[..|ts|] == ts;
    ParentAtEnd(sets, m, cur, findBracket);
    r := if findBracket || cur.parent != null then Err(|lines|) else Ok(|lines|);
  }

  lemma ParentAtEnd(sets: seq<ConfigSet>, m: Machine, cur: ConfigSet, findBracket: bool)
    requires At(sets, m, cur, findBracket)
    ensures Complete(m) <==> !findBracket && cur.parent == null
  {
    assert SetMirrors(sets[m.cur], m.arena[m.cur], sets);
  }

  /** The constructor of a file: after a parse error the file is cleared, and every set that was built
      up to the error is deleted, each of them once. */
  method Open(file: ConfigSet, lines: seq<string>)
    returns (r: Result<nat, nat>, ghost sets: seq<ConfigSet>, ghost m: Machine, ghost deleted: seq<ConfigSet>)
    requires file.parent == null && file.values == [] && file.children == []
    modifies file
    ensures Sound(Start()) && (r.Ok? <==> Accepted(Run(Start(), ClassifyAll(lines))))
    ensures r.Ok? ==> Run(Start(), ClassifyAll(lines)) == Some(m) && Built(file, sets, m.arena) && deleted == []
    ensures r.Err? ==> file.values == [] && file.children == [] && |sets| == |m.arena| > 0 && AllDeleted(sets, deleted)
  {
    ghost var none;
    NewFileBuilt(file);
    r, sets, m, none := Read(file, lines, [file], Start().arena);
    deleted := [];
    if r.Err? {
      deleted := ClearFile(file, sets, m.arena);
    }
  }
}
