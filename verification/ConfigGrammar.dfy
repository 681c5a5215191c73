/** The line machine of src/configfile/configfile.cc against the grammar it stands for. */
module ConfigGrammar {
  import opened Wrappers
  import opened Multimap
  import opened ConfigLines

  // ----- the grammar -----

  datatype Item =
    | Value(key: string, value: string)
    | Section(key: string, ownLine: bool, body: seq<Item>)

  /** The lines of an item; the bracket of a section is on its own line or on that of the name. */
  function Lines(item: Item): seq<Line>
    decreases item, 0
  {
    match item
    case Value(k, v) => [Attribute(k, v)]
    case Section(k, ownLine, body) => (if ownLine then [Header(k), Open] else [HeaderOpen(k)]) + Flatten(body) + [Close]
  }

  function Flatten(items: seq<Item>): seq<Line>
    decreases items, 1
  {
    if items == [] then [] else Lines(items[0]) + Flatten(items[1..])
  }

  /** What a recursive parser makes of the lines up to a closing bracket or the end. */
  datatype Parsed = Parsed(items: seq<Item>, rest: seq<Line>) | Failed

  function Prepend(item: Item, p: Parsed): Parsed {
    match p
    case Failed => Failed
    case Parsed(items, rest) => Parsed([item] + items, rest)
  }

  /** The number of lines a section starts with, if it does start here. */
  function HeadLength(ts: seq<Line>): nat {
    if ts != [] && ts[0].HeaderOpen? then 1
    else if |ts| > 1 && ts[0].Header? && ts[1].Open? then 2
    else 0
  }

  function Parse(ts: seq<Line>): (r: Parsed)
    ensures r.Parsed? ==> |r.rest| <= |ts| && (r.rest != [] ==> r.rest[0].Close?)
    decreases |ts|
  {
    if ts == [] || ts[0].Close? then Parsed([], ts)
    else if ts[0].Attribute? then Prepend(Value(ts[0].key, ts[0].value), Parse(ts[1..]))
    else if HeadLength(ts) == 0 then Failed
    else
      match Parse(ts[HeadLength(ts)..])
      case Failed => Failed
      case Parsed(body, rest) =>
        if rest == [] then Failed
        else Prepend(Section(ts[0].key, HeadLength(ts) == 2, body), Parse(rest[1..]))
  }

  /** The parser only succeeds on lines of the grammar. */
  lemma {:induction false} ParseIsFlatten(ts: seq<Line>)
    ensures Parse(ts).Parsed? ==> ts == Flatten(Parse(ts).items) + Parse(ts).rest
    decreases |ts|
  {
    if ts == [] || ts[0].Close? {
    } else if ts[0].Attribute? {
      ParseIsFlatten(ts[1..]);
      FlattenCons(Value(ts[0].key, ts[0].value), Parse(ts[1..]));
    } else if HeadLength(ts) > 0 {
      var body := Parse(ts[HeadLength(ts)..]);
      ParseIsFlatten(ts[HeadLength(ts)..]);
      if body.Parsed? && body.rest != [] {
        ParseIsFlatten(body.rest[1..]);
        SectionLines(ts, body);
        FlattenCons(Section(ts[0].key, HeadLength(ts) == 2, body.items), Parse(body.rest[1..]));
      }
    }
  }

  lemma FlattenCons(item: Item, p: Parsed)
    ensures p.Parsed? ==> Flatten(Prepend(item, p).items) + p.rest == Lines(item) + (Flatten(p.items) + p.rest)
  {
    if p.Parsed? {
      assert ([item] + p.items)[1..] == p.items;
    }
  }

  lemma SectionLines(ts: seq<Line>, body: Parsed)
    requires HeadLength(ts) > 0 && body.Parsed? && body.rest != [] && body.rest[0].Close?
    requires ts[HeadLength(ts)..] == Flatten(body.items) + body.rest
    ensures ts == Lines(Section(ts[0].key, HeadLength(ts) == 2, body.items)) + body.rest[1..]
  {
    assert ts == ts[..HeadLength(ts)] + (Flatten(body.items) + body.rest);
    assert body.rest == [Close] + body.rest[1..];
  }

  /** And it succeeds on all of them. */
  lemma {:induction false} FlattenParses(items: seq<Item>, rest: seq<Line>)
    requires rest == [] || rest[0].Close?
    ensures Parse(Flatten(items) + rest) == Parsed(items, rest)
    decreases items
  {
    var ts := Flatten(items) + rest;
    if items == [] {
      assert ts == rest;
    } else {
      var next := Flatten(items[1..]) + rest;
      FlattenParses(items[1..], rest);
      assert ts == Lines(items[0]) + next;
      assert [items[0]] + items[1..] == items;
      if items[0].Section? {
        FlattenParses(items[0].body, [Close] + next);
      }
      ParseFirst(ts, items[0], next);
    }
  }

  lemma ParseFirst(ts: seq<Line>, item: Item, next: seq<Line>)
    requires ts == Lines(item) + next
    requires item.Section? ==> Parse(Flatten(item.body) + ([Close] + next)) == Parsed(item.body, [Close] + next)
    ensures Parse(ts) == Prepend(item, Parse(next))
  {
    match item
    case Value(k, v) =>
      assert ts[1..] == next;
    case Section(k, ownLine, body) =>
      SectionParts(ts, k, ownLine, body, next);
      assert ([Close] + next)[1..] == next;
  }

  lemma SectionParts(ts: seq<Line>, k: string, ownLine: bool, body: seq<Item>, next: seq<Line>)
    requires ts == Lines(Section(k, ownLine, body)) + next
    ensures HeadLength(ts) == (if ownLine then 2 else 1) && ts[0].key == k
    ensures ts[0].Header? || ts[0].HeaderOpen?
    ensures ts[HeadLength(ts)..] == Flatten(body) + ([Close] + next)
  {
  }

  // ----- the machine -----

  /** The configuration sets by number, each with its parent, and the children by number. */
  datatype Record = Record(parent: Option<nat>, values: Entries<string>, children: Entries<nat>)

  /** `cur_set` and `mode`, on the sets built so far. */
  datatype Machine = Machine(arena: seq<Record>, cur: nat, findBracket: bool)

  predicate RecordSound(arena: seq<Record>, i: nat)
    requires i < |arena|
  {
    && (arena[i].parent.Some? <==> i > 0)
    && (arena[i].parent.Some? ==> arena[i].parent.value < i)
    && (forall e :: e in arena[i].children ==> i < e.1 < |arena|)
  }

  /** Parents come before their children: the parent chain of every set ends at the file. */
  ghost predicate Sound(m: Machine) {
    m.cur < |m.arena| && forall i :: 0 <= i < |m.arena| ==> RecordSound(m.arena, i)
  }

  function Start(): Machine {
    Machine([Record(None, [], [])], 0, false)
  }

  /** A new set below the current one becomes the current one. */
  function Enter(m: Machine, k: string, findBracket: bool): Machine
    requires m.cur < |m.arena|
  {
    var r := m.arena[m.cur];
    Machine(m.arena[m.cur := r.(children := Insert<nat>(r.children, k, |m.arena|))] + [Record(Some(m.cur), [], [])],
            |m.arena|, findBracket)
  }

  function AddValue(m: Machine, k: string, v: string): Machine
    requires m.cur < |m.arena|
  {
    m.(arena := m.arena[m.cur := m.arena[m.cur].(values := Insert(m.arena[m.cur].values, k, v))])
  }

  /** One line; nothing for a parse error. */
  function Step(m: Machine, l: Line): Option<Machine>
    requires m.cur < |m.arena|
  {
    if l.Blank? then Some(m)
    else if m.findBracket then
      if l.Open? then Some(m.(findBracket := false)) else None
    else
      match l
      case Attribute(k, v) => Some(AddValue(m, k, v))
      case Header(k) => Some(Enter(m, k, true))
      case HeaderOpen(k) => Some(Enter(m, k, false))
      case Close => if m.arena[m.cur].parent.Some? then Some(m.(cur := m.arena[m.cur].parent.value)) else None
      case _ => None
  }

  lemma EnterSound(m: Machine, k: string, findBracket: bool)
    requires Sound(m)
    ensures Sound(Enter(m, k, findBracket))
  {
    var n := Enter(m, k, findBracket);
    forall i | 0 <= i < |n.arena| ensures RecordSound(n.arena, i) {
      if i < |m.arena| {
        assert RecordSound(m.arena, i);
      }
      forall e | e in n.arena[i].children ensures i < e.1 < |n.arena| {
        if i == m.cur {
          InsertMembers<nat>(m.arena[i].children, k, |m.arena|, e);
        }
      }
    }
  }

  lemma StepSound(m: Machine, l: Line)
    requires Sound(m)
    ensures Step(m, l).Some? ==> Sound(Step(m, l).value)
  {
    assert RecordSound(m.arena, m.cur);
    if Step(m, l).Some? {
      if !m.findBracket && (l.Header? || l.HeaderOpen?) {
        EnterSound(m, l.key, l.Header?);
      } else {
        var n := Step(m, l).value;
        forall i | 0 <= i < |n.arena| ensures RecordSound(n.arena, i) {
          assert RecordSound(m.arena, i);
        }
      }
    }
  }

  /** The machine on a list of lines. */
  ghost function Run(m: Machine, ts: seq<Line>): (r: Option<Machine>)
    requires Sound(m)
    ensures r.Some? ==> Sound(r.value)
    decreases |ts|
  {
    StepSound(m, if ts == [] then Blank else ts[0]);
    if ts == [] then Some(m)
    else if Step(m, ts[0]).None? then None
    else Run(Step(m, ts[0]).value, ts[1..])
  }

  /** The end of the file is fine. */
  predicate Complete(m: Machine)
    requires m.cur < |m.arena|
  {
    !m.findBracket && m.arena[m.cur].parent.None?
  }

  ghost predicate Accepted(r: Option<Machine>)
    requires r.Some? ==> Sound(r.value)
  {
    r.Some? && Complete(r.value)
  }

  lemma {:induction false} RunConcat(m: Machine, a: seq<Line>, b: seq<Line>)
    requires Sound(m)
    ensures Run(m, a + b) == if Run(m, a).None? then None else Run(Run(m, a).value, b)
    decreases |a|
  {
    if a == [] {
      assert a + b == b;
    } else {
      assert (a + b)[1..] == a[1..] + b;
      StepSound(m, a[0]);
      if Step(m, a[0]).Some? {
        RunConcat(Step(m, a[0]).value, a[1..], b);
      }
    }
  }

  lemma RunOne(m: Machine, l: Line)
    requires Sound(m)
    ensures Run(m, [l]) == Step(m, l)
  {
    StepSound(m, l);
    assert [l][1..] == [];
  }

  function NonBlank(ts: seq<Line>): (r: seq<Line>)
    ensures forall l :: l in r ==> !l.Blank?
  {
    if ts == [] then [] else if ts[0].Blank? then NonBlank(ts[1..]) else [ts[0]] + NonBlank(ts[1..])
  }

  /** Blank lines and comments do not matter. */
  lemma {:induction false} BlanksDoNotMatter(m: Machine, ts: seq<Line>)
    requires Sound(m)
    ensures Run(m, ts) == Run(m, NonBlank(ts))
    decreases |ts|
  {
    if ts != [] {
      StepSound(m, ts[0]);
      assert ([ts[0]] + NonBlank(ts[1..]))[1..] == NonBlank(ts[1..]);
      if Step(m, ts[0]).Some? {
        BlanksDoNotMatter(Step(m, ts[0]).value, ts[1..]);
      }
    }
  }

  // ----- the parent chain -----

  /** The length of the parent chain of set `i`. */
  ghost function Depth(arena: seq<Record>, i: nat): nat
    requires i < |arena|
  {
    if arena[i].parent.Some? && arena[i].parent.value < i then 1 + Depth(arena, arena[i].parent.value) else 0
  }

  lemma {:induction false} DepthFrame(a: seq<Record>, b: seq<Record>, i: nat)
    requires i < |a| <= |b| && forall j :: 0 <= j <= i ==> a[j].parent == b[j].parent
    ensures Depth(a, i) == Depth(b, i)
  {
    if a[i].parent.Some? && a[i].parent.value < i {
      DepthFrame(a, b, a[i].parent.value);
    }
  }

  function Opens(ts: seq<Line>): nat {
    if ts == [] then 0 else Opens(ts[1..]) + if ts[0].Header? || ts[0].HeaderOpen? then 1 else 0
  }

  function Closes(ts: seq<Line>): nat {
    if ts == [] then 0 else Closes(ts[1..]) + if ts[0].Close? then 1 else 0
  }

  lemma StepDepth(m: Machine, l: Line)
    requires Sound(m) && Step(m, l).Some?
    ensures var n := Step(m, l).value;
            n.cur < |n.arena| && Depth(n.arena, n.cur) + Closes([l]) == Depth(m.arena, m.cur) + Opens([l])
  {
    var n := Step(m, l).value;
    StepSound(m, l);
    assert RecordSound(m.arena, m.cur);
    assert [l][1..] == [];
    DepthFrame(m.arena, n.arena, m.cur);
    if l.Close? && !m.findBracket {
      DepthFrame(m.arena, n.arena, n.cur);
    }
  }

  /** The parent chain of the current set is as long as there were sections opened and not closed. */
  lemma {:induction false} DepthIsOpensMinusCloses(m: Machine, ts: seq<Line>)
    requires Sound(m) && Run(m, ts).Some?
    ensures Depth(Run(m, ts).value.arena, Run(m, ts).value.cur) + Closes(ts) == Depth(m.arena, m.cur) + Opens(ts)
    decreases |ts|
  {
    if ts != [] {
      StepSound(m, ts[0]);
      StepDepth(m, ts[0]);
      assert [ts[0]][1..] == [];
      DepthIsOpensMinusCloses(Step(m, ts[0]).value, ts[1..]);
    }
  }
}
