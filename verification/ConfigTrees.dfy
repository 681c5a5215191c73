/** The trees that the line machine of src/configfile/configfile.cc builds. */
module ConfigTrees {
  import opened Wrappers
  import opened StringOrder
  import opened Multimap
  import opened ConfigLines
  import opened ConfigGrammar

  /** A configuration set with all that is below it. */
  datatype Tree = Tree(values: Entries<string>, children: seq<(string, Tree)>)

  const EMPTY: Tree := Tree([], [])

  // ----- the recursive reading -----

  /** The set that results from adding an item, parsed as a whole. */
  function AddItem(t: Tree, item: Item): Tree
    decreases item, 0
  {
    match item
    case Value(k, v) => t.(values := Insert(t.values, k, v))
    case Section(k, _, body) => t.(children := Insert(t.children, k, AddItems(EMPTY, body)))
  }

  function AddItems(t: Tree, items: seq<Item>): Tree
    decreases items, 1
  {
    if items == [] then t else AddItems(AddItem(t, items[0]), items[1..])
  }

  // ----- the sets of the machine as trees -----

  /** The tree of set `i`; children have greater numbers. */
  ghost function TreeOf(arena: seq<Record>, i: nat): Tree
    requires i < |arena|
    decreases |arena| - i, 1, 0
  {
    Tree(arena[i].values, TreesOf(arena, i, arena[i].children))
  }

  ghost function TreesOf(arena: seq<Record>, i: nat, kids: Entries<nat>): seq<(string, Tree)>
    requires i < |arena|
    decreases |arena| - i, 0, |kids|
  {
    if kids == [] then []
    else
      [(kids[0].0, if i < kids[0].1 < |arena| then TreeOf(arena, kids[0].1) else EMPTY)]
      + TreesOf(arena, i, kids[1..])
  }

  /** Arenas that agree on the numbers from `lo` to the end of the first one. */
  predicate Agree(a: seq<Record>, b: seq<Record>, lo: nat) {
    |a| <= |b| && forall j :: lo <= j < |a| ==> a[j] == b[j]
  }

  predicate AllSound(arena: seq<Record>) {
    forall i :: 0 <= i < |arena| ==> RecordSound(arena, i)
  }

  /** A tree only depends on greater numbers. */
  lemma {:induction false} TreeFrame(a: seq<Record>, b: seq<Record>, i: nat)
    requires i < |a| && AllSound(a) && Agree(a, b, i)
    ensures TreeOf(a, i) == TreeOf(b, i)
    decreases |a| - i, 1, 0
  {
    assert RecordSound(a, i);
    TreesFrame(a, b, i, a[i].children);
  }

  lemma {:induction false} TreesFrame(a: seq<Record>, b: seq<Record>, i: nat, kids: Entries<nat>)
    requires i < |a| && AllSound(a) && Agree(a, b, i + 1) && forall e :: e in kids ==> i < e.1 < |a|
    ensures TreesOf(a, i, kids) == TreesOf(b, i, kids)
    decreases |a| - i, 0, |kids|
  {
    if kids != [] {
      TreeFrame(a, b, kids[0].1);
      TreesFrame(a, b, i, kids[1..]);
    }
  }

  /** Inserting a child inserts its tree. */
  lemma {:induction false} TreesInsert(arena: seq<Record>, i: nat, kids: Entries<nat>, k: string, n: nat)
    requires i < n < |arena|
    ensures TreesOf(arena, i, Insert(kids, k, n)) == Insert(TreesOf(arena, i, kids), k, TreeOf(arena, n))
  {
    if kids == [] {
      assert [(k, n)][1..] == [];
    } else if Less(k, kids[0].0) {
      assert ([(k, n)] + kids)[1..] == kids;
    } else {
      TreesInsert(arena, i, kids[1..], k, n);
      assert Insert(kids, k, n)[1..] == Insert(kids[1..], k, n);
      assert TreesOf(arena, i, kids)[1..] == TreesOf(arena, i, kids[1..]);
    }
  }

  // ----- the machine builds the tree -----

  /** `n` is `m` after some items of the current set: the other sets are as before. */
  ghost predicate Grown(m: Machine, n: Machine) {
    && Sound(m) && Sound(n) && n.cur == m.cur && |m.arena| <= |n.arena| && !n.findBracket
    && n.arena[m.cur].parent == m.arena[m.cur].parent
    && forall j :: 0 <= j < |m.arena| && j != m.cur ==> n.arena[j] == m.arena[j]
  }

  lemma ValueGrows(m: Machine, k: string, v: string)
    requires Sound(m) && !m.findBracket
    ensures Grown(m, AddValue(m, k, v))
    ensures TreeOf(AddValue(m, k, v).arena, m.cur) == AddItem(TreeOf(m.arena, m.cur), Value(k, v))
  {
    StepSound(m, Attribute(k, v));
    assert RecordSound(m.arena, m.cur);
    TreesFrame(m.arena, AddValue(m, k, v).arena, m.cur, m.arena[m.cur].children);
  }

  /** A section that was entered, filled and left adds its tree to the current set. */
  lemma SectionGrows(m: Machine, k: string, n: Machine, t: Tree)
    requires Sound(m) && !m.findBracket && Grown(Enter(m, k, false), n) && t == TreeOf(n.arena, n.cur)
    ensures Step(n, Close) == Some(n.(cur := m.cur)) && Grown(m, n.(cur := m.cur))
    ensures TreeOf(n.arena, m.cur) == TreeOf(m.arena, m.cur).(children := Insert(TreeOf(m.arena, m.cur).children, k, t))
  {
    var e := Enter(m, k, false);
    assert n.arena[m.cur] == e.arena[m.cur];
    assert RecordSound(m.arena, m.cur);
    TreesFrame(m.arena, n.arena, m.cur, m.arena[m.cur].children);
    TreesInsert(n.arena, m.cur, m.arena[m.cur].children, k, |m.arena|);
  }

  lemma GrownTrans(a: Machine, b: Machine, c: Machine)
    requires Grown(a, b) && Grown(b, c)
    ensures Grown(a, c)
  {
  }

  /** The head of a section leads into a new set. */
  lemma HeadEnters(m: Machine, k: string, ownLine: bool)
    requires Sound(m) && !m.findBracket
    ensures Sound(Enter(m, k, false))
    ensures Run(m, if ownLine then [Header(k), Open] else [HeaderOpen(k)]) == Some(Enter(m, k, false))
  {
    EnterSound(m, k, false);
    if ownLine {
      EnterSound(m, k, true);
      assert [Header(k), Open] == [Header(k)] + [Open];
      RunConcat(m, [Header(k)], [Open]);
      RunOne(m, Header(k));
      RunOne(Enter(m, k, true), Open);
    } else {
      RunOne(m, HeaderOpen(k));
    }
  }

  lemma {:induction false} ItemGrows(m: Machine, item: Item)
    requires Sound(m) && !m.findBracket
    ensures Run(m, Lines(item)).Some? && Grown(m, Run(m, Lines(item)).value)
    ensures TreeOf(Run(m, Lines(item)).value.arena, m.cur) == AddItem(TreeOf(m.arena, m.cur), item)
    decreases item, 0
  {
    match item
    case Value(k, v) =>
      RunOne(m, Attribute(k, v));
      ValueGrows(m, k, v);
    case Section(k, ownLine, body) =>
      var head := if ownLine then [Header(k), Open] else [HeaderOpen(k)];
      var e := Enter(m, k, false);
      HeadEnters(m, k, ownLine);
      ItemsGrow(e, body);
      var n := Run(e, Flatten(body)).value;
      assert TreeOf(e.arena, e.cur) == EMPTY;
      SectionGrows(m, k, n, AddItems(EMPTY, body));
      RunConcat(m, head + Flatten(body), [Close]);
      RunConcat(m, head, Flatten(body));
      RunOne(n, Close);
  }

  lemma {:induction false} ItemsGrow(m: Machine, items: seq<Item>)
    requires Sound(m) && !m.findBracket
    ensures Run(m, Flatten(items)).Some? && Grown(m, Run(m, Flatten(items)).value)
    ensures TreeOf(Run(m, Flatten(items)).value.arena, m.cur) == AddItems(TreeOf(m.arena, m.cur), items)
    decreases items, 1
  {
    if items != [] {
      ItemGrows(m, items[0]);
      var n := Run(m, Lines(items[0])).value;
      ItemsGrow(n, items[1..]);
      RunConcat(m, Lines(items[0]), Flatten(items[1..]));
      GrownTrans(m, n, Run(n, Flatten(items[1..])).value);
    }
  }

  // ----- acceptance -----

  /** The recursive parser and the machine agree behind the items that the parser has read. */
  lemma RunBehind(m: Machine, items: seq<Item>, rest: seq<Line>) returns (n: Machine)
    requires Sound(m) && !m.findBracket
    ensures Grown(m, n) && Run(m, Flatten(items) + rest) == Run(n, rest)
    ensures TreeOf(n.arena, m.cur) == AddItems(TreeOf(m.arena, m.cur), items)
  {
    ItemsGrow(m, items);
    n := Run(m, Flatten(items)).value;
    RunConcat(m, Flatten(items), rest);
  }

  lemma FirstLine(m: Machine, ts: seq<Line>)
    requires Sound(m) && ts != []
    ensures Step(m, ts[0]).None? ==> Run(m, ts) == None
    ensures Step(m, ts[0]).Some? ==> Sound(Step(m, ts[0]).value) && Run(m, ts) == Run(Step(m, ts[0]).value, ts[1..])
  {
    StepSound(m, ts[0]);
  }

  /** Lines that start no section and are no attribute stop the machine. */
  lemma BadHeadRejected(m: Machine, ts: seq<Line>)
    requires Sound(m) && !m.findBracket && ts != [] && HeadLength(ts) == 0
    requires !ts[0].Attribute? && !ts[0].Close? && forall l :: l in ts ==> !l.Blank?
    ensures !Accepted(Run(m, ts))
  {
    FirstLine(m, ts);
    if ts[0].Header? {
      var e := Step(m, ts[0]).value;
      if |ts| > 1 {
        FirstLine(e, ts[1..]);
      }
    }
  }

  lemma HeadRun(m: Machine, ts: seq<Line>)
    requires Sound(m) && !m.findBracket && HeadLength(ts) > 0
    ensures Sound(Enter(m, ts[0].key, false)) && Run(m, ts) == Run(Enter(m, ts[0].key, false), ts[HeadLength(ts)..])
  {
    var head := ts[..HeadLength(ts)];
    HeadEnters(m, ts[0].key, HeadLength(ts) == 2);
    assert head == if HeadLength(ts) == 2 then [Header(ts[0].key), Open] else [HeaderOpen(ts[0].key)];
    assert ts == head + ts[HeadLength(ts)..];
    RunConcat(m, head, ts[HeadLength(ts)..]);
  }

  /** What the recursive parser cannot read, the machine does not accept, at any depth. */
  lemma {:induction false} FailedRejected(m: Machine, ts: seq<Line>)
    requires Sound(m) && !m.findBracket && Parse(ts).Failed? && forall l :: l in ts ==> !l.Blank?
    ensures !Accepted(Run(m, ts))
    decreases |ts|
  {
    if ts[0].Attribute? {
      FirstLine(m, ts);
      FailedRejected(Step(m, ts[0]).value, ts[1..]);
    } else if HeadLength(ts) == 0 {
      BadHeadRejected(m, ts);
    } else {
      var inner := ts[HeadLength(ts)..];
      HeadRun(m, ts);
      if Parse(inner).Failed? {
        FailedRejected(Enter(m, ts[0].key, false), inner);
      } else {
        BodyRejected(m, ts[0].key, inner);
      }
    }
  }

  lemma BodyRejected(m: Machine, k: string, inner: seq<Line>)
    requires Sound(m) && !m.findBracket && Sound(Enter(m, k, false)) && Parse(inner).Parsed?
    requires Parse(inner).rest == [] || Parse(Parse(inner).rest[1..]).Failed?
    requires forall l :: l in inner ==> !l.Blank?
    ensures !Accepted(Run(Enter(m, k, false), inner))
    decreases |inner|, 0
  {
    var body, rest := Parse(inner).items, Parse(inner).rest;
    ParseIsFlatten(inner);
    var n := RunBehind(Enter(m, k, false), body, rest);
    assert RecordSound(n.arena, n.cur);
    if rest != [] {
      FirstLine(n, rest);
      assert forall l :: l in rest[1..] ==> l in rest && l in inner;
      SectionGrows(m, k, n, TreeOf(n.arena, n.cur));
      FailedRejected(n.(cur := m.cur), rest[1..]);
    }
  }

  /** The machine accepts exactly the lines of the grammar, and builds the tree of the recursive
      parser. */
  lemma MachineIsParser(ts: seq<Line>)
    requires forall l :: l in ts ==> !l.Blank?
    ensures Sound(Start())
    ensures Accepted(Run(Start(), ts)) <==> Parse(ts).Parsed? && Parse(ts).rest == []
    ensures Accepted(Run(Start(), ts)) ==> TreeOf(Run(Start(), ts).value.arena, 0) == AddItems(EMPTY, Parse(ts).items)
  {
    var m := Start();
    assert TreeOf(m.arena, 0) == EMPTY;
    if Parse(ts).Failed? {
      FailedRejected(m, ts);
    } else {
      ParseIsFlatten(ts);
      var n := RunBehind(m, Parse(ts).items, Parse(ts).rest);
      if Parse(ts).rest != [] {
        FirstLine(n, Parse(ts).rest);
      }
    }
  }

  ghost predicate InGrammar(ts: seq<Line>) {
    exists items :: ts == Flatten(items)
  }

  /** Acceptance is membership in the grammar, whatever blank lines there are. */
  lemma AcceptsTheGrammar(ts: seq<Line>)
    ensures Sound(Start())
    ensures Accepted(Run(Start(), ts)) <==> InGrammar(NonBlank(ts))
  {
    var nb := NonBlank(ts);
    BlanksDoNotMatter(Start(), ts);
    MachineIsParser(nb);
    ParseIsFlatten(nb);
    if Parse(nb).Parsed? && Parse(nb).rest == [] {
      assert nb == Flatten(Parse(nb).items);
    }
    if InGrammar(nb) {
      var items :| nb == Flatten(items);
      assert nb == Flatten(items) + [];
      FlattenParses(items, []);
    }
  }

  /** The lines of items are read as the tree of the items. */
  lemma ItemsAreRead(items: seq<Item>, ts: seq<Line>)
    requires NonBlank(ts) == Flatten(items)
    ensures Sound(Start()) && Accepted(Run(Start(), ts))
    ensures TreeOf(Run(Start(), ts).value.arena, 0) == AddItems(EMPTY, items)
  {
    BlanksDoNotMatter(Start(), ts);
    MachineIsParser(NonBlank(ts));
    FlattenParses(items, []);
    assert Flatten(items) + [] == Flatten(items);
  }
}
