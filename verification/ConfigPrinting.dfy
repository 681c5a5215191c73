/** Printing configuration trees, and reading them back. */
module ConfigPrinting {
  import opened Wrappers
  import opened StringOrder
  import opened Multimap
  import opened ConfigLines
  import opened ConfigGrammar
  import opened ConfigTrees

  // ----- trees as items -----

  function ValueItems(vs: Entries<string>): seq<Item> {
    if vs == [] then [] else [Value(vs[0].0, vs[0].1)] + ValueItems(vs[1..])
  }

  function SectionItems(cs: seq<(string, Tree)>, ownLine: bool): seq<Item>
    decreases cs, 0
  {
    if cs == [] then []
    else
      assert cs[0].1 < cs[0];
      [Section(cs[0].0, ownLine, ItemsOf(cs[0].1, ownLine))] + SectionItems(cs[1..], ownLine)
  }

  /** The values of a set and then its sections, in one of the two bracket styles. */
  function ItemsOf(t: Tree, ownLine: bool): seq<Item>
    decreases t, 1
  {
    ValueItems(t.values) + SectionItems(t.children, ownLine)
  }

  /** The entries of all multimaps are in order. */
  ghost predicate SortedTree(t: Tree)
    decreases t, 1
  {
    Sorted(t.values) && Sorted(t.children) && SortedTrees(t.children)
  }

  ghost predicate SortedTrees(cs: seq<(string, Tree)>)
    decreases cs, 0
  {
    cs == [] || (assert cs[0].1 < cs[0]; SortedTree(cs[0].1) && SortedTrees(cs[1..]))
  }

  lemma {:induction false} AddItemsConcat(t: Tree, a: seq<Item>, b: seq<Item>)
    ensures AddItems(t, a + b) == AddItems(AddItems(t, a), b)
    decreases |a|
  {
    if a == [] {
      assert a + b == b;
    } else {
      assert (a + b)[1..] == a[1..] + b;
      AddItemsConcat(AddItem(t, a[0]), a[1..], b);
    }
  }

  lemma SortedAppends<V>(m: Entries<V>, e: (string, V), rest: Entries<V>)
    requires Sorted(m + [e] + rest)
    ensures Insert(m, e.0, e.1) == m + [e]
  {
    forall x | x in m ensures !Less(e.0, x.0) {
      var i :| 0 <= i < |m| && m[i] == x;
      assert (m + [e] + rest)[i] == x && (m + [e] + rest)[|m|] == e;
    }
    InsertAppends(m, e.0, e.1);
  }

  lemma {:induction false} ValuesAdded(t: Tree, vs: Entries<string>)
    requires Sorted(t.values + vs)
    ensures AddItems(t, ValueItems(vs)) == t.(values := t.values + vs)
    decreases |vs|
  {
    if vs == [] {
      assert t.values + vs == t.values;
    } else {
      assert t.values + vs == t.values + [vs[0]] + vs[1..];
      SortedAppends(t.values, vs[0], vs[1..]);
      assert ValueItems(vs)[1..] == ValueItems(vs[1..]);
      ValuesAdded(t.(values := t.values + [vs[0]]), vs[1..]);
    }
  }

  lemma {:induction false} ChildrenAdded(t: Tree, cs: seq<(string, Tree)>, ownLine: bool)
    requires Sorted(t.children + cs) && SortedTrees(cs)
    ensures AddItems(t, SectionItems(cs, ownLine)) == t.(children := t.children + cs)
    decreases cs, 0
  {
    if cs == [] {
      assert t.children + cs == t.children;
    } else {
      assert t.children + cs == t.children + [cs[0]] + cs[1..];
      SortedAppends(t.children, cs[0], cs[1..]);
      assert SectionItems(cs, ownLine)[1..] == SectionItems(cs[1..], ownLine);
      assert cs[0].1 < cs[0];
      TreeIsItsItems(cs[0].1, ownLine);
      assert cs[0] == (cs[0].0, cs[0].1);
      ChildrenAdded(t.(children := t.children + [cs[0]]), cs[1..], ownLine);
    }
  }

  /** A tree is what its items build. */
  lemma {:induction false} TreeIsItsItems(t: Tree, ownLine: bool)
    requires SortedTree(t)
    ensures AddItems(EMPTY, ItemsOf(t, ownLine)) == t
    decreases t, 1
  {
    AddItemsConcat(EMPTY, ValueItems(t.values), SectionItems(t.children, ownLine));
    assert [] + t.values == t.values;
    ValuesAdded(EMPTY, t.values);
    assert [] + t.children == t.children;
    ChildrenAdded(Tree(t.values, []), t.children, ownLine);
  }

  // ----- trees as lines of text -----

  predicate AllPrintable(ts: seq<Line>) {
    forall l :: l in ts ==> Printable(l)
  }

  ghost predicate PrintableItems(items: seq<Item>) {
    AllPrintable(Flatten(items))
  }

  function ClassifyAll(lines: seq<string>): (ts: seq<Line>)
    ensures |ts| == |lines|
  {
    if lines == [] then [] else [Classify(lines[0])] + ClassifyAll(lines[1..])
  }

  lemma {:induction false} EachIsRead(lines: seq<string>, ts: seq<Line>)
    requires |lines| == |ts| && forall i :: 0 <= i < |lines| ==> Classify(lines[i]) == ts[i]
    ensures ClassifyAll(lines) == ts
  {
    if lines != [] {
      EachIsRead(lines[1..], ts[1..]);
      assert ts == [ts[0]] + ts[1..];
    }
  }

  /** Lines that are written as patterns say, with whatever blanks and comments, are read as those patterns. */
  lemma WrittenIsRead(lines: seq<string>, ts: seq<Line>, ps: seq<Parts>)
    requires |lines| == |ts| == |ps| && forall i :: 0 <= i < |lines| ==> Fits(lines[i], ts[i], ps[i])
    ensures ClassifyAll(lines) == ts
  {
    forall i | 0 <= i < |lines| ensures Classify(lines[i]) == ts[i] {
      FitsIsRead(lines[i], ts[i], ps[i]);
    }
    EachIsRead(lines, ts);
  }

  lemma {:induction false} ClassifyEach(front: seq<string>, back: seq<string>)
    ensures ClassifyAll(front + back) == ClassifyAll(front) + ClassifyAll(back)
  {
    if front == [] {
      assert front + back == back;
    } else {
      assert (front + back)[1..] == front[1..] + back;
      ClassifyEach(front[1..], back);
    }
  }

  lemma {:induction false} NonBlankEach(front: seq<Line>, back: seq<Line>)
    ensures NonBlank(front + back) == NonBlank(front) + NonBlank(back)
  {
    if front == [] {
      assert front + back == back;
    } else {
      assert (front + back)[1..] == front[1..] + back;
      NonBlankEach(front[1..], back);
    }
  }

  lemma OneComment(line: string)
    requires Classify(line) == Blank
    ensures NonBlank(ClassifyAll([line])) == []
  {
    assert [line][1..] == [] && [Blank][1..] == [];
  }

  /** A line of blanks and a comment may stand anywhere in a file: what is read does not change. */
  lemma CommentLineDoesNotMatter(front: seq<string>, indent: string, comment: string, back: seq<string>)
    requires IsIndent(indent) && IsComment(comment)
    ensures Sound(Start())
    ensures Run(Start(), ClassifyAll(front + ([indent + comment] + back))) == Run(Start(), ClassifyAll(front + back))
  {
    var line := indent + comment;
    CommentIsBlank(indent, comment);
    OneComment(line);
    ClassifyEach(front, [line] + back);
    ClassifyEach([line], back);
    ClassifyEach(front, back);
    NonBlankEach(ClassifyAll(front), ClassifyAll([line] + back));
    NonBlankEach(ClassifyAll([line]), ClassifyAll(back));
    NonBlankEach(ClassifyAll(front), ClassifyAll(back));
    BlanksDoNotMatter(Start(), ClassifyAll(front + ([line] + back)));
    BlanksDoNotMatter(Start(), ClassifyAll(front + back));
  }

  /** The text of lines, each with an indentation of its own. */
  function Rendered(ts: seq<Line>, indents: seq<string>): seq<string>
    requires |indents| == |ts| && AllPrintable(ts)
  {
    if ts == [] then []
    else
      assert Printable(ts[0]);
      [indents[0] + PrintLine(ts[0])] + Rendered(ts[1..], indents[1..])
  }

  lemma {:induction false} RenderedIsRead(ts: seq<Line>, indents: seq<string>)
    requires |indents| == |ts| && AllPrintable(ts) && forall i :: 0 <= i < |indents| ==> IsIndent(indents[i])
    ensures ClassifyAll(Rendered(ts, indents)) == ts
  {
    if ts != [] {
      ReadUndoesPrint(indents[0], ts[0]);
      RenderedIsRead(ts[1..], indents[1..]);
      assert Rendered(ts, indents)[1..] == Rendered(ts[1..], indents[1..]);
      assert ts == [ts[0]] + ts[1..];
    }
  }

  /** The names and values of a tree can be carried by lines. */
  ghost predicate PrintableTree(t: Tree)
    decreases t, 1
  {
    (forall e :: e in t.values ==> IsName(e.0) && IsValue(e.1)) && PrintableTrees(t.children)
  }

  ghost predicate PrintableTrees(cs: seq<(string, Tree)>)
    decreases cs, 0
  {
    cs == [] || (assert cs[0].1 < cs[0]; IsName(cs[0].0) && PrintableTree(cs[0].1) && PrintableTrees(cs[1..]))
  }

  lemma {:induction false} FlattenConcat(a: seq<Item>, b: seq<Item>)
    ensures Flatten(a + b) == Flatten(a) + Flatten(b)
    decreases |a|
  {
    if a == [] {
      assert a + b == b;
    } else {
      assert (a + b)[1..] == a[1..] + b;
      FlattenConcat(a[1..], b);
    }
  }

  lemma {:induction false} ValueLinesPrintable(vs: Entries<string>)
    requires forall e :: e in vs ==> IsName(e.0) && IsValue(e.1)
    ensures PrintableItems(ValueItems(vs))
    decreases |vs|
  {
    if vs != [] {
      ValueLinesPrintable(vs[1..]);
      assert ValueItems(vs)[1..] == ValueItems(vs[1..]);
    }
  }

  lemma {:induction false} SectionLinesPrintable(cs: seq<(string, Tree)>, ownLine: bool)
    requires PrintableTrees(cs)
    ensures PrintableItems(SectionItems(cs, ownLine))
    decreases cs, 0
  {
    if cs != [] {
      assert cs[0].1 < cs[0];
      TreeLinesPrintable(cs[0].1, ownLine);
      SectionLinesPrintable(cs[1..], ownLine);
      assert SectionItems(cs, ownLine)[1..] == SectionItems(cs[1..], ownLine);
    }
  }

  lemma {:induction false} TreeLinesPrintable(t: Tree, ownLine: bool)
    requires PrintableTree(t)
    ensures PrintableItems(ItemsOf(t, ownLine))
    decreases t, 1
  {
    ValueLinesPrintable(t.values);
    SectionLinesPrintable(t.children, ownLine);
    FlattenConcat(ValueItems(t.values), SectionItems(t.children, ownLine));
  }

  lemma {:induction false} NothingBlank(ts: seq<Line>)
    requires forall l :: l in ts ==> !l.Blank?
    ensures NonBlank(ts) == ts
  {
    if ts != [] {
      NothingBlank(ts[1..]);
      assert ts == [ts[0]] + ts[1..];
    }
  }

  lemma {:induction false} ItemLinesNotBlank(items: seq<Item>)
    ensures forall l :: l in Flatten(items) ==> !l.Blank?
    decreases items
  {
    if items != [] {
      ItemLinesNotBlank(items[1..]);
      if items[0].Section? {
        ItemLinesNotBlank(items[0].body);
      }
    }
  }

  /** Reading back a printed tree gives the tree, in both bracket styles and behind any indentation. */
  lemma ReadUndoesPrintTree(t: Tree, ownLine: bool, indents: seq<string>)
    requires SortedTree(t) && PrintableTree(t)
    requires |indents| == |Flatten(ItemsOf(t, ownLine))| && forall i :: 0 <= i < |indents| ==> IsIndent(indents[i])
    ensures AllPrintable(Flatten(ItemsOf(t, ownLine))) && Sound(Start())
    ensures var r := Run(Start(), ClassifyAll(Rendered(Flatten(ItemsOf(t, ownLine)), indents)));
            Accepted(r) && TreeOf(r.value.arena, 0) == t
  {
    var items := ItemsOf(t, ownLine);
    TreeLinesPrintable(t, ownLine);
    RenderedIsRead(Flatten(items), indents);
    ItemLinesNotBlank(items);
    NothingBlank(Flatten(items));
    ItemsAreRead(items, Flatten(items));
    TreeIsItsItems(t, ownLine);
  }

  // ----- every tree that was read prints back -----

  lemma {:induction false} SortedTreesInsert(cs: seq<(string, Tree)>, k: string, t: Tree)
    requires SortedTrees(cs) && SortedTree(t)
    ensures SortedTrees(Insert(cs, k, t))
    decreases |cs|
  {
    if cs == [] {
      assert [(k, t)][1..] == [];
    } else if Less(k, cs[0].0) {
      assert ([(k, t)] + cs)[1..] == cs;
    } else {
      SortedTreesInsert(cs[1..], k, t);
      assert Insert(cs, k, t)[1..] == Insert(cs[1..], k, t);
    }
  }

  lemma {:induction false} BuiltIsSorted(t: Tree, items: seq<Item>)
    requires SortedTree(t)
    ensures SortedTree(AddItems(t, items))
    decreases items
  {
    if items != [] {
      match items[0] {
        case Value(k, v) => InsertSorted(t.values, k, v);
        case Section(k, _, body) =>
          BuiltIsSorted(EMPTY, body);
          InsertSorted(t.children, k, AddItems(EMPTY, body));
          SortedTreesInsert(t.children, k, AddItems(EMPTY, body));
      }
      BuiltIsSorted(AddItem(t, items[0]), items[1..]);
    }
  }

  lemma {:induction false} PrintableTreesInsert(cs: seq<(string, Tree)>, k: string, t: Tree)
    requires PrintableTrees(cs) && IsName(k) && PrintableTree(t)
    ensures PrintableTrees(Insert(cs, k, t))
    decreases |cs|
  {
    if cs == [] {
      assert [(k, t)][1..] == [];
    } else if Less(k, cs[0].0) {
      assert ([(k, t)] + cs)[1..] == cs;
    } else {
      PrintableTreesInsert(cs[1..], k, t);
      assert Insert(cs, k, t)[1..] == Insert(cs[1..], k, t);
    }
  }

  lemma {:induction false} BuiltIsPrintable(t: Tree, items: seq<Item>)
    requires PrintableTree(t) && PrintableItems(items)
    ensures PrintableTree(AddItems(t, items))
    decreases items
  {
    if items != [] {
      FirstPrintable(items);
      match items[0] {
        case Value(k, v) =>
          forall e | e in Insert(t.values, k, v) ensures IsName(e.0) && IsValue(e.1) {
            InsertMembers(t.values, k, v, e);
          }
        case Section(k, _, body) =>
          BuiltIsPrintable(EMPTY, body);
          PrintableTreesInsert(t.children, k, AddItems(EMPTY, body));
      }
      BuiltIsPrintable(AddItem(t, items[0]), items[1..]);
    }
  }

  lemma FirstPrintable(items: seq<Item>)
    requires items != [] && PrintableItems(items)
    ensures PrintableItems(items[1..]) && IsName(items[0].key)
    ensures items[0].Value? ==> IsValue(items[0].value)
    ensures items[0].Section? ==> PrintableItems(items[0].body)
  {
    var first := Lines(items[0]);
    assert forall l :: l in first ==> l in Flatten(items);
    assert first[0] in first;
    if items[0].Section? {
      assert forall l :: l in Flatten(items[0].body) ==> l in first;
    }
  }

  lemma {:induction false} ReadLinesPrintable(lines: seq<string>, l: Line)
    requires l in NonBlank(ClassifyAll(lines)) && !l.Bad?
    ensures Printable(l)
  {
    ReadIsPrintable(lines[0]);
    assert ClassifyAll(lines)[1..] == ClassifyAll(lines[1..]);
    if l != Classify(lines[0]) {
      ReadLinesPrintable(lines[1..], l);
    }
  }

  lemma {:induction false} ItemLinesNotBad(items: seq<Item>)
    ensures forall l :: l in Flatten(items) ==> !l.Bad?
    decreases items
  {
    if items != [] {
      ItemLinesNotBad(items[1..]);
      if items[0].Section? {
        ItemLinesNotBad(items[0].body);
      }
    }
  }

  /** Every tree that is read from any text is one that prints and reads back. */
  lemma ReadTreesPrintBack(lines: seq<string>)
    requires Sound(Start()) && Accepted(Run(Start(), ClassifyAll(lines)))
    ensures var t := TreeOf(Run(Start(), ClassifyAll(lines)).value.arena, 0); SortedTree(t) && PrintableTree(t)
  {
    var ts := NonBlank(ClassifyAll(lines));
    BlanksDoNotMatter(Start(), ClassifyAll(lines));
    MachineIsParser(ts);
    ParseIsFlatten(ts);
    var items := Parse(ts).items;
    assert Flatten(items) + [] == Flatten(items);
    ItemLinesNotBad(items);
    forall l | l in ts ensures Printable(l) {
      ReadLinesPrintable(lines, l);
    }
    BuiltIsSorted(EMPTY, items);
    BuiltIsPrintable(EMPTY, items);
  }
}
