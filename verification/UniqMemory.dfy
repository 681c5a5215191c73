/** utilmm/smart/bits/uniq_memory.tcc over the hash table: the memory that Manager.Insert, Create and
    Destroy of SmartPointers.dfy take for a map. */
module UniqMemory {
  import opened Sequences
  import opened HashChains
  import opened HashOperations
  import opened HashLinks
  import opened HashTable
  import opened HashIterators
  import opened SmartPointers

  /** `hash_ptr` and `eq_ptr`: objects are looked at through the kind of their values. */
  function PointedTo<T, K(==, !new)>(kind: T -> K, hash: K -> nat): Law<K, Obj<T>> {
    Law((o: Obj<T>) => kind(o.value), hash, (a, b) => a == b)
  }

  /** No two cells hold equal values. */
  ghost predicate OneEach<T, K(!new)>(kind: T -> K, cells: set<Node<Obj<T>>>) {
    forall m, n :: m in cells && n in cells && kind(m.val.value) == kind(n.val.value) ==> m == n
  }

  /** Each value is stored once, and what is stored has not been deleted. */
  ghost predicate Kept<T, K(!new)>(kind: T -> K, cells: set<Node<Obj<T>>>, deleted: set<Obj<T>>) {
    OneEach(kind, cells) && forall n :: n in cells ==> n.val !in deleted
  }

  /** A cell holds a value of kind `k`. */
  ghost predicate Known<T, K(!new)>(kind: T -> K, cells: set<Node<Obj<T>>>, k: K) {
    exists n :: n in cells && kind(n.val.value) == k
  }

  function Objects<T>(cells: set<Node<Obj<T>>>): set<Obj<T>> {
    set n | n in cells :: n.val
  }

  /** The objects in the cells are what Manager asks of its map, one cell for each. */
  lemma KeptIsCanonical<T, K(!new)>(kind: T -> K, cells: set<Node<Obj<T>>>, deleted: set<Obj<T>>)
    requires Kept(kind, cells, deleted)
    ensures Canonical(kind, Objects(cells), deleted)
    ensures forall m, n :: m in cells && n in cells && m.val == n.val ==> m == n
  {
  }

  lemma ObjectsAdded<T>(cells: set<Node<Obj<T>>>, cell: Node<Obj<T>>)
    ensures Objects(cells + {cell}) == Objects(cells) + {cell.val}
  {
  }

  lemma ObjectsRemoved<T, K(!new)>(kind: T -> K, cells: set<Node<Obj<T>>>, cell: Node<Obj<T>>)
    requires OneEach(kind, cells) && cell in cells
    ensures Objects(cells - {cell}) == Objects(cells) - {cell.val}
  {
    forall x ensures x in Objects(cells - {cell}) <==> x in Objects(cells) && x != cell.val {
      if x in Objects(cells) && x != cell.val {
        var n :| n in cells && n.val == x;
        assert n in cells - {cell};
      }
    }
  }

  lemma NewCellKept<T, K(!new)>(kind: T -> K, cells: set<Node<Obj<T>>>, deleted: set<Obj<T>>, cell: Node<Obj<T>>)
    requires Kept(kind, cells, deleted) && !Known(kind, cells, kind(cell.val.value)) && cell.val !in deleted
    ensures Kept(kind, cells + {cell}, deleted)
  {
  }

  /** An object that is a duplicate of the one in a cell can be deleted. */
  lemma DuplicateDeleted<T, K(!new)>(kind: T -> K, cells: set<Node<Obj<T>>>, deleted: set<Obj<T>>, ptr: Obj<T>,
                                     cell: Node<Obj<T>>)
    requires Kept(kind, cells, deleted) && cell in cells && kind(cell.val.value) == kind(ptr.value) && cell.val != ptr
    ensures Kept(kind, cells, deleted + {ptr})
  {
    forall n | n in cells ensures n.val != ptr {
      assert n.val == ptr ==> n == cell;
    }
  }

  lemma {:induction false} NoGroupNoMatch<K(!new), T>(law: Law<K, T>, s: seq<T>, k: K)
    requires Group(law, s, k) == []
    ensures forall i :: 0 <= i < |s| ==> !law.Matches(k, s[i])
  {
    if s != [] {
      NoGroupNoMatch(law, s[..|s| - 1], k);
    }
  }

  /** A value is new to a table if and only if the group of its kind is empty. */
  lemma KnownByGroup<T, K(!new)>(kind: T -> K, hash: K -> nat, t: Table<K, Obj<T>>, k: K)
    requires t.Ready() && t.policy == PointedTo(kind, hash)
    ensures var g := Group(t.law, Order(t.chains), k);
            && (Known(kind, t.repr, k) <==> g != [])
            && (g != [] ==> g[0] in t.repr && kind(g[0].val.value) == k)
  {
    var order := Order(t.chains);
    forall n ensures n in t.repr <==> n in order {
      ElementsMember(order, n);
    }
    if Group(t.law, order, k) == [] {
      NoGroupNoMatch(t.law, order, k);
    } else {
      GroupMembers(t.law, order, k);
      InGroup(t.law, order, k, 0);
    }
  }

  lemma {:induction false} InGroup<K(!new), T>(law: Law<K, T>, s: seq<T>, k: K, i: nat)
    requires i < |Group(law, s, k)|
    ensures Group(law, s, k)[i] in s
  {
    if s != [] && i < |Group(law, s[..|s| - 1], k)| {
      InGroup(law, s[..|s| - 1], k, i);
    }
  }

  lemma HeadMatches<K(!new), T>(law: Law<K, T>, chains: seq<seq<T>>, k: K)
    requires WellFormed(law, chains) && |chains| > 0 && Group(law, Order(chains), k) != []
    ensures var g := GroupStart(law, chains, k); g < |Order(chains)| && law.Matches(k, Order(chains)[g])
  {
    GroupStretch(law, chains, k);
    GroupMembers(law, Order(chains), k);
    ghost var g, n := GroupStart(law, chains, k), |Group(law, Order(chains), k)|;
    assert Order(chains)[g] == Order(chains)[g..g + n][0];
  }

  lemma OnlyPlace<K(!new), T>(law: Law<K, T>, s: seq<T>, k: K, f: nat, g: nat)
    requires NoDup(s) && f < |s| && g < |s| && law.Matches(k, s[g])
    requires forall i :: 0 <= i < |s| && law.Matches(k, s[i]) ==> s[i] == s[f]
    ensures g == f
  {
  }

  lemma OnlyOfItsKind<T, K(!new)>(kind: T -> K, hash: K -> nat, t: Table<K, Obj<T>>, f: nat)
    requires t.law == NodeLaw(t.policy) && t.policy == PointedTo(kind, hash) && t.Owned()
    requires OneEach(kind, t.repr) && f < |Order(t.chains)|
    ensures var s := Order(t.chains);
            forall i :: 0 <= i < |s| && t.law.Matches(t.policy.key(s[f].val), s[i]) ==> s[i] == s[f]
  {
    var s := Order(t.chains);
    forall i | 0 <= i < |s| ensures s[i] in t.repr {
      ElementsMember(s, s[i]);
    }
  }

  /** A cell of a memory is the head of its group, and can be erased alone. */
  lemma CellIsHead<T, K(!new)>(kind: T -> K, hash: K -> nat, t: Table<K, Obj<T>>, f: nat)
    requires StatusOf(t) == Usable && t.policy == PointedTo(kind, hash)
    requires OneEach(kind, t.repr) && f < |Order(t.chains)|
    ensures |t.chains| > 0 && GroupStart(t.law, t.chains, t.policy.key(Order(t.chains)[f].val)) == f
  {
    var law, chains, s, k := t.law, t.chains, Order(t.chains), t.policy.key(Order(t.chains)[f].val);
    OnlyOfItsKind(kind, hash, t, f);
    if Group(law, s, k) == [] {
      NoGroupNoMatch(law, s, k);
    }
    HeadMatches(law, chains, k);
    OnlyPlace(law, s, k, f, GroupStart(law, chains, k));
  }

  lemma CutOne<T>(s: seq<T>, f: nat)
    requires NoDup(s) && f < |s|
    ensures Elements(Cut(s, f, 1)) == Elements(s) - {s[f]}
  {
    RemoveElements(s, f);
  }

  class Memory<T, K(==, !new)> {
    const kind: T -> K
    const hash: K -> nat
    const table: Table<K, Obj<T>>
    ghost var deleted: set<Obj<T>>

    /** The table is ready, and the objects are kept as they should be. */
    ghost predicate Valid()
      reads this, table, table.repr
    {
      StatusOf(table) == Usable && table.policy == PointedTo(kind, hash) && Kept(kind, table.repr, deleted)
    }

    /** The map of a memory is default-constructed, so it cannot be used until it has been cleared. */
    constructor (kind: T -> K, hash: K -> nat)
      ensures this.kind == kind && this.hash == hash && fresh(table) && deleted == {}
      ensures table.Valid() && !table.Ready() && table.repr == {} && table.policy == PointedTo(kind, hash)
    {
      this.kind, this.hash := kind, hash;
      table := new Table(PointedTo(kind, hash));
      deleted := {};
    }

    /** `the_mem.insert`. */
    method Insert(ptr: Obj<T>) returns (result: Reading<Obj<T>>, inserted: bool, ghost cell: Node<Obj<T>>)
      requires StatusOf(table) == Usable && table.policy == PointedTo(kind, hash)
      modifies table, table.repr
      ensures StatusOf(table) == Usable && cell in table.repr && kind(cell.val.value) == kind(ptr.value)
      ensures inserted <==> !Known(kind, old(table.repr), kind(ptr.value))
      ensures inserted ==> fresh(cell) && cell.val == ptr && table.repr == old(table.repr) + {cell}
      ensures !inserted ==> table.repr == old(table.repr)
      ensures result == Entry(cell) <==> !inserted || !Grows(old(table.chains))
    {
      KnownByGroup(kind, hash, table, kind(ptr.value));
      ghost var before := table.chains;
      result, inserted, cell := table.InsertUnique(ptr);
      if !inserted {
        OwnedUnchanged(old(table.repr), before);
      }
    }

    lemma OwnedUnchanged(cells: set<Node<Obj<T>>>, chains: seq<seq<Node<Obj<T>>>>)
      requires table.Owned() && chains == table.chains && cells == Elements(Order(chains))
      ensures table.repr == cells
    {
    }

    /** `create`. What Manager.Create promises holds of `cell`; but `create` returns what `insert`
        gives, and this is the cell exactly if the value was known or the table did not grow. */
    method Create(ptr: Obj<T>) returns (result: Reading<Obj<T>>, ghost cell: Node<Obj<T>>)
      requires Valid() && ptr !in deleted
      modifies this`deleted, table, table.repr
      ensures Valid() && cell in table.repr && kind(cell.val.value) == kind(ptr.value)
      ensures Known(kind, old(table.repr), kind(ptr.value)) ==> table.repr == old(table.repr)
      ensures !Known(kind, old(table.repr), kind(ptr.value)) ==>
        fresh(cell) && cell.val == ptr && table.repr == old(table.repr) + {cell}
      ensures Objects(table.repr) == Objects(old(table.repr)) + {cell.val}
      ensures cell.val != ptr ==> cell.val in Objects(old(table.repr))
      ensures deleted == if cell.val == ptr then old(deleted) else old(deleted) + {ptr}
      ensures result == Entry(cell) <==> Known(kind, old(table.repr), kind(ptr.value)) || !Grows(old(table.chains))
    {
      var inserted;
      ghost var cells, known := table.repr, Known(kind, table.repr, kind(ptr.value));
      result, inserted, cell := Insert(ptr);
      ObjectsAdded(cells, cell);
      assert !inserted ==> cells + {cell} == cells;
      if inserted {
        NewCellKept(kind, cells, deleted, cell);
      } else if result.node.val != ptr {
        DuplicateDeleted(kind, cells, deleted, ptr, cell);
        deleted := deleted + {ptr};
      }
    }

    /** The iterator behind a cell: `i + 1`. */
    method Behind(c: Node<Obj<T>>, ghost f: nat) returns (next: Node?<Obj<T>>)
      requires StatusOf(table) == Usable && f < |Order(table.chains)| && c == Order(table.chains)[f]
      ensures next == At(Order(table.chains), f + 1)
    {
      var it := new Iter(c, table);
      it.PlusAssign(1, f);
      next := it.current;
    }

    lemma PlaceOfCell(c: Node<Obj<T>>) returns (f: nat)
      requires StatusOf(table) == Usable && c in table.repr
      ensures f < |Order(table.chains)| && c == Order(table.chains)[f]
    {
      var order := Order(table.chains);
      ElementsMember(order, c);
      f :| 0 <= f < |order| && order[f] == c;
    }

    /** `the_mem.erase`: everything between the iterator and the next one, which is the cell alone. */
    method Erase(c: Node<Obj<T>>)
      requires StatusOf(table) == Usable && table.policy == PointedTo(kind, hash) && OneEach(kind, table.repr)
      requires c in table.repr
      modifies table, table.repr
      ensures StatusOf(table) == Usable && table.repr == old(table.repr) - {c}
    {
      ghost var order := Order(table.chains);
      ghost var f := PlaceOfCell(c);
      var next := Behind(c, f);
      UsableFacts(table);
      CellIsHead(kind, hash, table, f);
      CutOne(order, f);
      table.Erase(c, next, f, f + 1);
    }

    /** `destroy`: the entry and its object are gone, the others stay. */
    method Destroy(c: Node<Obj<T>>)
      requires Valid() && c in table.repr
      modifies this`deleted, table, table.repr
      ensures Valid() && table.repr == old(table.repr) - {c} && deleted == old(deleted) + {c.val}
      ensures Objects(table.repr) == Objects(old(table.repr)) - {c.val}
    {
      ObjectsRemoved(kind, table.repr, c);
      var toDelete := c.val;
      Erase(c);
      deleted := deleted + {toDelete};
    }
  }

  /** A memory whose map has been cleared is ready. */
  method ClearedMemory<T, K(==, !new)>(kind: T -> K, hash: K -> nat) returns (m: Memory<T, K>)
    ensures fresh(m) && fresh(m.table) && fresh(m.table.repr) && m.kind == kind && m.hash == hash
    ensures m.Valid() && m.table.repr == {} && m.deleted == {}
  {
    m := new Memory(kind, hash);
    m.table.Clear();
  }
}
