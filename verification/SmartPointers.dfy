/** utilmm/smart: reference counted pointers over a store that keeps one object for each value. */
module SmartPointers {
  import opened Wrappers
  import opened Ledger
  import opened PointerRuns

  /** A heap object handed to the manager by its raw pointer. */
  class Obj<T> {
    const value: T

    constructor (value: T)
      ensures this.value == value
    {
      this.value := value;
    }
  }

  /** The objects of a store are kept once for each class of equal values, and none is deleted. */
  ghost predicate Canonical<T, K>(kind: T -> K, stored: set<Obj<T>>, deleted: set<Obj<T>>) {
    && (forall c, d :: c in stored && d in stored && kind(c.value) == kind(d.value) ==> c == d)
    && stored !! deleted
  }

  /** The manager and its memory: the hash map from stored objects to their counters. The equality of
      the memory is an equivalence, given by the `kind` of each value. The ghost `book` records the
      live pointers, what they hold and what the counters count; `deleted` are the objects given back
      to the heap. */
  class Manager<T, K(==)> {
    const kind: T -> K
    var mem: map<Obj<T>, nat>
    ghost var run: LegalRun<Pointer<T, K>, Obj<T>>
    ghost var book: Book<Pointer<T, K>, Obj<T>>
    ghost var deleted: set<Obj<T>>

    /** The book is that of a legal run, and the counters are its counters. */
    ghost predicate Recorded()
      reads this
    {
      Replay(run) == book && book.counts == mem && Canonical(kind, mem.Keys, deleted)
    }

    /** The pointers hold what the book says. */
    ghost predicate Held()
      reads this, book.holds.Keys
    {
      forall p :: p in book.holds ==> p.pointee == book.holds[p] && p.manager == this
    }

    /** The state between operations. */
    ghost predicate Valid()
      reads this, book.holds.Keys
    {
      Recorded() && Held() && book.pending == multiset{}
    }

    constructor (kind: T -> K)
      ensures Valid() && this.kind == kind && mem == map[] && book.holds == map[] && deleted == {}
    {
      this.kind := kind;
      mem, deleted := map[], {};
      run := Start;
      book := Book(map[], map[], map[], multiset{});
    }

    /** A ghost step of the run; the counters follow in `mem`. */
    ghost method Record(s: Step<Pointer<T, K>, Obj<T>>)
      requires Replay(run) == book && Enabled(book, s)
      modifies this`run, this`book
      ensures Replay(run) == book && run == Then(old(run), s) && book == After(old(book), s)
    {
      run := Then(run, s);
      book := After(book, s);
    }

    /** `the_mem.insert`, as the hash map documents it: the entry of an equal value, or a new entry with
        counter 0. UniqMemory.dfy has the insertion into the table behind this map: the table keeps the
        promise while it is ready and does not grow when a new value comes. */
    method Insert(ptr: Obj<T>) returns (c: Obj<T>, inserted: bool)
      requires Canonical(kind, mem.Keys, deleted) && ptr !in deleted
      modifies this`mem
      ensures Canonical(kind, mem.Keys, deleted) && c in mem && kind(c.value) == kind(ptr.value)
      ensures inserted == (c !in old(mem)) && mem == if inserted then old(mem)[c := 0] else old(mem)
      ensures inserted ==> c == ptr
    {
      if d :| d in mem && kind(d.value) == kind(ptr.value) {
        c, inserted := d, false;
      } else {
        c, inserted := ptr, true;
        mem := mem[ptr := 0];
      }
    }

    /** `uniq_memory::create`, on the same assumption: an object whose value is stored already is
        deleted, unless it is the stored object itself. */
    method Create(ptr: Obj<T>) returns (c: Obj<T>)
      requires Canonical(kind, mem.Keys, deleted) && ptr !in deleted
      modifies this`mem, this`deleted
      ensures Canonical(kind, mem.Keys, deleted) && c in mem && kind(c.value) == kind(ptr.value)
      ensures mem == if c in old(mem) then old(mem) else old(mem)[c := 0]
      ensures c != ptr ==> c in old(mem)
      ensures deleted == old(deleted) + ({ptr} - {c})
    {
      var inserted;
      c, inserted := Insert(ptr);
      if !inserted && c != ptr {
        deleted := deleted + {ptr};
      }
    }

    /** `assign`: one reference more. */
    method Assign(x: Option<Obj<T>>) returns (y: Option<Obj<T>>)
      requires Recorded() && (x.Some? ==> x.value in mem)
      modifies this`mem, this`run, this`book
      ensures Recorded() && y == x && run == Then(old(run), Step.Manage(x))
      ensures book.holds == old(book.holds) && book.pending == old(book.pending) + Flight(x)
    {
      if x.Some? {
        mem := mem[x.value := mem[x.value] + 1];
      }
      Record(Step.Manage(x));
      y := x;
    }

    /** `manage`: the stored object of an equal value, counted once more; null for null. */
    method Manage(ptr: Option<Obj<T>>) returns (x: Option<Obj<T>>)
      requires Recorded() && (ptr.Some? ==> ptr.value !in deleted)
      modifies this`mem, this`deleted, this`run, this`book
      ensures Recorded() && run == Then(old(run), Step.Manage(x))
      ensures book.holds == old(book.holds) && book.pending == old(book.pending) + Flight(x)
      ensures x.Some? == ptr.Some? && (x.Some? ==> x.value in mem && kind(x.value.value) == kind(ptr.value.value))
      ensures x.Some? && x != ptr ==> x.value in old(mem)
      ensures deleted == old(deleted) + if ptr.Some? then {ptr.value} - {x.value} else {}
    {
      x := None;
      if ptr.Some? {
        var c := Create(ptr.value);
        assert mem[c := mem[c] + 1] == Managed(book, Some(c)).counts;
        mem := mem[c := mem[c] + 1];
        x := Some(c);
      }
      Record(Step.Manage(x));
    }

    /** `uniq_memory::destroy`. */
    method Destroy(c: Obj<T>)
      requires Canonical(kind, mem.Keys, deleted) && c in mem
      modifies this`mem, this`deleted
      ensures Canonical(kind, mem.Keys, deleted) && mem == old(mem) - {c} && deleted == old(deleted) + {c}
    {
      mem := mem - {c};
      deleted := deleted + {c};
    }

    /** `(c->second--) <= 1`, and then the object and its entry are destroyed. */
    method Decrement(c: Obj<T>)
      requires Canonical(kind, mem.Keys, deleted) && c in mem && mem[c] > 0
      modifies this`mem, this`deleted
      ensures Canonical(kind, mem.Keys, deleted)
      ensures mem == if old(mem)[c] > 1 then old(mem)[c := old(mem)[c] - 1] else old(mem) - {c}
      ensures deleted == old(deleted) + if c in mem then {} else {c}
    {
      var last := mem[c] <= 1;
      mem := mem[c := mem[c] - 1];
      if last {
        Destroy(c);
        assert mem == old(mem) - {c};
      }
    }

    /** `release`: give one reference back. */
    method Release(x: Option<Obj<T>>)
      requires Recorded() && (x.Some? ==> x.value in book.pending)
      modifies this`mem, this`deleted, this`run, this`book
      ensures Recorded() && run == Then(old(run), Step.Release(x))
      ensures book.holds == old(book.holds) && book.pending == old(book.pending) - Flight(x)
      ensures deleted == old(deleted) + if x.Some? && x.value !in mem then {x.value} else {}
    {
      InFlightIsLive(run, x);
      if x.Some? {
        Decrement(x.value);
      }
      Record(Step.Release(x));
    }

    /** The last release of an operation. */
    method GiveBack(x: Option<Obj<T>>)
      requires Recorded() && Held() && book.pending == Flight(x)
      modifies this`mem, this`deleted, this`run, this`book
      ensures Valid()
      ensures run == Then(old(run), Step.Release(x)) && book.holds == old(book.holds)
    {
      Release(x);
    }

    /** What a live pointer holds is stored and has not been deleted. */
    lemma HeldIsSafe(p: Pointer<T, K>)
      requires Valid() && p in book.holds && p.pointee.Some?
      ensures p.pointee.value in mem && p.pointee.value !in deleted
    {
      HeldIsLive(run, p);
    }

    /** The second counting of `reset` will never be given back. */
    ghost method Surrender(x: Option<Obj<T>>)
      requires Recorded() && (x.Some? ==> x.value in book.pending)
      modifies this`run, this`book
      ensures Recorded() && run == Then(old(run), Lose(x))
      ensures book.holds == old(book.holds) && book.pending == old(book.pending) - Flight(x)
    {
      Record(Lose(x));
    }

    /** The only reference in flight lands in the new pointer `p`. */
    ghost method SettleNew(p: Pointer<T, K>, x: Option<Obj<T>>)
      requires Recorded() && Held() && book.pending == Flight(x)
      requires p !in book.holds && p.manager == this && p.pointee == x
      modifies this`run, this`book
      ensures Valid()
      ensures run == Then(old(run), Land(p, x)) && book.holds == old(book.holds)[p := x]
    {
      Settle(p, x);
    }

    /** A reference in flight lands in pointer `p`. */
    ghost method Settle(p: Pointer<T, K>, x: Option<Obj<T>>)
      requires Recorded() && (x.Some? ==> x.value in book.pending)
      modifies this`run, this`book
      ensures Recorded() && run == Then(old(run), Land(p, x)) && book.holds == old(book.holds)[p := x]
      ensures book.pending == old(book.pending) - Flight(x) + Flight(HeldBy(old(book), p))
    {
      Record(Land(p, x));
    }
  }

  /** A smart pointer; a live one is registered in the book of its manager. */
  class Pointer<T, K(==)> {
    const manager: Manager<T, K>
    var pointee: Option<Obj<T>>

    /** A pointer to a raw object: `manage` counts it once. */
    constructor (manager: Manager<T, K>, ptr: Option<Obj<T>>)
      requires manager.Valid() && (ptr.Some? ==> ptr.value !in manager.deleted)
      modifies manager`mem, manager`deleted, manager`run, manager`book
      ensures this.manager == manager && manager.Valid()
      ensures manager.run == Performed(old(manager.run), Construct(this, pointee))
      ensures manager.book.holds == old(manager.book.holds)[this := pointee]
      ensures pointee.Some? == ptr.Some?
      ensures pointee.Some? ==> manager.kind(pointee.value.value) == manager.kind(ptr.value.value)
    {
      this.manager := manager;
      var x := manager.Manage(ptr);
      pointee := x;
      new;
      manager.SettleNew(this, x);
    }

    /** The copy constructor shares the object of the other pointer. */
    constructor Copy(other: Pointer<T, K>)
      requires other.manager.Valid() && other in other.manager.book.holds
      modifies other.manager`mem, other.manager`run, other.manager`book
      ensures manager == other.manager && manager.Valid() && pointee == other.pointee
      ensures manager.run == Performed(old(other.manager.run), CopyOf(this, other))
      ensures manager.book.holds == old(other.manager.book.holds)[this := pointee]
    {
      var m := other.manager;
      ghost var run := m.run;
      HeldIsLive(run, other);
      var x := m.Assign(other.pointee);
      manager := m;
      pointee := x;
      new;
      m.SettleNew(this, x);
      CopyPerformed(run, this, other, x);
    }

    /** `pointee = x`: the reference in flight lands here, what was held comes into flight. */
    method Point(x: Option<Obj<T>>)
      requires manager.Recorded() && manager.Held() && this in manager.book.holds
      requires x.Some? ==> x.value in manager.book.pending
      modifies this`pointee, manager`run, manager`book
      ensures manager.Recorded() && manager.Held() && pointee == x
      ensures manager.run == Then(old(manager.run), Land(this, x))
      ensures manager.book.holds == old(manager.book.holds)[this := x]
      ensures manager.book.pending == old(manager.book.pending) - Flight(x) + Flight(old(pointee))
    {
      pointee := x;
      manager.Settle(this, x);
    }

    /** `pointee = assign(manage(ptr))`: a non-null object is counted twice, and the object that was
        held is still to be released. */
    method Retarget(ptr: Option<Obj<T>>)
      requires manager.Valid() && this in manager.book.holds && (ptr.Some? ==> ptr.value !in manager.deleted)
      modifies this`pointee, manager`mem, manager`deleted, manager`run, manager`book
      ensures manager.Recorded() && manager.Held()
      ensures manager.run == RetargetRun(old(manager.run), this, pointee)
      ensures manager.book.holds == old(manager.book.holds)[this := pointee]
      ensures manager.book.pending == Flight(old(pointee))
      ensures pointee.Some? == ptr.Some?
      ensures pointee.Some? ==> manager.kind(pointee.value.value) == manager.kind(ptr.value.value)
    {
      var x := manager.Manage(ptr);
      x := manager.Assign(x);
      manager.Surrender(x);
      Point(x);
    }

    /** `reset(ptr)`. A non-null object is counted twice, by `manage` and again by `reset`, while only
        this pointer will ever release it: its surplus grows by one. */
    method Reset(ptr: Option<Obj<T>>)
      requires manager.Valid() && this in manager.book.holds && (ptr.Some? ==> ptr.value !in manager.deleted)
      modifies this`pointee, manager`mem, manager`deleted, manager`run, manager`book
      ensures manager.Valid() && manager.run == Performed(old(manager.run), ResetTo(this, pointee))
      ensures manager.book.holds == old(manager.book.holds)[this := pointee]
      ensures pointee.Some? == ptr.Some?
      ensures pointee.Some? ==> manager.kind(pointee.value.value) == manager.kind(ptr.value.value)
    {
      var tmp := pointee;
      ghost var run := manager.run;
      assert HeldBy(Replay(run), this) == tmp;
      Retarget(ptr);
      manager.GiveBack(tmp);
      ResetPerformed(run, this, pointee, tmp);
    }

    /** The destructor. */
    method Destroy()
      requires manager.Valid() && this in manager.book.holds
      modifies this`pointee, manager`mem, manager`deleted, manager`run, manager`book
      ensures manager.Valid() && manager.run == Performed(old(manager.run), Op.Destroy(this))
      ensures manager.book.holds == old(manager.book.holds) - {this}
    {
      ghost var run := manager.run;
      Reset(None);
      manager.Record(Leave(this));
      DestroyPerformed(run, this);
    }

    method Swap(other: Pointer<T, K>)
      requires manager.Valid() && this in manager.book.holds && other in manager.book.holds
      modifies this`pointee, other`pointee, manager`run, manager`book
      ensures manager.Valid() && pointee == old(other.pointee) && other.pointee == old(pointee)
      ensures manager.run == Performed(old(manager.run), Exchange(this, other))
      ensures manager.book.holds == old(manager.book.holds)[this := pointee][other := other.pointee]
    {
      pointee, other.pointee := other.pointee, pointee;
      manager.Record(Step.Swap(this, other));
    }

    /** `operator=`: copy, swap, and destroy what was held; assigning a pointer to itself is fine. */
    method Assign(other: Pointer<T, K>) returns (ghost copy: Pointer<T, K>)
      requires manager.Valid() && this in manager.book.holds && other in manager.book.holds
      modifies this`pointee, manager`mem, manager`deleted, manager`run, manager`book
      ensures manager.Valid() && pointee == old(other.pointee)
      ensures manager.run == Performed(old(manager.run), Op.Assign(this, other, copy))
      ensures Rehung(old(manager.book), old(manager.book).holds[this := pointee], manager.book)
    {
      ghost var run := manager.run;
      var tmp := new Pointer.Copy(other);
      Swap(tmp);
      tmp.Destroy();
      copy := tmp;
      ReassignInRun(run, this, tmp, other);
    }

    /** `p = pointer(ptr)`: a temporary pointer is assigned and destroyed. */
    method AssignObject(ptr: Obj<T>) returns (ghost tmp: Pointer<T, K>, ghost copy: Pointer<T, K>)
      requires manager.Valid() && this in manager.book.holds && ptr !in manager.deleted
      modifies this`pointee, manager`mem, manager`deleted, manager`run, manager`book
      ensures manager.Valid()
      ensures manager.book.holds == old(manager.book.holds)[this := pointee]
      ensures var made := Performed(old(manager.run), Construct(tmp, pointee));
        manager.run == Performed(Performed(made, Op.Assign(this, tmp, copy)), Op.Destroy(tmp))
      ensures pointee.Some? && manager.kind(pointee.value.value) == manager.kind(ptr.value)
    {
      var temporary := new Pointer(manager, Some(ptr));
      tmp := temporary;
      ghost var x := tmp.pointee;
      copy := Assign(temporary);
      temporary.Destroy();
      WithoutTemporary(old(manager.book.holds), this, tmp, x, pointee);
    }

    /** Pointers are equal exactly when both are null or their values are equal. */
    method Equals(other: Pointer<T, K>) returns (r: bool)
      requires manager.Valid() && this in manager.book.holds && other in manager.book.holds
      ensures r <==> (pointee.None? && other.pointee.None?) ||
                     (pointee.Some? && other.pointee.Some? &&
                      manager.kind(pointee.value.value) == manager.kind(other.pointee.value.value))
    {
      HeldIsLive(manager.run, this);
      HeldIsLive(manager.run, other);
      r := pointee == other.pointee;
    }
  }
}
