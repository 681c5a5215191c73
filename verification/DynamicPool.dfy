/** src/memory/dynamic_pool.cc: the pool that changes its block size while it is used. */
module DynamicPool {
  import opened Sequences
  import opened Wrappers

  /** An item with its capacity. */
  class Item {
    const size: nat

    constructor (size: nat)
      ensures this.size == size
    {
      this.size := size;
    }
  }

  /** The largest of some requests. */
  function Largest(requests: seq<nat>): nat {
    if requests == [] then 0
    else
      var earlier, last := Largest(requests[..|requests| - 1]), requests[|requests| - 1];
      if last > earlier then last else earlier
  }

  lemma {:induction false} LargestIsMaximum(requests: seq<nat>)
    ensures forall k :: 0 <= k < |requests| ==> requests[k] <= Largest(requests)
    ensures requests != [] ==> Largest(requests) in requests
  {
    if requests != [] {
      LargestIsMaximum(requests[..|requests| - 1]);
    }
  }

  /** What has become of the items: those that are `live` with the size that was asked for, those that
      were `deleted`, and the sizes that were asked for so far. */
  datatype History = History(live: map<Item, nat>, created: set<Item>, deleted: set<Item>, requests: seq<nat>)

  /** Every item that was created is deleted, free or live, and only one of them. Free items have the
      size of the pool, and a live one has at least the size that was asked for. */
  ghost predicate Conserved(size: nat, free: seq<Item>, h: History) {
    && size == Largest(h.requests) && NoDup(free)
    && (forall b :: b in free ==> b.size == size)
    && (forall b :: b in h.live ==> h.live[b] <= b.size <= size)
    && (forall b :: b in free ==> b !in h.live && b !in h.deleted)
    && h.live.Keys !! h.deleted
    && h.created == h.deleted + Elements(free) + h.live.Keys
  }

  lemma FreeElements(free: seq<Item>)
    ensures forall b :: b in Elements(free) <==> b in free
  {
    forall b ensures b in Elements(free) <==> b in free {
      ElementsMember(free, b);
    }
  }

  /** Items created are as many as items deleted, free and live together. */
  lemma ItemsAreConserved(size: nat, free: seq<Item>, h: History)
    requires Conserved(size, free, h)
    ensures |h.created| == |h.deleted| + |free| + |h.live|
  {
    ElementsCount(free);
    FreeElements(free);
    assert |h.live.Keys| == |h.live|;
    assert Elements(free) !! h.live.Keys && Elements(free) !! h.deleted;
  }

  /** A request for more than the size of the pool comes when the free list is swept. */
  lemma RequestKeeps(size: nat, free: seq<Item>, h: History, request: nat)
    requires Conserved(size, free, h) && (request <= size || free == [])
    ensures Conserved(if size < request then request else size, free, h.(requests := h.requests + [request]))
  {
    assert (h.requests + [request])[..|h.requests|] == h.requests;
  }

  lemma CreateKeeps(size: nat, h: History, b: Item, request: nat)
    requires Conserved(size, [], h) && b !in h.created && b.size == size >= request
    ensures Conserved(size, [], h.(live := h.live[b := request], created := h.created + {b}))
  {
  }

  lemma ReuseKeeps(size: nat, free: seq<Item>, h: History, request: nat)
    requires Conserved(size, free, h) && free != [] && request <= size
    ensures Conserved(size, free[..|free| - 1], h.(live := h.live[free[|free| - 1] := request]))
  {
  }

  class Pool {
    var size: nat
    var free: seq<Item>
    ghost var history: History

    ghost predicate Valid()
      reads this
    {
      Conserved(size, free, history)
    }

    constructor ()
      ensures Valid() && size == 0 && free == [] && history == History(map[], {}, {}, [])
    {
      size, free := 0, [];
      history := History(map[], {}, {}, []);
    }

    /** `sweep_arrays` over the free list, which is then cleared. */
    method Sweep()
      requires Valid()
      modifies this
      ensures Valid() && free == [] && size == old(size)
      ensures history == old(history).(deleted := old(history).deleted + Elements(old(free)))
    {
      var i := 0;
      ghost var gone: set<Item> := {};
      while i < |free|
        invariant 0 <= i <= |free| && free == old(free) && size == old(size) && history == old(history)
        invariant gone == Elements(free[..i])
      {
        assert free[..i + 1][..i] == free[..i];
        gone := gone + {free[i]};
        i := i + 1;
      }
      assert free[..|free|] == free;
      FreeElements(free);
      history := history.(deleted := history.deleted + gone);
      free := [];
    }

    /** The last free item, or a new one. */
    method Take(request: nat) returns (b: Item)
      requires Valid() && request <= size
      modifies this
      ensures Valid() && size == old(size) && b.size == size
      ensures history == old(history).(live := old(history).live[b := request],
                                       created := old(history).created + {b})
      ensures b !in old(history).live && b !in old(history).deleted
      ensures if old(free) == [] then free == [] && b !in old(history).created
              else b == old(free)[|old(free)| - 1] && free == old(free)[..|old(free)| - 1]
    {
      if free == [] {
        b := new Item(size);
        CreateKeeps(size, history, b, request);
        history := history.(created := history.created + {b});
      } else {
        FreeElements(free);
        ReuseKeeps(size, free, history, request);
        b := free[|free| - 1];
        free := free[..|free| - 1];
        assert history.created == history.created + {b};
      }
      history := history.(live := history.live[b := request]);
    }

    /** The item of the buffer that is returned is not used by anybody else, and is large enough. */
    method Allocate(request: nat) returns (b: Item)
      requires Valid()
      modifies this
      ensures Valid() && b.size == size == (if old(size) < request then request else old(size))
      ensures history.requests == old(history).requests + [request]
      ensures b !in old(history).live && b !in old(history).deleted
      ensures history.live == old(history).live[b := request]
      ensures b in old(history).created ==> b in old(free) && request <= old(size)
      ensures history.created == old(history).created + {b}
      ensures old(size) < request ==> free == [] && history.deleted == old(history).deleted + Elements(old(free))
      ensures request <= old(size) ==> history.deleted == old(history).deleted
      ensures request <= old(size) && old(free) != [] ==>
        b == old(free)[|old(free)| - 1] && free == old(free)[..|old(free)| - 1]
    {
      if size < request {
        Sweep();
      }
      RequestKeeps(size, free, history, request);
      size := if size < request then request else size;
      history := history.(requests := history.requests + [request]);
      b := Take(request);
    }

    /** A buffer that is in use is given back: to the free list, or to the heap if the size of the pool
        has changed since. Giving back null does nothing. */
    method Deallocate(buffer: Option<Item>)
      requires Valid() && (buffer.Some? ==> buffer.value in history.live)
      modifies this
      ensures Valid() && size == old(size)
      ensures buffer.None? ==> free == old(free) && history == old(history)
      ensures buffer.Some? ==>
        && history.live == old(history).live - {buffer.value} && history.created == old(history).created
        && (if buffer.value.size == size
              then free == old(free) + [buffer.value] && history.deleted == old(history).deleted
              else free == old(free) && history.deleted == old(history).deleted + {buffer.value})
    {
      if buffer.Some? {
        var item := buffer.value;
        history := history.(live := history.live - {item});
        if item.size != size {
          history := history.(deleted := history.deleted + {item});
        } else {
          assert (free + [item])[..|free|] == free;
          free := free + [item];
        }
      }
    }

    /** The destructor deletes what is free. */
    method Destroy()
      requires Valid()
      modifies this
      ensures Valid() && free == [] && history.live == old(history).live
      ensures history.created == history.deleted + history.live.Keys
    {
      Sweep();
    }
  }
}
