/** utilmm/iterator_sequence.hh: a cursor over two ranges, one after the other. Iterators into a
    range are offsets from its beginning. */
module IteratorSequence {

  class SequenceIterator<T> {
    const range1: seq<T>
    const range2: seq<T>
    var first: int
    var firstEnd: int
    var secondBegin: int
    var second: int

    /** The cursor stands in the first range, or has left it. `secondBegin` is not constrained:
        callers may pass something other than the real beginning, 0. */
    ghost predicate Valid()
      reads this
    {
      && firstEnd == |range1|
      && 0 <= first <= |range1| && 0 <= second <= |range2|
      && (first < |range1| ==> second == 0)
    }

    ghost function Position(): int
      reads this
    {
      first + second
    }

    constructor (range1: seq<T>, range2: seq<T>, first: int, firstEnd: int, secondBegin: int, second: int)
      ensures this.range1 == range1 && this.range2 == range2
      ensures this.first == first && this.firstEnd == firstEnd
      ensures this.secondBegin == secondBegin && this.second == second
    {
      this.range1 := range1;
      this.range2 := range2;
      this.first := first;
      this.firstEnd := firstEnd;
      this.secondBegin := secondBegin;
      this.second := second;
    }

    method Dereference() returns (x: T)
      requires Valid() && Position() < |range1| + |range2|
      ensures x == (range1 + range2)[Position()]
    {
      if first == firstEnd {
        x := range2[second];
      } else {
        x := range1[first];
      }
    }

    /** Over the same two ranges, equality is equality of positions. */
    method Equal(x: SequenceIterator<T>) returns (same: bool)
      requires Valid() && x.Valid() && x.range1 == range1 && x.range2 == range2
      ensures same <==> x.Position() == Position()
    {
      same := x.first == first && x.second == second;
    }

    method DistanceTo(x: SequenceIterator<T>) returns (n: int)
      requires Valid() && x.Valid() && x.range1 == range1 && x.range2 == range2
      ensures n == x.Position() - Position()
    {
      n := (x.first - first) + (x.second - second);
    }

    method Increment()
      requires Valid() && Position() < |range1| + |range2|
      modifies `first, `second
      ensures Valid() && Position() == old(Position()) + 1
    {
      if first == firstEnd {
        second := second + 1;
      } else {
        first := first + 1;
      }
    }

    /** Steps back exactly when the stored beginning is met where the real one would be. The end
        iterator of the class documentation, which stores the end of the second range there, steps
        back properly only if the second range is empty. */
    method Decrement()
      requires Valid() && Position() > 0
      modifies `first, `second
      ensures (Valid() && Position() == old(Position()) - 1) <==> (old(second) == secondBegin <==> old(second) == 0)
      ensures old(first) == |range1| && old(second) == secondBegin == |range2| ==> (Valid() <==> range2 == [])
    {
      if second == secondBegin {
        first := first - 1;
      } else {
        second := second - 1;
      }
    }

    /** Where a backward move ends inside the two ranges: it stays in the second range, or it meets
        the stored beginning where this is the real one, or the real one for what is left to go. */
    ghost predicate LandsInside(i: int)
      reads this
    {
      var rest := i - (secondBegin - second);
      if rest > 0 then second + i >= 0
      else
        && 0 <= secondBegin <= |range2| && 0 <= first + rest <= |range1|
        && (secondBegin == 0 || first + rest == |range1|)
    }

    /** The position moves by `i`. Forwards the cursor stays valid, as the single steps keep it;
        backwards exactly when the stored beginning lets it land inside, as the real one does. */
    method Advance(i: int)
      requires Valid() && 0 <= Position() + i <= |range1| + |range2|
      modifies `first, `second
      ensures Position() == old(Position()) + i
      ensures Valid() <==> i > 0 || old(LandsInside(i))
      ensures secondBegin == 0 ==> Valid()
    {
      if i > 0 {
        var remains := firstEnd - first;
        if remains > i {
          first := first + i;
        } else {
          first := firstEnd;
          second := second + (i - remains);
        }
      } else {
        var remains := secondBegin - second;
        if remains < i {
          second := second + i;
        } else {
          second := secondBegin;
          first := first + (i - remains);
        }
      }
    }
  }

  /** Forward traversal from the documented beginning yields the two ranges in order. */
  method Collect<T>(range1: seq<T>, range2: seq<T>) returns (all: seq<T>)
    ensures all == range1 + range2
  {
    var it := new SequenceIterator<T>(range1, range2, 0, |range1|, 0, 0);
    var end := new SequenceIterator<T>(range1, range2, |range1|, |range1|, |range2|, |range2|);
    all := [];
    var atEnd := it.Equal(end);
    while !atEnd
      invariant it.Valid() && end.Valid() && it != end
      invariant it.range1 == range1 && it.range2 == range2 && end.range1 == range1 && end.range2 == range2
      invariant end.Position() == |range1| + |range2|
      invariant atEnd <==> it.Position() == |range1| + |range2|
      invariant it.Position() <= |range1| + |range2| && all == (range1 + range2)[..it.Position()]
      decreases |range1| + |range2| - it.Position()
    {
      var x := it.Dereference();
      all := all + [x];
      it.Increment();
      atEnd := it.Equal(end);
    }
  }
}
