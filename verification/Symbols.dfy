/** utilmm/types/bits/basic_symbol: strings kept once each, behind smart pointers. */
module Symbols {
  import opened Wrappers
  import opened Ledger
  import opened SmartPointers
  import opened StringOrder
  import opened StringTools

  type Names = Manager<string, string>

  /** A string of another one is found first at its start exactly when it is a prefix. */
  lemma FoundAtStart(s: string, sub: string)
    ensures Find(s, sub, 0) == Some(0) <==> sub <= s
  {
    if sub <= s {
      assert OccursAt(s, sub, 0);
    }
  }

  class Symbol {
    const name: Pointer<string, string>

    /** A symbol is a live pointer to a string that is not empty, or null; equality is that of strings. */
    ghost predicate Valid()
      reads this, name, name.manager, name.manager.book.holds.Keys
    {
      && name.manager.Valid() && name in name.manager.book.holds
      && (forall s: string :: name.manager.kind(s) == s)
      && (name.pointee.Some? ==> name.pointee.value.value != "")
    }

    function Text(): string
      reads this, name
    {
      if name.pointee.None? then "" else name.pointee.value.value
    }

    /** `create`: no object for the empty string. */
    constructor (names: Names, str: string)
      requires names.Valid() && forall s: string :: names.kind(s) == s
      modifies names`mem, names`deleted, names`run, names`book
      ensures Valid() && name.manager == names && Text() == str
      ensures fresh(name) && names.book.holds == old(names.book.holds)[name := name.pointee]
    {
      var ptr := None;
      if str != "" {
        var obj := new Obj(str);
        ptr := Some(obj);
      }
      name := new Pointer(names, ptr);
    }

    constructor Copy(other: Symbol)
      requires other.Valid()
      modifies other.name.manager`mem, other.name.manager`run, other.name.manager`book
      ensures Valid() && name.manager == other.name.manager && Text() == other.Text()
      ensures fresh(name) && name.manager.book.holds == old(other.name.manager.book.holds)[name := name.pointee]
    {
      name := new Pointer.Copy(other.name);
    }

    /** `name = create(str)` for a string that is not empty: a pointer to it is assigned and destroyed. */
    method Rename(str: string)
      requires Valid() && str != ""
      modifies name`pointee, name.manager`mem, name.manager`deleted, name.manager`run, name.manager`book
      ensures Valid() && Text() == str
      ensures name.manager.book.holds == old(name.manager.book.holds)[name := name.pointee]
    {
      var obj := new Obj(str);
      ghost var tmp, copy := name.AssignObject(obj);
    }

    /** `append`: concatenation, also when a symbol is empty or is appended to itself. */
    method Append(other: Symbol)
      requires Valid() && other.Valid() && other.name.manager == name.manager
      modifies name`pointee, name.manager`mem, name.manager`deleted, name.manager`run, name.manager`book
      ensures Valid() && Text() == old(Text()) + old(other.Text())
      ensures name.manager.book.holds == old(name.manager.book.holds)[name := name.pointee]
    {
      if name.pointee.None? {
        ghost var copy := name.Assign(other.name);
      } else if other.name.pointee.Some? {
        Rename(Text() + other.Text());
      }
    }

    /** `operator+`: a copy is appended to; the operands stay. */
    method Plus(other: Symbol) returns (sum: Symbol)
      requires Valid() && other.Valid() && other.name.manager == name.manager
      modifies name.manager`mem, name.manager`deleted, name.manager`run, name.manager`book
      ensures Valid() && other.Valid() && sum.Valid() && fresh(sum) && sum.name.manager == name.manager
      ensures sum.Text() == old(Text()) + old(other.Text())
    {
      sum := new Symbol.Copy(this);
      sum.Append(other);
    }

    /** `operator<`. */
    method IsLess(other: Symbol) returns (r: bool)
      requires Valid() && other.Valid()
      ensures r <==> Less(Text(), other.Text())
    {
      r := other.name.pointee.Some? &&
        (name.pointee.None? || Less(name.pointee.value.value, other.name.pointee.value.value));
    }

    /** Equality is that of the names, although only pointers are compared. */
    method Equals(other: Symbol) returns (r: bool)
      requires Valid() && other.Valid() && other.name.manager == name.manager
      ensures r <==> Text() == other.Text()
    {
      r := name.Equals(other.name);
    }

    /** `starts_with`, which searches the whole string, is the prefix relation. */
    method StartsWith(sub: Symbol) returns (r: bool)
      requires Valid() && sub.Valid() && sub.name.manager == name.manager
      ensures r <==> sub.Text() <= Text()
    {
      var same := Equals(sub);
      if same || sub.name.pointee.None? {
        r := true;
      } else if name.pointee.None? {
        r := false;
      } else {
        FoundAtStart(Text(), sub.Text());
        r := Find(name.pointee.value.value, sub.name.pointee.value.value, 0) == Some(0);
      }
    }
  }
}
