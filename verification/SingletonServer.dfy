/** src/singleton/server.cc and dummy.cc: named singletons, created by the first use and deleted by the
    last. Every operation runs under the lock, so any interleaving of clients is a sequence of calls. */
module SingletonServer {
  import opened Wrappers

  class Dummy {
    var refCounter: nat

    constructor ()
      ensures refCounter == 0
    {
      refCounter := 0;
    }

    method IncrRef()
      modifies this
      ensures refCounter == old(refCounter) + 1
    {
      refCounter := refCounter + 1;
    }

    /** `(ref_counter--)<=1`: was this the last reference? A holder keeps the counter positive. */
    method DecrRef() returns (last: bool)
      requires refCounter > 0
      modifies this
      ensures refCounter == old(refCounter) - 1 && (last <==> refCounter == 0)
    {
      last := refCounter <= 1;
      refCounter := refCounter - 1;
    }
  }

  /** A use of a singleton that a client holds: its name, and the object it was given. */
  datatype Use = Use(name: string, instance: Dummy)

  /** The uses of a name, by the number of the use. */
  function UsesOf(uses: map<nat, Use>, name: string): set<nat> {
    set u | u in uses && uses[u].name == name
  }

  /** A name is there exactly while it is used, and its counter is the number of its uses. */
  ghost predicate CountedName(counters: map<string, nat>, uses: map<nat, Use>, n: string) {
    (n in counters <==> UsesOf(uses, n) != {}) && (n in counters ==> counters[n] == |UsesOf(uses, n)|)
  }

  ghost predicate Counted(counters: map<string, nat>, uses: map<nat, Use>) {
    forall n :: CountedName(counters, uses, n)
  }

  /** Every user has the object that is there; names do not share objects. */
  ghost predicate Shared(singletons: map<string, Dummy>, uses: map<nat, Use>) {
    && (forall u :: u in uses ==> uses[u].name in singletons && uses[u].instance == singletons[uses[u].name])
    && (forall n, m :: n in singletons && m in singletons && singletons[n] == singletons[m] ==> n == m)
  }

  function Add(counters: map<string, nat>, name: string): map<string, nat> {
    counters[name := if name in counters then counters[name] + 1 else 1]
  }

  function Subtract(counters: map<string, nat>, name: string): map<string, nat>
    requires name in counters && counters[name] > 0
  {
    if counters[name] == 1 then counters - {name} else counters[name := counters[name] - 1]
  }

  lemma CountedMore(counters: map<string, nat>, uses: map<nat, Use>, u: nat, x: Use)
    requires Counted(counters, uses) && u !in uses
    ensures Counted(Add(counters, x.name), uses[u := x])
  {
    var c, us := Add(counters, x.name), uses[u := x];
    forall n ensures CountedName(c, us, n) {
      assert CountedName(counters, uses, n);
      assert UsesOf(us, n) == if x.name == n then UsesOf(uses, n) + {u} else UsesOf(uses, n);
      assert u !in UsesOf(uses, n);
    }
  }

  lemma CountedLess(counters: map<string, nat>, uses: map<nat, Use>, u: nat)
    requires Counted(counters, uses) && u in uses
    ensures uses[u].name in counters && counters[uses[u].name] > 0
    ensures Counted(Subtract(counters, uses[u].name), uses - {u})
  {
    var name := uses[u].name;
    assert CountedName(counters, uses, name) && u in UsesOf(uses, name);
    var c, us := Subtract(counters, name), uses - {u};
    forall n ensures CountedName(c, us, n) {
      assert CountedName(counters, uses, n);
      assert UsesOf(us, n) == UsesOf(uses, n) - {u};
      assert u in UsesOf(uses, n) <==> n == name;
      assert n == name ==> |UsesOf(us, n)| == |UsesOf(uses, n)| - 1;
    }
  }

  /** A name that is gone has no users left. */
  lemma SharedLess(singletons: map<string, Dummy>, counters: map<string, nat>, uses: map<nat, Use>, name: string)
    requires Shared(singletons, uses) && Counted(counters, uses) && name !in counters
    ensures Shared(singletons - {name}, uses)
  {
    assert CountedName(counters, uses, name);
    forall v | v in uses ensures uses[v].name != name {
      assert v !in UsesOf(uses, name);
    }
  }

  /** `server`. */
  class Server {
    var singletons: map<string, Dummy>

    constructor ()
      ensures singletons == map[]
    {
      singletons := map[];
    }

    ghost predicate Counts(counters: map<string, nat>)
      reads this, singletons.Values
    {
      singletons.Keys == counters.Keys && forall n :: n in singletons ==> singletons[n].refCounter == counters[n]
    }

    /** `attach`: the object that is there, or a new one, counted once more. */
    method Attach(name: string, ghost counters: map<string, nat>) returns (d: Dummy)
      requires Counts(counters)
      requires forall n, m :: n in singletons && m in singletons && singletons[n] == singletons[m] ==> n == m
      modifies this, singletons.Values
      ensures if name in old(singletons) then d == old(singletons)[name] else fresh(d)
      ensures singletons == old(singletons)[name := d] && Counts(Add(counters, name))
    {
      if name !in singletons {
        d := new Dummy();
        singletons := singletons[name := d];
      }
      d := singletons[name];
      d.IncrRef();
    }

    /** `detach`: the last use takes the object with it; is the server empty then? */
    method Detach(name: string, ghost counters: map<string, nat>) returns (empty: bool)
      requires Counts(counters) && name in counters && counters[name] > 0
      requires forall n, m :: n in singletons && m in singletons && singletons[n] == singletons[m] ==> n == m
      modifies this, singletons.Values
      ensures singletons == (if counters[name] == 1 then old(singletons) - {name} else old(singletons))
      ensures Counts(Subtract(counters, name)) && (empty <==> singletons == map[])
    {
      var d := singletons[name];
      var last := d.DecrRef();
      if last {
        singletons := singletons - {name};
        return singletons == map[];
      }
      empty := false;
    }
  }

  /** The static state, and the uses that clients hold. */
  class Registry {
    var theInstance: Server?
    ghost var uses: map<nat, Use>
    ghost var counters: map<string, nat>

    ghost function Singletons(): map<string, Dummy>
      reads this, theInstance
    {
      if theInstance == null then map[] else theInstance.singletons
    }

    /** The server exists exactly while there are uses. */
    ghost predicate Valid()
      reads this, theInstance, Singletons().Values
    {
      && Counted(counters, uses) && Shared(Singletons(), uses)
      && (if theInstance == null then counters == map[]
          else theInstance.Counts(counters) && theInstance.singletons != map[])
    }

    constructor ()
      ensures Valid() && theInstance == null && uses == map[]
    {
      theInstance, uses, counters := null, map[], map[];
    }

    /** `server::instance`. */
    method Instance() returns (s: Server)
      modifies this`theInstance
      ensures theInstance == s
      ensures if old(theInstance) == null then fresh(s) && s.singletons == map[] else s == old(theInstance)
    {
      if theInstance == null {
        theInstance := new Server();
      }
      s := theInstance;
    }

    /** `dummy::attach`, for a new use `u`: the object that is there already, or a new one. */
    method Attach(name: string, ghost u: nat) returns (ghost d: Dummy)
      requires Valid() && u !in uses
      modifies this, theInstance, Singletons().Values
      ensures Valid() && uses == old(uses)[u := Use(name, d)]
      ensures if name in old(Singletons()) then d == old(Singletons())[name] else fresh(d)
    {
      var server := Instance();
      var made := server.Attach(name, counters);
      d := made;
      CountedMore(counters, uses, u, Use(name, d));
      counters := Add(counters, name);
      uses := uses[u := Use(name, d)];
    }

    /** `dummy::detach`, by the client that holds use `u`: the last use of a name takes the object with
        it, and the last use of all the server. */
    method Detach(name: string, ghost u: nat)
      requires Valid() && u in uses && uses[u].name == name
      modifies this, theInstance, Singletons().Values
      ensures Valid() && uses == old(uses) - {u}
    {
      CountedLess(counters, uses, u);
      var server := Instance();
      var empty := server.Detach(name, counters);
      counters := Subtract(counters, name);
      uses := uses - {u};
      if name !in counters {
        SharedLess(old(Singletons()), counters, uses, name);
      }
      if empty {
        theInstance := null;
      }
    }

    /** `dummy::instance`, by a client that holds a use: the object that every user of the name has. */
    method Get(name: string, ghost u: nat) returns (d: Dummy)
      requires Valid() && u in uses && uses[u].name == name
      modifies this`theInstance
      ensures theInstance == old(theInstance) && d == uses[u].instance
      ensures forall v :: v in uses && uses[v].name == name ==> uses[v].instance == d
    {
      var server := Instance();
      d := server.singletons[name];
    }

    /** While anybody uses a name, the server is there with an object for it that is counted as often
        as it is used; with no use left there is no server. */
    lemma UsedIsThere(name: string)
      requires Valid()
      ensures UsesOf(uses, name) != {} <==> theInstance != null && name in theInstance.singletons
      ensures UsesOf(uses, name) != {} ==> theInstance.singletons[name].refCounter == |UsesOf(uses, name)|
      ensures theInstance == null <==> uses == map[]
    {
      assert CountedName(counters, uses, name);
      if theInstance != null {
        var n :| n in theInstance.singletons;
        assert CountedName(counters, uses, n);
      }
    }
  }
}
