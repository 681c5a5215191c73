/** src/configfile/commandline.cc: the values that `parse` leaves in a configuration set. */
module CommandLine {
  import opened Wrappers
  import opened Multimap
  import opened OptionSyntax
  import opened ArgvScan
  import opened ConfigFile
  import opened StringTools

  /** `config_set::set` on the values. */
  function SetValue(m: Entries<string>, k: string, v: string): Entries<string> {
    Insert(Erase(m, k), k, v)
  }

  /** The storing of `add_argument`. */
  function Store(m: Entries<string>, o: CmdlineOption, v: string): Entries<string> {
    if o.multiple then Insert(m, o.Key(), v) else SetValue(m, o.Key(), v)
  }

  function StoreUse(m: Entries<string>, u: Use): Entries<string> {
    if u.Given? then Store(m, u.option, u.value) else m
  }

  function StoreAll(m: Entries<string>, uses: seq<Use>): Entries<string> {
    if uses == [] then m else StoreUse(StoreAll(m, uses[..|uses| - 1]), uses[|uses| - 1])
  }

  /** `remaining`. */
  function Remaining(uses: seq<Use>): seq<string> {
    if uses == [] then [] else (if uses[0].Remains? then uses[0].text else []) + Remaining(uses[1..])
  }

  // ----- which elements remain -----

  /** The uses that are no option. */
  function LeftOver(uses: seq<Use>): seq<Use> {
    if uses == [] then [] else (if uses[0].Remains? then [uses[0]] else []) + LeftOver(uses[1..])
  }

  /** The uses that are one. */
  function Taken(uses: seq<Use>): seq<Use> {
    if uses == [] then [] else (if uses[0].Given? then [uses[0]] else []) + Taken(uses[1..])
  }

  lemma {:induction false} TextsOfSome(front: seq<Use>, rest: seq<Use>)
    requires |front| <= 1
    ensures Texts(front + rest) == (if front == [] then [] else front[0].text) + Texts(rest)
  {
    if front == [] {
      assert front + rest == rest;
    } else {
      assert (front + rest)[1..] == rest;
    }
  }

  /** Elements that are all plain. */
  predicate AllPlain(argv: seq<string>) {
    forall arg :: arg in argv ==> IsPlain(arg)
  }

  /** What remains are the texts of the uses that are no option, in order. */
  lemma {:induction false} RemainingIsLeftOver(uses: seq<Use>)
    ensures Remaining(uses) == Texts(LeftOver(uses))
  {
    if uses != [] {
      RemainingIsLeftOver(uses[1..]);
      TextsOfSome(if uses[0].Remains? then [uses[0]] else [], LeftOver(uses[1..]));
    }
  }

  lemma {:induction false} RemainingIsPlain(options: seq<CmdlineOption>, uses: seq<Use>)
    requires AllProper(options, uses)
    ensures AllPlain(Remaining(uses))
  {
    if uses != [] {
      assert Proper(options, uses[0], Texts(uses[1..]));
      RemainingIsPlain(options, uses[1..]);
    }
  }

  lemma SplitCount(text: seq<string>, rest: seq<string>, left: seq<string>, gone: seq<string>)
    requires multiset(rest) == multiset(left) + multiset(gone)
    ensures multiset(text + rest) == multiset(text + left) + multiset(gone)
    ensures multiset(text + rest) == multiset(left) + multiset(text + gone)
  {
  }

  /** The other elements are the texts of the options. */
  lemma {:induction false} RestIsTaken(uses: seq<Use>)
    ensures multiset(Texts(uses)) == multiset(Remaining(uses)) + multiset(Texts(Taken(uses)))
  {
    if uses != [] {
      var u, rest := uses[0], uses[1..];
      RestIsTaken(rest);
      SplitCount(u.text, Texts(rest), Remaining(rest), Texts(Taken(rest)));
      TextsOfSome(if u.Given? then [u] else [], Taken(rest));
    }
  }

  /** The uses of plain elements. */
  function AsRemains(argv: seq<string>): seq<Use> {
    if argv == [] then [] else [Remains([argv[0]])] + AsRemains(argv[1..])
  }

  lemma {:induction false} PlainScan(options: seq<CmdlineOption>, argv: seq<string>, i: nat)
    requires i <= |argv| && AllPlain(argv)
    ensures Scan(options, argv, i) == Ok(AsRemains(argv[i..]))
    decreases |argv| - i
  {
    if i < |argv| {
      PlainScan(options, argv, i + 1);
      assert argv[i] in argv && argv[i..][1..] == argv[i + 1..];
    }
  }

  lemma {:induction false} PlainUses(argv: seq<string>)
    ensures Remaining(AsRemains(argv)) == argv
    ensures forall u :: u in AsRemains(argv) ==> u.Remains?
  {
    if argv != [] {
      PlainUses(argv[1..]);
      assert [argv[0]] + argv[1..] == argv;
    }
  }

  lemma {:induction false} NothingStored(m: Entries<string>, uses: seq<Use>)
    requires forall u :: u in uses ==> u.Remains?
    ensures StoreAll(m, uses) == m
    decreases |uses|
  {
    if uses != [] {
      assert uses[|uses| - 1] in uses && forall u :: u in uses[..|uses| - 1] ==> u in uses;
      NothingStored(m, uses[..|uses| - 1]);
    }
  }

  // ----- what the stored values are -----

  /** The values of a key, read off the uses: a plain option replaces what was there, a multiple one
      adds to it. */
  function Effective(before: seq<string>, uses: seq<Use>, k: string): seq<string> {
    if uses == [] then before
    else
      var u := uses[|uses| - 1];
      var earlier := Effective(before, uses[..|uses| - 1], k);
      if u.Remains? || u.option.Key() != k then earlier
      else if u.option.multiple then earlier + [u.value]
      else [u.value]
  }

  lemma StoreSorted(m: Entries<string>, o: CmdlineOption, v: string)
    requires Sorted(m)
    ensures Sorted(Store(m, o, v))
  {
    EraseSorted(m, o.Key());
    InsertSorted(m, o.Key(), v);
    InsertSorted(Erase(m, o.Key()), o.Key(), v);
  }

  lemma StoreRange(m: Entries<string>, o: CmdlineOption, v: string, k: string)
    requires Sorted(m)
    ensures EqualRange(Store(m, o, v), k) ==
      if k != o.Key() then EqualRange(m, k) else if o.multiple then EqualRange(m, k) + [v] else [v]
  {
    EraseSorted(m, o.Key());
    EraseRange(m, o.Key(), k);
    InsertRange(m, o.Key(), v, k);
    InsertRange(Erase(m, o.Key()), o.Key(), v, k);
  }

  /** The stored values are the effective ones. */
  lemma {:induction false} StoredIsEffective(m: Entries<string>, uses: seq<Use>, k: string)
    requires Sorted(m)
    ensures Sorted(StoreAll(m, uses))
    ensures EqualRange(StoreAll(m, uses), k) == Effective(EqualRange(m, k), uses, k)
    decreases |uses|
  {
    if uses != [] {
      var u, front := uses[|uses| - 1], uses[..|uses| - 1];
      StoredIsEffective(m, front, k);
      if u.Given? {
        StoreSorted(StoreAll(m, front), u.option, u.value);
        StoreRange(StoreAll(m, front), u.option, u.value, k);
      }
    }
  }

  /** The values given for a key, in order. */
  function GivenFor(uses: seq<Use>, k: string): seq<string> {
    if uses == [] then []
    else
      GivenFor(uses[..|uses| - 1], k) +
      (if uses[|uses| - 1].Given? && uses[|uses| - 1].option.Key() == k then [uses[|uses| - 1].value] else [])
  }

  predicate KeyIsMultiple(options: seq<CmdlineOption>, k: string) {
    forall o :: o in options && o.Key() == k ==> o.multiple
  }

  predicate KeyIsPlain(options: seq<CmdlineOption>, k: string) {
    forall o :: o in options && o.Key() == k ==> !o.multiple
  }

  predicate GivenByOptions(options: seq<CmdlineOption>, uses: seq<Use>) {
    forall u :: u in uses && u.Given? ==> u.option in options && Check(u.option.argument, u.value)
  }

  /** On an empty set, a multiple key gets all its values and a plain one the last. */
  lemma {:induction false} LastWinsAndAllValues(options: seq<CmdlineOption>, uses: seq<Use>, k: string)
    requires GivenByOptions(options, uses)
    ensures KeyIsMultiple(options, k) ==> Effective([], uses, k) == GivenFor(uses, k)
    ensures KeyIsPlain(options, k) ==>
      Effective([], uses, k) == if GivenFor(uses, k) == [] then [] else [GivenFor(uses, k)[|GivenFor(uses, k)| - 1]]
    decreases |uses|
  {
    if uses != [] {
      assert uses[|uses| - 1] in uses;
      assert forall u :: u in uses[..|uses| - 1] ==> u in uses;
      LastWinsAndAllValues(options, uses[..|uses| - 1], k);
    }
  }

  /** A value is one that some option with the key accepts. */
  ghost predicate AcceptedUnder(options: seq<CmdlineOption>, k: string, v: string) {
    exists o :: o in options && o.Key() == k && Check(o.argument, v)
  }

  lemma {:induction false} EffectiveAccepted(options: seq<CmdlineOption>, uses: seq<Use>, k: string, v: string)
    requires GivenByOptions(options, uses) && v in Effective([], uses, k)
    ensures AcceptedUnder(options, k, v)
    decreases |uses|
  {
    var u, front := uses[|uses| - 1], uses[..|uses| - 1];
    assert u in uses && forall x :: x in front ==> x in uses;
    if v in Effective([], front, k) {
      EffectiveAccepted(options, front, k, v);
    }
  }

  // ----- default values -----

  /** `config_set::exists`, with the names of the children. */
  predicate Exists(m: Entries<string>, groups: set<string>, k: string) {
    EqualRange(m, k) != [] || k in groups
  }

  /** The second loop of `parse`. */
  function Fill(options: seq<CmdlineOption>, m: Entries<string>, groups: set<string>)
    : Result<Entries<string>, ParseError>
  {
    if options == [] then Ok(m)
    else
      var o := options[0];
      if Exists(m, groups, o.Key()) then Fill(options[1..], m, groups)
      else if o.required then Err(RequiredMissing)
      else if o.hasDefault then Fill(options[1..], SetValue(m, o.Key(), o.default), groups)
      else Fill(options[1..], m, groups)
  }

  lemma SetRange(m: Entries<string>, k: string, v: string, other: string)
    requires Sorted(m)
    ensures Sorted(SetValue(m, k, v))
    ensures EqualRange(SetValue(m, k, v), other) == if k == other then [v] else EqualRange(m, other)
  {
    EraseSorted(m, k);
    InsertSorted(Erase(m, k), k, v);
    EraseRange(m, k, other);
    InsertRange(Erase(m, k), k, v, other);
  }

  /** A key that is there keeps its values. */
  lemma {:induction false} FillKeeps(options: seq<CmdlineOption>, m: Entries<string>, groups: set<string>, k: string)
    requires Sorted(m) && Fill(options, m, groups).Ok?
    ensures Sorted(Fill(options, m, groups).value)
    ensures Exists(m, groups, k) ==> EqualRange(Fill(options, m, groups).value, k) == EqualRange(m, k)
    decreases |options|
  {
    if options != [] {
      var o := options[0];
      if !Exists(m, groups, o.Key()) && o.hasDefault {
        SetRange(m, o.Key(), o.default, k);
        FillKeeps(options[1..], SetValue(m, o.Key(), o.default), groups, k);
      } else {
        FillKeeps(options[1..], m, groups, k);
      }
    }
  }

  /** After a successful parse every required key and every key with a default value is there. */
  lemma {:induction false} FillCompletes(options: seq<CmdlineOption>, m: Entries<string>, groups: set<string>,
                                          o: CmdlineOption)
    requires Sorted(m) && Fill(options, m, groups).Ok? && o in options && (o.required || o.hasDefault)
    ensures Exists(Fill(options, m, groups).value, groups, o.Key())
    decreases |options|
  {
    var first := options[0];
    var n := if !Exists(m, groups, first.Key()) && first.hasDefault then SetValue(m, first.Key(), first.default) else m;
    SetRange(m, first.Key(), first.default, o.Key());
    if o == first {
      FillKeeps(options[1..], n, groups, o.Key());
    } else {
      FillCompletes(options[1..], n, groups, o);
    }
  }

  /** Whatever is stored stays accepted by some option with the key. */
  lemma {:induction false} FillAccepted(options: seq<CmdlineOption>, all: seq<CmdlineOption>,
                                         m: Entries<string>, groups: set<string>,
                                        k: string, v: string)
    requires Sorted(m) && Fill(options, m, groups).Ok? && v in EqualRange(Fill(options, m, groups).value, k)
    requires (forall o :: o in options ==> o in all) && forall o :: o in all ==> Meaningful(o)
    requires forall w :: w in EqualRange(m, k) ==> AcceptedUnder(all, k, w)
    ensures AcceptedUnder(all, k, v)
    decreases |options|
  {
    if options != [] {
      var o := options[0];
      assert o in all;
      if !Exists(m, groups, o.Key()) && o.hasDefault {
        SetRange(m, o.Key(), o.default, k);
        FillAccepted(options[1..], all, SetValue(m, o.Key(), o.default), groups, k, v);
      } else {
        FillAccepted(options[1..], all, m, groups, k, v);
      }
    }
  }

  ghost predicate DistinctKeys(options: seq<CmdlineOption>) {
    forall i, j :: 0 <= i < j < |options| ==> options[i].Key() != options[j].Key()
  }

  /** What a key has after the second loop, said without the order of the options. */
  ghost predicate FilledKey(options: seq<CmdlineOption>, m: Entries<string>, groups: set<string>,
                            k: string, vs: seq<string>)
  {
    if Exists(m, groups, k) then vs == EqualRange(m, k)
    else if exists o :: o in options && o.Key() == k && o.hasDefault
      then exists o :: o in options && o.Key() == k && o.hasDefault && vs == [o.default]
    else vs == []
  }

  ghost predicate NothingMissing(options: seq<CmdlineOption>, m: Entries<string>, groups: set<string>) {
    forall o :: o in options && o.required ==> Exists(m, groups, o.Key())
  }

  lemma TailKeys(options: seq<CmdlineOption>)
    requires options != [] && DistinctKeys(options)
    ensures DistinctKeys(options[1..])
    ensures forall o :: o in options[1..] ==> o.Key() != options[0].Key()
    ensures forall o :: o in options <==> o == options[0] || o in options[1..]
  {
    assert options == [options[0]] + options[1..];
    forall o | o in options[1..] ensures o.Key() != options[0].Key() {
      var j :| 0 <= j < |options[1..]| && options[1..][j] == o;
      assert options[j + 1] == o;
    }
  }

  /** With distinct keys, the second loop succeeds if and only if nothing required is missing. */
  lemma {:induction false} FillSucceeds(options: seq<CmdlineOption>, m: Entries<string>, groups: set<string>)
    requires Sorted(m) && DistinctKeys(options)
    ensures Fill(options, m, groups).Ok? <==> NothingMissing(options, m, groups)
    decreases |options|
  {
    if options != [] {
      var o := options[0];
      TailKeys(options);
      if !Exists(m, groups, o.Key()) && !o.required && o.hasDefault {
        var n := SetValue(m, o.Key(), o.default);
        SetRange(m, o.Key(), o.default, o.Key());
        FillSucceeds(options[1..], n, groups);
        forall p | p in options[1..] ensures Exists(n, groups, p.Key()) <==> Exists(m, groups, p.Key()) {
          SetRange(m, o.Key(), o.default, p.Key());
        }
      } else {
        FillSucceeds(options[1..], m, groups);
      }
    }
  }

  lemma {:induction false} FillMeans(options: seq<CmdlineOption>, m: Entries<string>, groups: set<string>, k: string)
    requires Sorted(m) && DistinctKeys(options) && Fill(options, m, groups).Ok?
    ensures FilledKey(options, m, groups, k, EqualRange(Fill(options, m, groups).value, k))
    decreases |options|
  {
    if options != [] {
      var o := options[0];
      TailKeys(options);
      if !Exists(m, groups, o.Key()) && o.hasDefault {
        SetRange(m, o.Key(), o.default, k);
        FillMeans(options[1..], SetValue(m, o.Key(), o.default), groups, k);
      } else {
        FillMeans(options[1..], m, groups, k);
      }
    }
  }

  // ----- parse -----

  datatype Outcome = Outcome(values: Entries<string>, remaining: seq<string>)

  /** `parse`: what it leaves in a set with values `m` and children named `groups`. */
  function ParseArgv(options: seq<CmdlineOption>, argv: seq<string>, m: Entries<string>, groups: set<string>)
    : Result<Outcome, ParseError>
  {
    match Scan(options, argv, 0)
    case Err(e) => Err(e)
    case Ok(uses) =>
      match Fill(options, StoreAll(m, uses), groups)
      case Err(e) => Err(e)
      case Ok(values) => Ok(Outcome(values, Remaining(uses)))
  }

  lemma {:induction false} UsesAreGiven(options: seq<CmdlineOption>, uses: seq<Use>)
    requires AllProper(options, uses)
    ensures GivenByOptions(options, uses)
  {
    if uses != [] {
      UsesAreGiven(options, uses[1..]);
      assert uses == [uses[0]] + uses[1..];
    }
  }

  /** A successful parse of an empty set: all elements are used once and in order; a key that was given
      has all its values, or the last one; required keys and keys with defaults are there; and every
      value is accepted by an option with its key. */
  lemma ParseMeans(options: seq<CmdlineOption>, argv: seq<string>, k: string)
    requires ParseArgv(options, argv, [], {}).Ok? && forall o :: o in options ==> Meaningful(o)
    ensures Scan(options, argv, 0).Ok? && Texts(Scan(options, argv, 0).value) == argv
    ensures var uses, vs := Scan(options, argv, 0).value, EqualRange(ParseArgv(options, argv, [], {}).value.values, k);
            && (GivenFor(uses, k) != [] && KeyIsMultiple(options, k) ==> vs == GivenFor(uses, k))
            && (GivenFor(uses, k) != [] && KeyIsPlain(options, k) ==>
                  vs == [GivenFor(uses, k)[|GivenFor(uses, k)| - 1]])
            && ((exists o :: o in options && o.Key() == k && (o.required || o.hasDefault)) ==> vs != [])
            && (forall v :: v in vs ==> AcceptedUnder(options, k, v))
  {
    var uses := Scan(options, argv, 0).value;
    var m := StoreAll([], uses);
    ScanUsesAll(options, argv, 0);
    assert argv[0..] == argv;
    UsesAreGiven(options, uses);
    StoredIsEffective([], uses, k);
    LastWinsAndAllValues(options, uses, k);
    FillKeeps(options, m, {}, k);
    if o :| o in options && o.Key() == k && (o.required || o.hasDefault) {
      FillCompletes(options, m, {}, o);
    }
    forall w | w in EqualRange(m, k) ensures AcceptedUnder(options, k, w) {
      EffectiveAccepted(options, uses, k, w);
    }
    forall v | v in EqualRange(Fill(options, m, {}).value, k) ensures AcceptedUnder(options, k, v) {
      FillAccepted(options, options, m, {}, k, v);
    }
  }

  /** What remains after a successful parse are the elements, in order, that are neither an option nor the
      value of one. */
  lemma RemainingMeans(options: seq<CmdlineOption>, argv: seq<string>, m: Entries<string>, groups: set<string>)
    requires ParseArgv(options, argv, m, groups).Ok?
    ensures Scan(options, argv, 0).Ok? && Texts(Scan(options, argv, 0).value) == argv
    ensures var uses, left := Scan(options, argv, 0).value, ParseArgv(options, argv, m, groups).value.remaining;
            && left == Texts(LeftOver(uses)) && AllPlain(left)
            && multiset(argv) == multiset(left) + multiset(Texts(Taken(uses)))
  {
    var uses := Scan(options, argv, 0).value;
    assert argv[0..] == argv;
    ScanUsesAll(options, argv, 0);
    RemainingIsLeftOver(uses);
    RemainingIsPlain(options, uses);
    RestIsTaken(uses);
  }

  /** With distinct names, of whatever uses the elements are written as, those that are no option remain. */
  lemma RemainingIsExact(options: seq<CmdlineOption>, uses: seq<Use>, argv: seq<string>,
                         m: Entries<string>, groups: set<string>)
    requires Distinct(options) && ("-" !in argv || AtMostOneShortless(options))
    requires Texts(uses) == argv && AllProper(options, uses) && ParseArgv(options, argv, m, groups).Ok?
    ensures ParseArgv(options, argv, m, groups).value.remaining == Texts(LeftOver(uses))
  {
    ScanIsExact(options, uses, argv);
    RemainingIsLeftOver(uses);
  }

  /** A command line of plain elements only is its own remaining list, and nothing but defaults is stored. */
  lemma PlainElementsRemain(options: seq<CmdlineOption>, argv: seq<string>, m: Entries<string>, groups: set<string>)
    requires AllPlain(argv)
    ensures ParseArgv(options, argv, m, groups) ==
      match Fill(options, m, groups)
      case Err(e) => Err(e)
      case Ok(values) => Ok(Outcome(values, argv))
  {
    assert argv[0..] == argv;
    PlainScan(options, argv, 0);
    PlainUses(argv);
    NothingStored(m, AsRemains(argv));
  }

  /** An option that stands alone is scanned as itself, with "true" for an option without argument and the
      default value for an optional argument. */
  lemma AloneIsScanned(options: seq<CmdlineOption>, o: CmdlineOption, arg: string)
    requires Distinct(options) && o in options && Meaningful(o) && (o.argument == NoArgument || o.optional)
    requires arg == "--" + o.long || (o.short != "" && arg == "-" + o.short)
    ensures Scan(options, [arg], 0)
         == Ok([Given(o, if o.argument == NoArgument then "true" else o.default, [arg])])
  {
    var u := Given(o, if o.argument == NoArgument then "true" else o.default, [arg]);
    UsesCons(options, u, []);
    assert [u] + [] == [u];
    assert arg[0] == '-' && arg != "-" by {
      NamesNotEmpty(o);
    }
    ScanIsExact(options, [u], [arg]);
  }

  /** If the parse succeeds, this value alone is stored, under the configuration name if there is one and
      else under the long name. */
  lemma AloneIsStored(options: seq<CmdlineOption>, o: CmdlineOption, arg: string, groups: set<string>)
    requires Distinct(options) && o in options && Meaningful(o) && (o.argument == NoArgument || o.optional)
    requires arg == "--" + o.long || (o.short != "" && arg == "-" + o.short)
    requires ParseArgv(options, [arg], [], groups).Ok?
    ensures EqualRange(ParseArgv(options, [arg], [], groups).value.values, if o.config != "" then o.config else o.long)
         == [if o.argument == NoArgument then "true" else o.default]
  {
    AloneIsScanned(options, o, arg);
    var uses := Scan(options, [arg], 0).value;
    OneMore([], uses[0], []);
    assert [] + uses == uses;
    StoreSorted([], o, uses[0].value);
    StoreRange([], o, uses[0].value, o.Key());
    FillKeeps(options, StoreAll([], uses), groups, o.Key());
  }

  /** With distinct keys, an option whose key was not given has its default value and no other, or
      nothing; a key of no option is left alone. */
  lemma DefaultsAreStored(options: seq<CmdlineOption>, m: Entries<string>, groups: set<string>, k: string)
    requires Sorted(m) && DistinctKeys(options) && Fill(options, m, groups).Ok? && !Exists(m, groups, k)
    ensures var vs := EqualRange(Fill(options, m, groups).value, k);
            && (forall o :: o in options && o.Key() == k ==> vs == if o.hasDefault then [o.default] else [])
            && ((forall o :: o in options ==> o.Key() != k) ==> vs == [])
  {
    FillMeans(options, m, groups, k);
    forall o, p | o in options && p in options && o.Key() == k && p.Key() == k ensures p == o {
      UniqueByKey(options, p, o);
    }
  }

  lemma UniqueByKey(options: seq<CmdlineOption>, a: CmdlineOption, b: CmdlineOption)
    requires DistinctKeys(options) && a in options && b in options && a.Key() == b.Key()
    ensures a == b
  {
    var i :| 0 <= i < |options| && options[i] == a;
    var j :| 0 <= j < |options| && options[j] == b;
    assert i == j;
  }

  lemma FilledKeyIsUnique(a: seq<CmdlineOption>, b: seq<CmdlineOption>, m: Entries<string>, groups: set<string>,
                          k: string, u: seq<string>, v: seq<string>)
    requires DistinctKeys(a) && forall o :: o in a <==> o in b
    requires FilledKey(a, m, groups, k, u) && FilledKey(b, m, groups, k, v)
    ensures u == v
  {
    if !Exists(m, groups, k) {
      if o :| o in a && o.Key() == k && o.hasDefault {
        var p :| p in a && p.Key() == k && p.hasDefault && u == [p.default];
        var q :| q in b && q.Key() == k && q.hasDefault && v == [q.default];
        UniqueByKey(a, p, q);
      }
    }
  }

  /** With distinct long names, short names and keys, and without a bare `-` or with at most one option
      that lacks a short name, the order of the options does not matter: both parses fail, or both
      succeed with the same remaining elements and the same values for every key. */
  lemma OrderDoesNotMatter(a: seq<CmdlineOption>, b: seq<CmdlineOption>, argv: seq<string>,
                           m: Entries<string>, groups: set<string>, k: string)
    requires Distinct(a) && Distinct(b) && DistinctKeys(a) && DistinctKeys(b)
    requires (forall o :: o in a <==> o in b) && ("-" !in argv || AtMostOneShortless(a)) && Sorted(m)
    ensures ParseArgv(a, argv, m, groups).Ok? <==> ParseArgv(b, argv, m, groups).Ok?
    ensures ParseArgv(a, argv, m, groups).Ok? ==>
      && ParseArgv(a, argv, m, groups).value.remaining == ParseArgv(b, argv, m, groups).value.remaining
      && EqualRange(ParseArgv(a, argv, m, groups).value.values, k)
         == EqualRange(ParseArgv(b, argv, m, groups).value.values, k)
  {
    ScanIgnoresOrder(a, b, argv, 0);
    if Scan(a, argv, 0).Ok? {
      var n := StoreAll(m, Scan(a, argv, 0).value);
      StoredIsEffective(m, Scan(a, argv, 0).value, k);
      FillSucceeds(a, n, groups);
      FillSucceeds(b, n, groups);
      if Fill(a, n, groups).Ok? {
        FillMeans(a, n, groups, k);
        FillMeans(b, n, groups, k);
        FilledKeyIsUnique(a, b, n, groups, k,
                          EqualRange(Fill(a, n, groups).value, k), EqualRange(Fill(b, n, groups).value, k));
      }
    }
  }

  // ----- the class -----

  /** All descriptions, up to the first one that is rejected. */
  function ParseAll(descriptions: seq<string>): Result<seq<CmdlineOption>, SyntaxError> {
    if descriptions == [] then Ok([])
    else
      match ParseAll(descriptions[..|descriptions| - 1])
      case Err(e) => Err(e)
      case Ok(options) =>
        match ParseDescription(descriptions[|descriptions| - 1])
        case Err(e) => Err(e)
        case Ok(o) => Ok(options + [o])
  }

  lemma {:induction false} ParseAllPrefix(descriptions: seq<string>, i: nat)
    requires i <= |descriptions|
    ensures ParseAll(descriptions[..i]).Err? ==> ParseAll(descriptions) == ParseAll(descriptions[..i])
    decreases |descriptions| - i
  {
    if i == |descriptions| {
      assert descriptions[..i] == descriptions;
    } else {
      ParseAllPrefix(descriptions, i + 1);
      assert descriptions[..i + 1][..i] == descriptions[..i];
    }
  }

  /** Every option of a command line is one that can be expressed and makes sense. */
  lemma {:induction false} ParsedOptionsAreFine(descriptions: seq<string>)
    ensures ParseAll(descriptions).Ok? ==>
      && |ParseAll(descriptions).value| == |descriptions|
      && forall o :: o in ParseAll(descriptions).value ==> Expressible(o) && Meaningful(o)
  {
    if descriptions != [] {
      ParsedOptionsAreFine(descriptions[..|descriptions| - 1]);
      ParsedIsFine(descriptions[|descriptions| - 1]);
    }
  }

  class CommandLineParser {
    const options: seq<CmdlineOption>
    var remaining: seq<string>

    /** The constructor parses the descriptions; nothing if one of them is rejected. */
    static method FromDescriptions(descriptions: seq<string>) returns (r: Result<CommandLineParser, SyntaxError>)
      ensures match ParseAll(descriptions)
              case Ok(options) => r.Ok? && fresh(r.value) && r.value.options == options
              case Err(e) => r == Err(e)
    {
      var options := [];
      for i := 0 to |descriptions|
        invariant ParseAll(descriptions[..i]) == Ok(options)
      {
        assert descriptions[..i + 1][..i] == descriptions[..i];
        ParseAllPrefix(descriptions, i + 1);
        var o := ParseDescription(descriptions[i]);
        if o.Err? {
          return Err(o.error);
        }
        options := options + [o.value];
      }
      assert descriptions[..|descriptions|] == descriptions;
      var c := new CommandLineParser(options);
      r := Ok(c);
    }

    constructor (options: seq<CmdlineOption>)
      ensures this.options == options && remaining == []
    {
      this.options := options;
      remaining := [];
    }

    /** `add_argument`. */
    method AddArgument(config: ConfigSet, o: CmdlineOption, value: string) returns (ok: bool)
      requires Sorted(config.values)
      modifies config`values
      ensures ok <==> Check(o.argument, value)
      ensures Sorted(config.values)
      ensures config.values == if ok then Store(old(config.values), o, value) else old(config.values)
    {
      ok := Check(o.argument, value);
      if ok {
        if o.multiple {
          config.InsertValue(o.Key(), value);
        } else {
          config.Set(o.Key(), value);
        }
      }
    }

    /** `option_match`: stores the value and gives the next index, or the same one for no match. */
    method OptionMatch(config: ConfigSet, o: CmdlineOption, argv: seq<string>, i: nat)
      returns (r: Result<nat, ParseError>)
      requires i < |argv| && Sorted(config.values)
      modifies config`values
      ensures Sorted(config.values)
      ensures match MatchOption(o, argv, i)
              case NoMatch => r == Ok(i) && config.values == old(config.values)
              case Refused(e) => r == Err(e) && config.values == old(config.values)
              case Matched(v, used) => r == Ok(i + used) && config.values == Store(old(config.values), o, v)
    {
      var value, used := "", 0;
      if argv[i] == "-" + o.short {
        var follows := i + 1 < |argv| && IsPlain(argv[i + 1]);
        if o.argument == NoArgument || (o.optional && !follows) {
          value, used := o.DefaultValue(), 1;
        } else if follows {
          value, used := argv[i + 1], 2;
        } else {
          return Err(MissingArgument);
        }
      } else if argv[i] == "--" + o.long {
        if o.argument != NoArgument && !o.optional {
          return Err(MissingArgument);
        }
        value, used := o.DefaultValue(), 1;
      } else if StartsWith(argv[i], "--" + o.long + "=") {
        if o.argument == NoArgument {
          return Err(UnexpectedArgument);
        }
        value, used := argv[i][|o.long| + 3..], 1;
      } else {
        return Ok(i);
      }
      var ok := AddArgument(config, o, value);
      r := if ok then Ok(i + used) else Err(InvalidValue);
    }

    /** The search for an option that takes element `i`. */
    method MatchAny(config: ConfigSet, argv: seq<string>, i: nat) returns (r: Result<nat, ParseError>)
      requires i < |argv| && Sorted(config.values)
      modifies config`values
      ensures Sorted(config.values)
      ensures match FirstMatch(options, argv, i)
              case Nobody => r == Err(UnknownArgument) && config.values == old(config.values)
              case Found(_, Refused(e)) => r == Err(e)
              case Found(o, Matched(v, used)) => r == Ok(i + used) && config.values == Store(old(config.values), o, v)
    {
      var k := 0;
      while k < |options|
        invariant 0 <= k <= |options| && Sorted(config.values) && config.values == old(config.values)
        invariant FirstMatch(options, argv, i) == FirstMatch(options[k..], argv, i)
      {
        r := OptionMatch(config, options[k], argv, i);
        if r != Ok(i) {
          return;
        }
        k := k + 1;
      }
      r := Err(UnknownArgument);
    }

    /** The part of the loop that deals with an option. */
    method TakeOption(config: ConfigSet, argv: seq<string>, i: nat, ghost uses: seq<Use>)
      returns (r: Result<nat, ParseError>, ghost u: Use)
      requires i < |argv| && !IsPlain(argv[i]) && Sorted(config.values)
      modifies config`values
      ensures Sorted(config.values)
      ensures r.Err? ==> Behind(uses, Scan(options, argv, i)) == Err(r.error)
      ensures r.Ok? ==> i < r.value <= |argv| && u.Given? && config.values == StoreUse(old(config.values), u)
      ensures r.Ok? ==> Behind(uses, Scan(options, argv, i)) == Behind(uses + [u], Scan(options, argv, r.value))
    {
      u := ScanOption(options, argv, i, uses);
      r := MatchAny(config, argv, i);
    }

    /** The first loop of `parse`. */
    method ScanAll(config: ConfigSet, argv: seq<string>) returns (r: Result<seq<string>, ParseError>)
      requires Sorted(config.values)
      modifies config`values
      ensures Sorted(config.values)
      ensures match Scan(options, argv, 0)
              case Err(e) => r == Err(e)
              case Ok(uses) => r == Ok(Remaining(uses)) && config.values == StoreAll(old(config.values), uses)
    {
      var remains, i := [], 0;
      ghost var uses: seq<Use> := [];
      ghost var all := Scan(options, argv, i);
      BehindNone(all);
      while i < |argv|
        invariant 0 <= i <= |argv| && Sorted(config.values) && remains == Remaining(uses)
        invariant config.values == StoreAll(old(config.values), uses)
        invariant all == Behind(uses, Scan(options, argv, i))
        decreases |argv| - i
      {
        if IsPlain(argv[i]) {
          ghost var u := ScanPlain(options, argv, i, uses);
          OneMore(uses, u, old(config.values));
          uses := uses + [u];
          remains, i := remains + [argv[i]], i + 1;
        } else {
          var next;
          ghost var u;
          next, u := TakeOption(config, argv, i, uses);
          if next.Err? {
            return Err(next.error);
          }
          OneMore(uses, u, old(config.values));
          uses, i := uses + [u], next.value;
        }
      }
      assert uses + [] == uses;
      r := Ok(remains);
    }

    /** The second loop of `parse`. */
    method FillDefaults(config: ConfigSet) returns (r: Result<bool, ParseError>)
      requires Sorted(config.values)
      modifies config`values
      ensures Sorted(config.values)
      ensures match Fill(options, old(config.values), Groups(config))
              case Err(e) => r == Err(e)
              case Ok(m) => r == Ok(true) && config.values == m
    {
      ghost var groups := Groups(config);
      for k := 0 to |options|
        invariant Sorted(config.values) && Groups(config) == groups
        invariant Fill(options, old(config.values), groups) == Fill(options[k..], config.values, groups)
      {
        var o := options[k];
        var there := config.Exists(o.Key());
        GroupsAreNames(config, o.Key());
        if !there {
          if o.required {
            return Err(RequiredMissing);
          } else if o.hasDefault {
            config.Set(o.Key(), o.DefaultValue());
          }
        }
      }
      r := Ok(true);
    }

    /** `parse`. */
    method Parse(argv: seq<string>, config: ConfigSet) returns (r: Result<bool, ParseError>)
      requires Sorted(config.values)
      modifies this`remaining, config`values
      ensures Sorted(config.values)
      ensures match ParseArgv(options, argv, old(config.values), Groups(config))
              case Err(e) => r == Err(e) && remaining == old(remaining)
              case Ok(out) => r == Ok(true) && remaining == out.remaining && config.values == out.values
    {
      var remains := ScanAll(config, argv);
      if remains.Err? {
        return Err(remains.error);
      }
      r := FillDefaults(config);
      if r.Ok? {
        remaining := remains.value;
      }
    }
  }

  /** The names of the children of a set. */
  ghost function Groups(config: ConfigSet): set<string>
    reads config
  {
    set e | e in config.children :: e.0
  }

  lemma GroupsAreNames(config: ConfigSet, k: string)
    ensures k in Groups(config) <==> EqualRange(config.children, k) != []
  {
    HasMeans(config.children, k);
    if Has(config.children, k) {
      var i :| 0 <= i < |config.children| && config.children[i].0 == k;
      assert config.children[i] in config.children;
    }
  }

  /** The uses found so far, before those of the rest. */
  function Behind(uses: seq<Use>, r: Result<seq<Use>, ParseError>): Result<seq<Use>, ParseError> {
    match r
    case Err(_) => r
    case Ok(rest) => Ok(uses + rest)
  }

  lemma BehindNone(r: Result<seq<Use>, ParseError>)
    ensures Behind([], r) == r
  {
    assert r.Ok? ==> [] + r.value == r.value;
  }

  lemma BehindBefore(uses: seq<Use>, u: Use, r: Result<seq<Use>, ParseError>)
    ensures Behind(uses, Before(u, r)) == Behind(uses + [u], r)
  {
    if r.Ok? {
      assert uses + ([u] + r.value) == uses + [u] + r.value;
    }
  }

  lemma ScanPlain(options: seq<CmdlineOption>, argv: seq<string>, i: nat, uses: seq<Use>) returns (u: Use)
    requires i < |argv| && IsPlain(argv[i])
    ensures u == Remains([argv[i]])
    ensures Behind(uses, Scan(options, argv, i)) == Behind(uses + [u], Scan(options, argv, i + 1))
  {
    u := Remains([argv[i]]);
    BehindBefore(uses, u, Scan(options, argv, i + 1));
  }

  /** An option that takes an element, or the error of the scan. */
  lemma ScanOption(options: seq<CmdlineOption>, argv: seq<string>, i: nat, uses: seq<Use>) returns (u: Use)
    requires i < |argv| && !IsPlain(argv[i])
    ensures var f, r := FirstMatch(options, argv, i), Behind(uses, Scan(options, argv, i));
            if f.Found? && f.outcome.Matched? then
              && u.Given? && u.option == f.option && u.value == f.outcome.value
              && r == Behind(uses + [u], Scan(options, argv, i + f.outcome.used))
            else r == Err(if f.Nobody? then UnknownArgument else f.outcome.error)
  {
    var f := FirstMatch(options, argv, i);
    u := Remains([]);
    if f.Found? && f.outcome.Matched? {
      u := Given(f.option, f.outcome.value, argv[i..i + f.outcome.used]);
      BehindBefore(uses, u, Scan(options, argv, i + f.outcome.used));
    }
  }

  lemma OneMore(uses: seq<Use>, u: Use, m: Entries<string>)
    ensures StoreAll(m, uses + [u]) == StoreUse(StoreAll(m, uses), u)
    ensures Remaining(uses + [u]) == Remaining(uses) + (if u.Remains? then u.text else [])
  {
    assert (uses + [u])[..|uses|] == uses;
    RemainingLast(uses, u);
  }

  lemma {:induction false} RemainingLast(uses: seq<Use>, u: Use)
    ensures Remaining(uses + [u]) == Remaining(uses) + (if u.Remains? then u.text else [])
    decreases |uses|
  {
    if uses == [] {
      assert [u][1..] == [];
    } else {
      assert (uses + [u])[1..] == uses[1..] + [u];
      RemainingLast(uses[1..], u);
    }
  }
}
