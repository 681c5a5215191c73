/** What src/configfile/commandline.cc makes of the elements of a command line. */
module ArgvScan {
  import opened Wrappers
  import opened ConfigLines
  import opened OptionSyntax
  import opened Sequences
  import opened StringTools

  datatype ParseError = InvalidValue | MissingArgument | UnexpectedArgument | UnknownArgument | RequiredMissing

  /** What one option makes of an element: a value, with the number of elements it takes. */
  datatype Match = NoMatch | Refused(error: ParseError) | Matched(value: string, used: nat)

  /** An element that is no option. */
  predicate IsPlain(arg: string) {
    arg == "" || arg[0] != '-'
  }

  predicate ArgumentFollows(argv: seq<string>, i: nat) {
    i + 1 < |argv| && IsPlain(argv[i + 1])
  }

  /** `add_argument`, up to the storing. */
  function Checked(o: CmdlineOption, value: string, used: nat): Match {
    if Check(o.argument, value) then Matched(value, used) else Refused(InvalidValue)
  }

  /** `option_match`. */
  function MatchOption(o: CmdlineOption, argv: seq<string>, i: nat): (m: Match)
    requires i < |argv|
    ensures m.Matched? ==> 1 <= m.used <= 2 && i + m.used <= |argv|
  {
    if argv[i] == "-" + o.short then
      if o.argument == NoArgument || (o.optional && !ArgumentFollows(argv, i)) then Checked(o, o.DefaultValue(), 1)
      else if ArgumentFollows(argv, i) then Checked(o, argv[i + 1], 2)
      else Refused(MissingArgument)
    else if argv[i] == "--" + o.long then
      if o.argument != NoArgument && !o.optional then Refused(MissingArgument) else Checked(o, o.DefaultValue(), 1)
    else if StartsWith(argv[i], "--" + o.long + "=") then
      if o.argument == NoArgument then Refused(UnexpectedArgument) else Checked(o, argv[i][|o.long| + 3..], 1)
    else NoMatch
  }

  datatype Found = Nobody | Found(option: CmdlineOption, outcome: Match)

  /** The search of `parse` for an option that takes the element. */
  function FirstMatch(options: seq<CmdlineOption>, argv: seq<string>, i: nat): (f: Found)
    requires i < |argv|
    ensures f.Found? ==> f.option in options && f.outcome == MatchOption(f.option, argv, i) && f.outcome != NoMatch
    ensures f.Nobody? ==> forall o :: o in options ==> MatchOption(o, argv, i) == NoMatch
  {
    if options == [] then Nobody
    else if MatchOption(options[0], argv, i) != NoMatch then Found(options[0], MatchOption(options[0], argv, i))
    else FirstMatch(options[1..], argv, i)
  }

  /** How some elements are used: one of the remaining ones, or those that give an option its value. */
  datatype Use = Remains(text: seq<string>) | Given(option: CmdlineOption, value: string, text: seq<string>)

  function Before(u: Use, r: Result<seq<Use>, ParseError>): Result<seq<Use>, ParseError> {
    match r
    case Err(_) => r
    case Ok(uses) => Ok([u] + uses)
  }

  /** The loop of `parse` over the elements from `i` on, without its effects. */
  function Scan(options: seq<CmdlineOption>, argv: seq<string>, i: nat): Result<seq<Use>, ParseError>
    requires i <= |argv|
    decreases |argv| - i
  {
    if i == |argv| then Ok([])
    else if IsPlain(argv[i]) then Before(Remains([argv[i]]), Scan(options, argv, i + 1))
    else
      match FirstMatch(options, argv, i)
      case Nobody => Err(UnknownArgument)
      case Found(_, Refused(e)) => Err(e)
      case Found(o, Matched(v, used)) => Before(Given(o, v, argv[i..i + used]), Scan(options, argv, i + used))
  }

  // ----- every element is used once -----

  function Texts(uses: seq<Use>): seq<string> {
    if uses == [] then [] else uses[0].text + Texts(uses[1..])
  }

  /** The ways to write an option with a value. */
  predicate Spells(o: CmdlineOption, value: string, text: seq<string>) {
    || (text == ["-" + o.short] && (o.argument == NoArgument || o.optional) && value == o.DefaultValue())
    || (text == ["-" + o.short, value] && o.argument != NoArgument && IsPlain(value))
    || (text == ["--" + o.long] && (o.argument == NoArgument || o.optional) && value == o.DefaultValue())
    || (text == ["--" + o.long + "=" + value] && o.argument != NoArgument)
  }

  /** A use of elements that the options allow; an element that looks like an argument does not follow
      a short name that could take one. */
  ghost predicate Proper(options: seq<CmdlineOption>, u: Use, next: seq<string>) {
    match u
    case Remains(text) => |text| == 1 && IsPlain(text[0])
    case Given(o, value, text) =>
      && o in options && Spells(o, value, text) && Check(o.argument, value)
      && (text == ["-" + o.short] && o.argument != NoArgument && next != [] ==> !IsPlain(next[0]))
  }

  ghost predicate AllProper(options: seq<CmdlineOption>, uses: seq<Use>) {
    uses == [] || (Proper(options, uses[0], Texts(uses[1..])) && AllProper(options, uses[1..]))
  }

  lemma SliceJoin(argv: seq<string>, i: nat, n: nat)
    requires i <= n <= |argv|
    ensures argv[i..n] + argv[n..] == argv[i..]
  {
  }

  lemma UsesCons(options: seq<CmdlineOption>, u: Use, rest: seq<Use>)
    ensures Texts([u] + rest) == u.text + Texts(rest)
    ensures AllProper(options, [u] + rest) <==> Proper(options, u, Texts(rest)) && AllProper(options, rest)
  {
    assert ([u] + rest)[1..] == rest;
  }

  lemma EqualSignCut(arg: string, front: string)
    requires StartsWith(arg, front)
    ensures arg == front + arg[|front|..]
  {
  }

  lemma MatchSpells(o: CmdlineOption, argv: seq<string>, i: nat)
    requires i < |argv| && MatchOption(o, argv, i).Matched?
    ensures var m := MatchOption(o, argv, i); Spells(o, m.value, argv[i..i + m.used]) && Check(o.argument, m.value)
  {
    var m := MatchOption(o, argv, i);
    if m.used == 2 {
      assert argv[i..i + 2] == [argv[i], argv[i + 1]];
    } else {
      assert argv[i..i + 1] == [argv[i]];
      if StartsWith(argv[i], "--" + o.long + "=") {
        EqualSignCut(argv[i], "--" + o.long + "=");
      }
    }
  }

  /** The first use of a scan. */
  lemma ScanFirst(options: seq<CmdlineOption>, argv: seq<string>, i: nat) returns (u: Use, n: nat)
    requires i < |argv| && Scan(options, argv, i).Ok?
    ensures i < n <= |argv| && u.text == argv[i..n] && Scan(options, argv, n).Ok?
    ensures Scan(options, argv, i).value == [u] + Scan(options, argv, n).value
    ensures Proper(options, u, argv[n..])
  {
    if IsPlain(argv[i]) {
      u, n := Remains([argv[i]]), i + 1;
      assert argv[i..i + 1] == [argv[i]];
    } else {
      var f := FirstMatch(options, argv, i);
      n := i + f.outcome.used;
      u := Given(f.option, f.outcome.value, argv[i..n]);
      ScanTaken(options, argv, i);
      TakenIsProper(options, f.option, argv, i);
    }
  }

  lemma ScanTaken(options: seq<CmdlineOption>, argv: seq<string>, i: nat)
    requires i < |argv| && !IsPlain(argv[i])
    requires FirstMatch(options, argv, i).Found? && FirstMatch(options, argv, i).outcome.Matched?
    ensures var f := FirstMatch(options, argv, i);
            Scan(options, argv, i) == Before(Given(f.option, f.outcome.value, argv[i..i + f.outcome.used]),
                                             Scan(options, argv, i + f.outcome.used))
  {
  }

  lemma TakenIsProper(options: seq<CmdlineOption>, o: CmdlineOption, argv: seq<string>, i: nat)
    requires i < |argv| && o in options && MatchOption(o, argv, i).Matched?
    ensures var m := MatchOption(o, argv, i);
            Proper(options, Given(o, m.value, argv[i..i + m.used]), argv[i + m.used..])
  {
    var next := i + MatchOption(o, argv, i).used;
    MatchSpells(o, argv, i);
    assert next < |argv| ==> argv[next..][0] == argv[next];
    assert next == i + 1 ==> argv[i..next] == [argv[i]];
  }

  /** Every element is used exactly once and in order, and every use is proper. */
  lemma {:induction false} ScanUsesAll(options: seq<CmdlineOption>, argv: seq<string>, i: nat)
    requires i <= |argv| && Scan(options, argv, i).Ok?
    ensures Texts(Scan(options, argv, i).value) == argv[i..]
    ensures AllProper(options, Scan(options, argv, i).value)
    decreases |argv| - i
  {
    if i < |argv| {
      var u, n := ScanFirst(options, argv, i);
      ScanUsesAll(options, argv, n);
      UsesCons(options, u, Scan(options, argv, n).value);
      SliceJoin(argv, i, n);
    }
  }

  // ----- options with distinct names -----

  /** Two options that differ in their long and in their short names. */
  predicate Apart(a: CmdlineOption, b: CmdlineOption) {
    a.long != b.long && (a.short != "" ==> a.short != b.short)
  }

  ghost predicate Distinct(options: seq<CmdlineOption>) {
    && (forall o :: o in options ==> Expressible(o))
    && (forall i, j :: 0 <= i < j < |options| ==> Apart(options[i], options[j]))
  }

  predicate TakesLong(o: CmdlineOption, arg: string) {
    arg == "--" + o.long || StartsWith(arg, "--" + o.long + "=")
  }

  /** How an option takes an element, if it does. */
  predicate Takes(o: CmdlineOption, arg: string) {
    arg == "-" + o.short || TakesLong(o, arg)
  }

  lemma BehindDashes(arg: string, name: string, rest: string)
    requires arg == "--" + name + rest
    ensures |arg| == 2 + |name| + |rest| && arg[2..] == name + rest
  {
  }

  lemma NameBeforeEqualSign(name: string, rest: string)
    requires IsName(name) && (rest != "" ==> rest[0] == '=')
    ensures Advance(name + rest, "=").0 == name
  {
    AdvancePast(name, rest, "=");
    assert name + "" == name;
  }

  /** The long name in an element is what stands between the dashes and an equal sign. */
  lemma LongTaken(o: CmdlineOption, arg: string)
    requires Expressible(o)
    ensures TakesLong(o, arg) ==> |arg| > 2 && Advance(arg[2..], "=").0 == o.long
  {
    if TakesLong(o, arg) {
      var rest := LongSpelled(o, arg);
      BehindDashes(arg, o.long, rest);
      NameBeforeEqualSign(o.long, rest);
    }
  }

  lemma LongSpelled(o: CmdlineOption, arg: string) returns (rest: string)
    requires TakesLong(o, arg)
    ensures arg == "--" + o.long + rest && (rest != "" ==> rest[0] == '=')
  {
    if arg == "--" + o.long {
      rest := "";
    } else {
      rest := "=" + arg[|o.long| + 3..];
      EqualSignCut(arg, "--" + o.long + "=");
    }
  }

  /** At most one option lacks a short name. */
  ghost predicate AtMostOneShortless(options: seq<CmdlineOption>) {
    forall o, p :: o in options && p in options && o.short == "" && p.short == "" ==> o == p
  }

  /** Of two options with distinct names, at most one takes an element, unless this is a bare `-` and
      both lack a short name. */
  lemma OneTakes(a: CmdlineOption, b: CmdlineOption, arg: string)
    requires Expressible(a) && Expressible(b) && Apart(a, b) && Takes(a, arg)
    requires arg != "-" || a.short != "" || b.short != ""
    ensures !Takes(b, arg)
  {
    LongTaken(a, arg);
    LongTaken(b, arg);
    assert ("-" + a.short)[1..] == a.short && ("-" + b.short)[1..] == b.short;
    assert |"-" + a.short| <= 2 && |"-" + b.short| <= 2;
  }

  lemma TakesIsMatch(o: CmdlineOption, argv: seq<string>, i: nat)
    requires i < |argv|
    ensures Takes(o, argv[i]) <==> MatchOption(o, argv, i) != NoMatch
  {
  }

  /** The option that takes an element is found, wherever it stands. */
  lemma TakerIsFound(options: seq<CmdlineOption>, o: CmdlineOption, argv: seq<string>, i: nat)
    requires Distinct(options) && o in options && i < |argv| && Takes(o, argv[i])
    requires argv[i] != "-" || AtMostOneShortless(options)
    ensures FirstMatch(options, argv, i) == Found(o, MatchOption(o, argv, i))
  {
    TakesIsMatch(o, argv, i);
    var f := FirstMatch(options, argv, i);
    TakesIsMatch(f.option, argv, i);
    if f.option != o {
      var j :| 0 <= j < |options| && options[j] == o;
      var k :| 0 <= k < |options| && options[k] == f.option;
      assert Apart(options[if j < k then j else k], options[if j < k then k else j]);
      OneTakes(options[if j < k then j else k], options[if j < k then k else j], argv[i]);
    }
  }

  lemma SameFound(a: seq<CmdlineOption>, b: seq<CmdlineOption>, argv: seq<string>, i: nat)
    requires Distinct(a) && Distinct(b) && (forall o :: o in a <==> o in b) && i < |argv|
    requires argv[i] != "-" || AtMostOneShortless(a)
    ensures FirstMatch(a, argv, i) == FirstMatch(b, argv, i)
  {
    var f, g := FirstMatch(a, argv, i), FirstMatch(b, argv, i);
    if f.Found? {
      TakesIsMatch(f.option, argv, i);
      TakerIsFound(b, f.option, argv, i);
    }
    assert g.Found? ==> g.option in a;
  }

  /** The scan does not depend on the order of the options, if no element is a bare `-` or at most one
      option lacks a short name. */
  lemma {:induction false} ScanIgnoresOrder(a: seq<CmdlineOption>, b: seq<CmdlineOption>, argv: seq<string>, i: nat)
    requires Distinct(a) && Distinct(b) && (forall o :: o in a <==> o in b) && i <= |argv|
    requires "-" !in argv || AtMostOneShortless(a)
    ensures Scan(a, argv, i) == Scan(b, argv, i)
    decreases |argv| - i
  {
    if i < |argv| {
      if !IsPlain(argv[i]) {
        SameFound(a, b, argv, i);
        var f := FirstMatch(a, argv, i);
        if f.Found? && f.outcome.Matched? {
          ScanIgnoresOrder(a, b, argv, i + f.outcome.used);
        }
      } else {
        ScanIgnoresOrder(a, b, argv, i + 1);
      }
    }
  }

  // ----- when the order of the options matters -----

  ghost predicate ScansAlike(a: seq<CmdlineOption>, b: seq<CmdlineOption>) {
    forall argv: seq<string> :: Scan(a, argv, 0) == Scan(b, argv, 0)
  }

  ghost predicate OrderIsIrrelevant(a: seq<CmdlineOption>) {
    forall b: seq<CmdlineOption> :: multiset(b) == multiset(a) ==> ScansAlike(a, b)
  }

  lemma PermutedDistinct(a: seq<CmdlineOption>, b: seq<CmdlineOption>)
    requires Distinct(a) && multiset(a) == multiset(b)
    ensures Distinct(b) && forall o :: o in a <==> o in b
  {
    forall o ensures o in a <==> o in b {
      assert o in multiset(a) <==> o in multiset(b);
    }
    assert NoDup(a) by {
      assert forall i, j :: 0 <= i < j < |a| ==> Apart(a[i], a[j]);
    }
    MultisetNoDup(a, b);
    forall i, j | 0 <= i < j < |b| ensures Apart(b[i], b[j]) {
      assert b[i] in a && b[j] in a && b[i] != b[j];
      var x :| 0 <= x < |a| && a[x] == b[i];
      var y :| 0 <= y < |a| && a[y] == b[j];
      assert Apart(a[if x < y then x else y], a[if x < y then y else x]);
    }
  }

  lemma HeadIsFound(o: CmdlineOption, rest: seq<CmdlineOption>, argv: seq<string>, i: nat)
    requires i < |argv| && MatchOption(o, argv, i) != NoMatch
    ensures FirstMatch([o] + rest, argv, i) == Found(o, MatchOption(o, argv, i))
  {
    assert ([o] + rest)[0] == o;
  }

  /** Of the options without a short name, a bare `-` is taken by the one that stands first. */
  lemma FirstTakesDash(o: CmdlineOption, rest: seq<CmdlineOption>)
    requires Expressible(o) && o.short == ""
    ensures var r := Scan([o] + rest, ["-", "1"], 0);
            r.Ok? && r.value != [] && r.value[0].Given? && r.value[0].option == o
  {
    var argv, options := ["-", "1"], [o] + rest;
    assert argv[0] == "-" + o.short && argv[1] == "1" && IsPlain(argv[1]);
    assert Check(IntArgument, "1") && Check(BoolArgument, "1");
    var m := MatchOption(o, argv, 0);
    assert m.Matched?;
    HeadIsFound(o, rest, argv, 0);
    assert Scan(options, argv, |argv|) == Ok([]);
    assert Scan(options, argv, 1) == Before(Remains([argv[1]]), Scan(options, argv, |argv|));
  }

  lemma MovedToFront(a: seq<CmdlineOption>, i: nat)
    requires i < |a|
    ensures multiset([a[i]] + (a[..i] + a[i + 1..])) == multiset(a)
  {
    assert a == a[..i] + [a[i]] + a[i + 1..];
  }

  lemma IrrelevantOrderFront(a: seq<CmdlineOption>, o: CmdlineOption)
    requires OrderIsIrrelevant(a) && o in a && Expressible(o) && o.short == ""
    ensures var r := Scan(a, ["-", "1"], 0); r.Ok? && r.value != [] && r.value[0].Given? && r.value[0].option == o
  {
    var i :| 0 <= i < |a| && a[i] == o;
    var rest := a[..i] + a[i + 1..];
    MovedToFront(a, i);
    assert ScansAlike(a, [o] + rest);
    FirstTakesDash(o, rest);
  }

  /** With distinct names, every order of the options gives the same scan of every command line if and
      only if at most one option lacks a short name. */
  lemma OrderMatters(a: seq<CmdlineOption>)
    requires Distinct(a)
    ensures OrderIsIrrelevant(a) <==> AtMostOneShortless(a)
  {
    if AtMostOneShortless(a) {
      forall b: seq<CmdlineOption> | multiset(b) == multiset(a) ensures ScansAlike(a, b) {
        PermutedDistinct(a, b);
        forall argv: seq<string> ensures Scan(a, argv, 0) == Scan(b, argv, 0) {
          ScanIgnoresOrder(a, b, argv, 0);
        }
      }
    }
    if OrderIsIrrelevant(a) {
      forall o, p | o in a && p in a && o.short == "" && p.short == "" ensures o == p {
        IrrelevantOrderFront(a, o);
        IrrelevantOrderFront(a, p);
      }
    }
  }

  // ----- what is written is what is scanned -----

  lemma NamesNotEmpty(o: CmdlineOption)
    requires Expressible(o)
    ensures o.long != "" && |o.short| <= 1
  {
  }

  /** An option written in front of other elements gives its value. */
  lemma SpelledMatches(o: CmdlineOption, value: string, text: seq<string>, argv: seq<string>, i: nat)
    requires Expressible(o) && Spells(o, value, text) && Check(o.argument, value)
    requires i + |text| <= |argv| && argv[i..i + |text|] == text
    requires text == ["-" + o.short] && o.argument != NoArgument ==> !ArgumentFollows(argv, i)
    ensures Takes(o, argv[i]) && MatchOption(o, argv, i) == Matched(value, |text|) && !IsPlain(argv[i])
  {
    assert argv[i] == text[0];
    assert |text| == 2 ==> argv[i + 1] == text[1];
    var front := "--" + o.long + "=";
    assert o.long[0] == ("--" + o.long)[2];
    if text == ["--" + o.long + "=" + value] && o.argument != NoArgument {
      assert argv[i] == front + value;
      assert argv[i][|o.long| + 3..] == value;
      assert |argv[i]| > |"--" + o.long|;
      assert StartsWith(argv[i], front);
      NamesNotEmpty(o);
    } else if text == ["--" + o.long] {
      NamesNotEmpty(o);
    }
  }

  lemma GivenMatches(options: seq<CmdlineOption>, u: Use, argv: seq<string>, i: nat)
    requires Distinct(options) && i + |u.text| <= |argv| && u.Given?
    requires argv[i..i + |u.text|] == u.text && Proper(options, u, argv[i + |u.text|..])
    ensures i < |argv| && argv[i] in argv && !IsPlain(argv[i])
    ensures Takes(u.option, argv[i]) && MatchOption(u.option, argv, i) == Matched(u.value, |u.text|)
  {
    assert argv[i] == argv[i..i + |u.text|][0] && argv[i] in argv;
    SpelledMatches(u.option, u.value, u.text, argv, i);
  }

  lemma GivenIsScanned(options: seq<CmdlineOption>, u: Use, argv: seq<string>, i: nat)
    requires Distinct(options) && i + |u.text| <= |argv| && u.Given?
    requires "-" !in argv || AtMostOneShortless(options)
    requires argv[i..i + |u.text|] == u.text && Proper(options, u, argv[i + |u.text|..])
    ensures i < |argv| && Scan(options, argv, i) == Before(u, Scan(options, argv, i + |u.text|))
  {
    GivenMatches(options, u, argv, i);
    TakerIsFound(options, u.option, argv, i);
    TakenIsScanned(options, u, argv, i);
  }

  lemma TakenIsScanned(options: seq<CmdlineOption>, u: Use, argv: seq<string>, i: nat)
    requires i + |u.text| <= |argv| && i < |argv| && u.Given? && argv[i..i + |u.text|] == u.text && !IsPlain(argv[i])
    requires FirstMatch(options, argv, i) == Found(u.option, Matched(u.value, |u.text|))
    ensures Scan(options, argv, i) == Before(u, Scan(options, argv, i + |u.text|))
  {
    ScanTaken(options, argv, i);
  }

  lemma RemainsIsScanned(options: seq<CmdlineOption>, u: Use, argv: seq<string>, i: nat)
    requires i + |u.text| <= |argv| && u.Remains? && |u.text| == 1 && IsPlain(u.text[0])
    requires argv[i..i + |u.text|] == u.text
    ensures Scan(options, argv, i) == Before(u, Scan(options, argv, i + 1))
  {
    assert u.text == [argv[i]];
  }

  lemma HeadIsScanned(options: seq<CmdlineOption>, u: Use, argv: seq<string>, i: nat, n: nat)
    requires Distinct(options) && n == i + |u.text| <= |argv| && ("-" !in argv || AtMostOneShortless(options))
    requires argv[i..n] == u.text && Proper(options, u, argv[n..])
    ensures i < n && Scan(options, argv, i) == Before(u, Scan(options, argv, n))
  {
    if u.Given? {
      GivenIsScanned(options, u, argv, i);
    } else {
      RemainsIsScanned(options, u, argv, i);
    }
  }

  lemma SliceHead(argv: seq<string>, i: nat, text: seq<string>, rest: seq<string>)
    requires i <= |argv| && text + rest == argv[i..]
    ensures i + |text| <= |argv| && argv[i..i + |text|] == text && argv[i + |text|..] == rest
  {
    assert |argv[i..]| == |text| + |rest|;
    assert argv[i..][..|text|] == text && argv[i..][|text|..] == rest;
  }

  lemma WrittenStep(options: seq<CmdlineOption>, uses: seq<Use>, argv: seq<string>, i: nat) returns (n: nat)
    requires Distinct(options) && i <= |argv| && ("-" !in argv || AtMostOneShortless(options))
    requires uses != [] && AllProper(options, uses) && Texts(uses) == argv[i..]
    ensures i < n <= |argv| && AllProper(options, uses[1..]) && Texts(uses[1..]) == argv[n..]
    ensures Scan(options, argv, i) == Before(uses[0], Scan(options, argv, n))
  {
    var u, rest := uses[0], Texts(uses[1..]);
    FirstUse(options, uses);
    SliceHead(argv, i, u.text, rest);
    n := i + |u.text|;
    HeadIsScanned(options, u, argv, i, n);
  }

  lemma FirstUse(options: seq<CmdlineOption>, uses: seq<Use>)
    requires uses != [] && AllProper(options, uses)
    ensures Texts(uses) == uses[0].text + Texts(uses[1..])
    ensures Proper(options, uses[0], Texts(uses[1..])) && AllProper(options, uses[1..])
  {
  }

  /** With distinct names, what the scan finds is exactly what was written. */
  lemma {:induction false} WrittenIsScanned(options: seq<CmdlineOption>, uses: seq<Use>, argv: seq<string>, i: nat)
    requires Distinct(options) && i <= |argv| && ("-" !in argv || AtMostOneShortless(options))
    requires AllProper(options, uses) && Texts(uses) == argv[i..]
    ensures Scan(options, argv, i) == Ok(uses)
    decreases |uses|
  {
    if uses == [] {
      assert |argv[i..]| == 0;
    } else {
      var n := WrittenStep(options, uses, argv, i);
      WrittenIsScanned(options, uses[1..], argv, n);
      assert uses == [uses[0]] + uses[1..];
    }
  }

  /** Elements are scanned as some uses if and only if they are the texts of those uses and the uses are
      proper. */
  lemma ScanIsExact(options: seq<CmdlineOption>, uses: seq<Use>, argv: seq<string>)
    requires Distinct(options) && ("-" !in argv || AtMostOneShortless(options))
    ensures Scan(options, argv, 0) == Ok(uses) <==> Texts(uses) == argv && AllProper(options, uses)
  {
    assert argv[0..] == argv;
    if Scan(options, argv, 0) == Ok(uses) {
      ScanUsesAll(options, argv, 0);
    }
    if Texts(uses) == argv && AllProper(options, uses) {
      WrittenIsScanned(options, uses, argv, 0);
    }
  }
}
