/** The option descriptions of src/configfile/commandline.cc: the constructor of `cmdline_option`, and
    a printer that it undoes. */
module OptionSyntax {
  import opened Wrappers
  import opened ConfigLines

  datatype ArgumentType = NoArgument | IntArgument | BoolArgument | StringArgument

  /** `default` is empty without `hasDefault`, `short` is empty without a short name. */
  datatype CmdlineOption = CmdlineOption(
    required: bool, multiple: bool, config: string, long: string, short: string,
    argument: ArgumentType, optional: bool, hasDefault: bool, default: string, help: string)
  {
    /** `getConfigKey`. */
    function Key(): string {
      if config != "" then config else long
    }

    /** `getDefaultValue`. */
    function DefaultValue(): string {
      if hasDefault then default else "true"
    }
  }

  datatype SyntaxError =
    ExpectedColon | InvalidIdentifier | ShortTooLong | InvalidShort | InvalidType | UselessDefault |
    InvalidDefault | DefaultMissing

  predicate IsDigits(s: string) {
    s != "" && forall i :: 0 <= i < |s| ==> '0' <= s[i] <= '9'
  }

  /** `checkArgument`. */
  predicate Check(argument: ArgumentType, value: string) {
    match argument
    case IntArgument => IsDigits(value)
    case BoolArgument => value == "1" || value == "0" || value == "false" || value == "true"
    case _ => true
  }

  /** `advance`: the text up to the first of some delimiters, or to the end. */
  function Advance(s: string, delims: string): (r: (string, string))
    ensures r.0 + r.1 == s && (r.1 != "" ==> r.1[0] in delims)
    ensures forall c :: c in r.0 ==> c !in delims
  {
    if s == "" || s[0] in delims then ("", s)
    else
      var r := Advance(s[1..], delims);
      ([s[0]] + r.0, r.1)
  }

  function TypeNamed(text: string): Option<ArgumentType> {
    if text == "int" then Some(IntArgument)
    else if text == "string" then Some(StringArgument)
    else if text == "bool" then Some(BoolArgument)
    else None
  }

  function TypeName(t: ArgumentType): string
    requires t != NoArgument
  {
    match t
    case IntArgument => "int"
    case StringArgument => "string"
    case BoolArgument => "bool"
  }

  // ----- the constructor -----

  /** The help text, behind a colon. */
  function ParseHelp(o: CmdlineOption, s: string): CmdlineOption {
    if s == "" then o else o.(help := s[1..])
  }

  /** The default value, behind a comma. */
  function ParseDefault(o: CmdlineOption, s: string): Result<CmdlineOption, SyntaxError> {
    if s != "" && s[0] == ',' then
      var (text, rest) := Advance(s[1..], ":");
      if o.required && !o.optional then Err(UselessDefault)
      else if !Check(o.argument, text) then Err(InvalidDefault)
      else Ok(ParseHelp(o.(hasDefault := true, default := text), rest))
    else if o.optional then Err(DefaultMissing)
    else Ok(ParseHelp(o, s))
  }

  /** The argument, behind `=` or `?`. */
  function ParseArgument(o: CmdlineOption, s: string): Result<CmdlineOption, SyntaxError> {
    if s != "" && (s[0] == '=' || s[0] == '?') then
      var (text, rest) := Advance(s[1..], ",:");
      if TypeNamed(text).None? then Err(InvalidType)
      else ParseDefault(o.(optional := s[0] == '?', argument := TypeNamed(text).value), rest)
    else Ok(ParseHelp(o, s))
  }

  /** The short name, behind a comma. */
  function ParseShort(o: CmdlineOption, s: string): Result<CmdlineOption, SyntaxError> {
    if s != "" && s[0] == ',' then
      var (text, rest) := Advance(s[1..], "=?:");
      if |text| != 1 then Err(ShortTooLong)
      else if !IsName(text) then Err(InvalidShort)
      else ParseArgument(o.(short := text), rest)
    else ParseArgument(o, s)
  }

  function ParseNames(required: bool, multiple: bool, s: string): Result<CmdlineOption, SyntaxError> {
    var (config, rest) := Advance(s, ":");
    if rest == "" then Err(ExpectedColon)
    else
      var (long, more) := Advance(rest[1..], ",=?:");
      if !IsName(long) then Err(InvalidIdentifier)
      else ParseShort(CmdlineOption(required, multiple, config, long, "", NoArgument, false, false, "", ""), more)
  }

  function ParseDescription(d: string): Result<CmdlineOption, SyntaxError> {
    var required := d != "" && d[0] == '!';
    var s := if required then d[1..] else d;
    var multiple := s != "" && s[0] == '*';
    ParseNames(required, multiple, if multiple then s[1..] else s)
  }

  // ----- the printer -----

  function PrintHelp(o: CmdlineOption): string {
    if o.help == "" then "" else ":" + o.help
  }

  function PrintDefault(o: CmdlineOption): string {
    (if o.hasDefault then "," + o.default else "") + PrintHelp(o)
  }

  function PrintArgument(o: CmdlineOption): string {
    if o.argument == NoArgument then PrintHelp(o)
    else (if o.optional then "?" else "=") + (TypeName(o.argument) + PrintDefault(o))
  }

  function PrintShort(o: CmdlineOption): string {
    (if o.short == "" then "" else "," + o.short) + PrintArgument(o)
  }

  function PrintNames(o: CmdlineOption): string {
    o.config + (":" + (o.long + PrintShort(o)))
  }

  function PrintDescription(o: CmdlineOption): string {
    (if o.required then "!" else "") + ((if o.multiple then "*" else "") + PrintNames(o))
  }

  /** The shape that the syntax can express. */
  predicate Expressible(o: CmdlineOption) {
    && ':' !in o.config && (!o.multiple && o.config != "" ==> o.config[0] != '*')
    && (!o.required && !o.multiple && o.config != "" ==> o.config[0] != '!')
    && IsName(o.long) && (o.short != "" ==> |o.short| == 1 && IsName(o.short))
    && (o.argument == NoArgument ==> !o.optional && !o.hasDefault)
    && (if o.hasDefault then ':' !in o.default else o.default == "")
  }

  /** The rules about default values: an optional argument has one, and it is an argument; a mandatory
      argument of a required option has none. */
  predicate Meaningful(o: CmdlineOption) {
    && (o.optional ==> o.hasDefault)
    && (o.hasDefault ==> Check(o.argument, o.default) && !(o.required && !o.optional))
  }

  // ----- one name, type or default value, with whatever stands behind it -----

  lemma {:induction false} AdvancePast(text: string, rest: string, delims: string)
    requires forall c :: c in text ==> c !in delims
    ensures Advance(text + rest, delims) == (text + Advance(rest, delims).0, Advance(rest, delims).1)
  {
    if text == "" {
      assert text + rest == rest && "" + Advance(rest, delims).0 == Advance(rest, delims).0;
    } else {
      assert (text + rest)[1..] == text[1..] + rest;
      AdvancePast(text[1..], rest, delims);
      assert [text[0]] + (text[1..] + Advance(rest, delims).0) == text + Advance(rest, delims).0;
    }
  }

  lemma NameHasNoDelimiter(s: string)
    requires IsName(s)
    ensures forall c :: c in s ==> c !in ",=?:"
  {
  }

  /** What the constructor has read when it comes to the short name. */
  function Named(o: CmdlineOption): CmdlineOption {
    CmdlineOption(o.required, o.multiple, o.config, o.long, "", NoArgument, false, false, "", "")
  }

  lemma DescriptionThen(o: CmdlineOption, rest: string)
    requires Expressible(o)
    ensures ParseDescription(PrintDescription(o) + rest) == ParseNames(o.required, o.multiple, PrintNames(o) + rest)
  {
    FlagsJoin(if o.required then "!" else "", if o.multiple then "*" else "", PrintNames(o), rest);
    NamesBegin(o, rest);
    FlagsRead(o.required, o.multiple, PrintNames(o) + rest);
  }

  lemma FlagsJoin(required: string, multiple: string, names: string, rest: string)
    ensures required + (multiple + names) + rest == required + (multiple + (names + rest))
  {
  }

  lemma NamesBegin(o: CmdlineOption, rest: string)
    ensures PrintNames(o) + rest != ""
    ensures (PrintNames(o) + rest)[0] == if o.config == "" then ':' else o.config[0]
  {
  }

  lemma FlagsRead(required: bool, multiple: bool, names: string)
    requires names != "" && (!multiple ==> names[0] != '*') && (!required && !multiple ==> names[0] != '!')
    ensures ParseDescription((if required then "!" else "") + ((if multiple then "*" else "") + names))
         == ParseNames(required, multiple, names)
  {
    var s := (if multiple then "*" else "") + names;
    var d := (if required then "!" else "") + s;
    assert if required then d[1..] == s else d == s;
    assert if multiple then s[1..] == names else s == names;
  }

  lemma LongThen(o: CmdlineOption, rest: string)
    requires Expressible(o)
    ensures var (tail, more) := Advance(rest, ",=?:");
            ParseNames(o.required, o.multiple, o.config + (":" + (o.long + rest))) ==
              if IsName(o.long + tail) then ParseShort(Named(o).(long := o.long + tail), more)
              else Err(InvalidIdentifier)
  {
    var colon := ":" + (o.long + rest);
    assert colon[1..] == o.long + rest;
    AdvancePast(o.config, colon, ":");
    assert o.config + "" == o.config;
    NameHasNoDelimiter(o.long);
    AdvancePast(o.long, rest, ",=?:");
  }

  lemma ShortThen(p: CmdlineOption, short: string, rest: string)
    requires |short| == 1 && IsName(short)
    ensures var (tail, more) := Advance(rest, "=?:");
            ParseShort(p, "," + (short + rest)) ==
              if tail == "" then ParseArgument(p.(short := short), more) else Err(ShortTooLong)
  {
    assert ("," + (short + rest))[1..] == short + rest;
    NameHasNoDelimiter(short);
    AdvancePast(short, rest, "=?:");
    assert short + "" == short;
  }

  lemma TypeThen(o: CmdlineOption, p: CmdlineOption, rest: string)
    requires o.argument != NoArgument
    ensures var (tail, more) := Advance(rest, ",:");
            var t := TypeNamed(TypeName(o.argument) + tail);
            ParseArgument(p, (if o.optional then "?" else "=") + (TypeName(o.argument) + rest)) ==
              if t.Some? then ParseDefault(p.(optional := o.optional, argument := t.value), more)
              else Err(InvalidType)
  {
    var s := (if o.optional then "?" else "=") + (TypeName(o.argument) + rest);
    assert s[1..] == TypeName(o.argument) + rest;
    AdvancePast(TypeName(o.argument), rest, ",:");
  }

  lemma DefaultThen(p: CmdlineOption, default: string, rest: string)
    requires ':' !in default
    ensures var (tail, more) := Advance(rest, ":");
            ParseDefault(p, "," + (default + rest)) ==
              if p.required && !p.optional then Err(UselessDefault)
              else if !Check(p.argument, default + tail) then Err(InvalidDefault)
              else Ok(ParseHelp(p.(hasDefault := true, default := default + tail), more))
  {
    assert ("," + (default + rest))[1..] == default + rest;
    AdvancePast(default, rest, ":");
  }

  // ----- parsing undoes printing -----

  lemma DefaultBack(o: CmdlineOption)
    requires Expressible(o)
    ensures var r := ParseDefault(o.(hasDefault := false, default := "", help := ""), PrintDefault(o));
            if Meaningful(o) then r == Ok(o) else r.Err?
  {
    if o.hasDefault {
      assert PrintDefault(o) == "," + (o.default + PrintHelp(o)) && o.default + "" == o.default;
      DefaultThen(o.(hasDefault := false, default := "", help := ""), o.default, PrintHelp(o));
    } else {
      assert PrintDefault(o) == PrintHelp(o);
    }
  }

  lemma ArgumentBack(o: CmdlineOption)
    requires Expressible(o)
    ensures var p := o.(argument := NoArgument, optional := false, hasDefault := false, default := "", help := "");
            var r := ParseArgument(p, PrintArgument(o));
            if Meaningful(o) then r == Ok(o) else r.Err?
  {
    if o.argument != NoArgument {
      var p := o.(argument := NoArgument, optional := false, hasDefault := false, default := "", help := "");
      TypeThen(o, p, PrintDefault(o));
      assert TypeName(o.argument) + "" == TypeName(o.argument);
      DefaultBack(o);
    }
  }

  lemma ShortBack(o: CmdlineOption)
    requires Expressible(o)
    ensures var r := ParseShort(Named(o), PrintShort(o)); if Meaningful(o) then r == Ok(o) else r.Err?
  {
    ArgumentBack(o);
    if o.short != "" {
      assert PrintShort(o) == "," + (o.short + PrintArgument(o));
      ShortThen(Named(o), o.short, PrintArgument(o));
    } else {
      assert PrintShort(o) == PrintArgument(o);
    }
  }

  /** Parsing the printed description of any option that can be expressed gives the option back, if and
      only if its default value is one that makes sense; otherwise the description is rejected. */
  lemma ParseUndoesPrint(o: CmdlineOption)
    requires Expressible(o)
    ensures var r := ParseDescription(PrintDescription(o)); if Meaningful(o) then r == Ok(o) else r.Err?
  {
    assert PrintDescription(o) + "" == PrintDescription(o) && PrintNames(o) + "" == PrintNames(o);
    DescriptionThen(o, "");
    LongThen(o, PrintShort(o));
    assert o.long + "" == o.long;
    ShortBack(o);
  }

  // ----- the words of the syntax -----

  lemma DigitsJoin(a: string, b: string)
    requires a != "" && b != ""
    ensures Check(IntArgument, a + b) <==> Check(IntArgument, a) && Check(IntArgument, b)
  {
    if Check(IntArgument, a + b) {
      forall i | 0 <= i < |a| ensures '0' <= a[i] <= '9' {
        assert (a + b)[i] == a[i];
      }
      forall i | 0 <= i < |b| ensures '0' <= b[i] <= '9' {
        assert (a + b)[|a| + i] == b[i];
      }
    }
  }

  lemma OneDigit(c: char)
    ensures !Check(IntArgument, "") && (Check(IntArgument, [c]) <==> '0' <= c <= '9')
  {
    assert [c][0] == c;
  }

  /** The values that are accepted: digits, one by one, one of four words, or any text. */
  lemma ValuesByCharacter(c: char, a: string, b: string)
    ensures !Check(IntArgument, "") && (Check(IntArgument, [c]) <==> '0' <= c <= '9')
    ensures a != "" && b != "" ==> (Check(IntArgument, a + b) <==> Check(IntArgument, a) && Check(IntArgument, b))
    ensures Check(BoolArgument, a) <==> a in ["0", "1", "false", "true"]
    ensures Check(StringArgument, a)
  {
    OneDigit(c);
    if a != "" && b != "" {
      DigitsJoin(a, b);
    }
  }

  lemma NothingAround(s: string)
    ensures "" + s == s && s + "" == s
  {
  }

  lemma PrintedArgument(o: CmdlineOption)
    requires o.config == "" && !o.required && !o.multiple && o.short == "" && !o.hasDefault && o.help == ""
    requires o.argument != NoArgument && !o.optional
    ensures PrintDescription(o) == ":" + (o.long + ("=" + TypeName(o.argument)))
  {
    NothingAround(TypeName(o.argument));
    NothingAround(PrintArgument(o));
    NothingAround(PrintNames(o));
    NothingAround(":" + (o.long + PrintShort(o)));
  }

  lemma TypeRead(name: string, t: ArgumentType)
    requires IsName(name) && t != NoArgument
    ensures ParseDescription(":" + (name + ("=" + TypeName(t)))) ==
      Ok(CmdlineOption(false, false, "", name, "", t, false, false, "", ""))
  {
    var o := CmdlineOption(false, false, "", name, "", t, false, false, "", "");
    PrintedArgument(o);
    ParseUndoesPrint(o);
  }

  lemma TypeWords()
    ensures TypeName(IntArgument) == "int" && TypeName(BoolArgument) == "bool" && TypeName(StringArgument) == "string"
  {
  }

  /** A name, an equal sign and one of three words declare an option with an argument of that type. */
  lemma TypesByName(name: string)
    requires IsName(name)
    ensures ParseDescription(":" + (name + ("=" + "int"))) ==
      Ok(CmdlineOption(false, false, "", name, "", IntArgument, false, false, "", ""))
    ensures ParseDescription(":" + (name + ("=" + "bool"))) ==
      Ok(CmdlineOption(false, false, "", name, "", BoolArgument, false, false, "", ""))
    ensures ParseDescription(":" + (name + ("=" + "string"))) ==
      Ok(CmdlineOption(false, false, "", name, "", StringArgument, false, false, "", ""))
  {
    TypeRead(name, IntArgument);
    TypeRead(name, BoolArgument);
    TypeRead(name, StringArgument);
    TypeWords();
  }

  lemma WordIsType(p: CmdlineOption, word: string)
    requires forall c :: c in word ==> c !in ",:"
    ensures ParseShort(p, "=" + word).Ok? <==> TypeNamed(word).Some?
  {
    var sign := "=" + word;
    NothingAround(word);
    assert sign[0] == '=' && sign[1..] == word;
    AdvancePast(word, "", ",:");
  }

  /** No other word does. */
  lemma OnlyThreeTypes(name: string, word: string)
    requires IsName(name) && forall c :: c in word ==> c !in ",:"
    ensures ParseDescription(":" + (name + ("=" + word))).Ok? <==> word == "int" || word == "bool" || word == "string"
  {
    var o := CmdlineOption(false, false, "", name, "", NoArgument, false, false, "", "");
    var sign := "=" + word;
    NothingAround(":" + (name + sign));
    NothingAround(name);
    FlagsRead(false, false, ":" + (name + sign));
    LongThen(o, sign);
    WordIsType(Named(o), word);
  }

  lemma PrintedDefault(o: CmdlineOption)
    requires o.hasDefault && o.help != "" && o.optional && o.argument == IntArgument
    ensures PrintArgument(o) == "?" + ("int" + ("," + o.default + (":" + o.help)))
  {
  }

  lemma PrintedFlags(o: CmdlineOption)
    requires o.required && o.multiple && o.short != ""
    ensures PrintDescription(o) ==
      "!" + ("*" + (o.config + (":" + (o.long + ("," + o.short + PrintArgument(o))))))
  {
  }

  /** A description with all its parts. */
  lemma AllParts(config: string, long: string, short: string, default: string, help: string)
    requires ':' !in config && IsName(long) && |short| == 1 && IsName(short)
    requires ':' !in default && IsDigits(default) && help != ""
    ensures var argument := "?" + ("int" + ("," + default + (":" + help)));
            ParseDescription("!" + ("*" + (config + (":" + (long + ("," + short + argument)))))) ==
              Ok(CmdlineOption(true, true, config, long, short, IntArgument, true, true, default, help))
  {
    var o := CmdlineOption(true, true, config, long, short, IntArgument, true, true, default, help);
    PrintedDefault(o);
    PrintedFlags(o);
    ParseUndoesPrint(o);
  }

  /** A default value for the mandatory argument of a required option is always rejected. */
  lemma UselessDefaultRejected(o: CmdlineOption)
    requires Expressible(o) && o.required && o.hasDefault && !o.optional
    ensures ParseDescription(PrintDescription(o)).Err?
  {
    ParseUndoesPrint(o);
  }

  // ----- what can be parsed -----

  /** What the constructor has accepted so far, behind the names. */
  predicate NamesFine(o: CmdlineOption) {
    && ':' !in o.config && (!o.multiple && o.config != "" ==> o.config[0] != '*')
    && (!o.required && !o.multiple && o.config != "" ==> o.config[0] != '!')
    && IsName(o.long)
  }

  lemma DefaultFine(o: CmdlineOption, s: string)
    requires NamesFine(o) && (o.short != "" ==> |o.short| == 1 && IsName(o.short))
    requires o.argument != NoArgument && !o.hasDefault && o.default == ""
    ensures var r := ParseDefault(o, s); r.Ok? ==> Expressible(r.value) && Meaningful(r.value)
  {
  }

  lemma ArgumentFine(o: CmdlineOption, s: string)
    requires NamesFine(o) && (o.short != "" ==> |o.short| == 1 && IsName(o.short))
    requires o.argument == NoArgument && !o.optional && !o.hasDefault && o.default == ""
    ensures var r := ParseArgument(o, s); r.Ok? ==> Expressible(r.value) && Meaningful(r.value)
  {
    if s != "" && (s[0] == '=' || s[0] == '?') {
      var (text, rest) := Advance(s[1..], ",:");
      if TypeNamed(text).Some? {
        DefaultFine(o.(optional := s[0] == '?', argument := TypeNamed(text).value), rest);
      }
    }
  }

  /** Exactly the options that can be expressed and make sense are results of the constructor. */
  lemma ParsedIsFine(d: string)
    ensures ParseDescription(d).Ok? ==> Expressible(ParseDescription(d).value) && Meaningful(ParseDescription(d).value)
  {
    var required := d != "" && d[0] == '!';
    var s := if required then d[1..] else d;
    var multiple := s != "" && s[0] == '*';
    var t := if multiple then s[1..] else s;
    var (config, rest) := Advance(t, ":");
    assert config != "" ==> config[0] == t[0];
    if rest != "" {
      var (long, more) := Advance(rest[1..], ",=?:");
      var o := CmdlineOption(required, multiple, config, long, "", NoArgument, false, false, "", "");
      if IsName(long) {
        ArgumentFine(o, more);
        if more != "" && more[0] == ',' {
          var (text, last) := Advance(more[1..], "=?:");
          if |text| == 1 && IsName(text) {
            ArgumentFine(o.(short := text), last);
          }
        }
      }
    }
  }

  /** Printing what was parsed and parsing it again gives the same option. */
  lemma CanonicalDescription(d: string)
    requires ParseDescription(d).Ok?
    ensures ParseDescription(PrintDescription(ParseDescription(d).value)) == ParseDescription(d)
  {
    ParsedIsFine(d);
    ParseUndoesPrint(ParseDescription(d).value);
  }

  // ----- a help text behind a bar -----

  /** What is read of a description that ends in a default value, with a bar and some text behind it:
      up to a colon they belong to the default value. */
  function Swallowed(o: CmdlineOption, text: string): CmdlineOption {
    var (tail, more) := Advance(text, ":");
    ParseHelp(o.(default := o.default + ("|" + tail)), more)
  }

  lemma BarPasses(text: string, delims: string)
    requires '|' !in delims
    ensures Advance("|" + text, delims) == ("|" + Advance(text, delims).0, Advance(text, delims).1)
  {
    AdvancePast("|", text, delims);
  }

  lemma BarInName(name: string, text: string)
    ensures !IsName(name + ("|" + text))
  {
    assert (name + ("|" + text))[|name|] == '|';
  }

  lemma BarInType(t: ArgumentType, text: string)
    requires t != NoArgument
    ensures TypeNamed(TypeName(t) + ("|" + text)).None?
  {
    assert (TypeName(t) + ("|" + text))[|TypeName(t)|] == '|';
  }

  lemma BarInValue(t: ArgumentType, value: string, text: string)
    requires t == IntArgument || t == BoolArgument
    ensures !Check(t, value + ("|" + text))
  {
    assert (value + ("|" + text))[|value|] == '|';
  }

  lemma BarBehindDefault(o: CmdlineOption, text: string)
    requires Expressible(o) && Meaningful(o) && o.hasDefault && o.help == ""
    ensures var r := ParseDefault(o.(hasDefault := false, default := ""), PrintDefault(o) + ("|" + text));
            if o.argument == StringArgument then r == Ok(Swallowed(o, text)) else r == Err(InvalidDefault)
  {
    var p := o.(hasDefault := false, default := "");
    var tail := "|" + Advance(text, ":").0;
    assert PrintDefault(o) + ("|" + text) == "," + (o.default + ("|" + text));
    BarPasses(text, ":");
    DefaultThen(p, o.default, "|" + text);
    if o.argument == StringArgument {
      assert p.(hasDefault := true, default := o.default + tail) == o.(default := o.default + tail);
    } else {
      BarInValue(o.argument, o.default, Advance(text, ":").0);
    }
  }

  /** What the constructor has read when it comes to the argument. */
  function Unargued(o: CmdlineOption): CmdlineOption {
    o.(argument := NoArgument, optional := false, hasDefault := false, default := "")
  }

  lemma BarBehindArgument(o: CmdlineOption, text: string)
    requires Expressible(o) && Meaningful(o) && o.argument != NoArgument && o.help == ""
    ensures var r := ParseArgument(Unargued(o), PrintArgument(o) + ("|" + text));
            if o.hasDefault && o.argument == StringArgument then r == Ok(Swallowed(o, text)) else r.Err?
  {
    var rest := PrintDefault(o) + ("|" + text);
    var sign, name := if o.optional then "?" else "=", TypeName(o.argument);
    assert PrintArgument(o) + ("|" + text) == sign + (name + rest);
    TypeThen(o, Unargued(o), rest);
    if o.hasDefault {
      assert Advance(rest, ",:") == ("", rest) && name + "" == name;
      BarBehindDefault(o, text);
    } else {
      assert rest == "|" + text;
      BarPasses(text, ",:");
      BarInType(o.argument, Advance(text, ",:").0);
    }
  }

  lemma SignStops(o: CmdlineOption, bar: string)
    requires o.argument != NoArgument
    ensures Advance(PrintArgument(o) + bar, "=?:") == ("", PrintArgument(o) + bar)
  {
  }

  lemma BarAfterShort(o: CmdlineOption, p: CmdlineOption, text: string)
    requires Expressible(o) && Meaningful(o) && o.short != "" && o.help == "" && p.(short := o.short) == Unargued(o)
    ensures var r := ParseShort(p, "," + (o.short + (PrintArgument(o) + ("|" + text))));
            if o.hasDefault && o.argument == StringArgument then r == Ok(Swallowed(o, text)) else r.Err?
  {
    ShortThen(p, o.short, PrintArgument(o) + ("|" + text));
    if o.argument != NoArgument {
      SignStops(o, "|" + text);
      BarBehindArgument(o, text);
    } else {
      assert PrintArgument(o) + ("|" + text) == "|" + text;
      BarPasses(text, "=?:");
    }
  }

  lemma BarWithoutShort(o: CmdlineOption, text: string)
    requires Expressible(o) && Meaningful(o) && o.short == "" && o.argument != NoArgument && o.help == ""
    ensures var r := ParseShort(Unargued(o), PrintArgument(o) + ("|" + text));
            if o.hasDefault && o.argument == StringArgument then r == Ok(Swallowed(o, text)) else r.Err?
  {
    BarBehindArgument(o, text);
  }

  /** What the constructor makes of all that stands behind the long name. */
  lemma BarBehindLong(o: CmdlineOption, text: string)
    requires Expressible(o) && Meaningful(o) && PrintShort(o) != "" && o.help == ""
    ensures var r := ParseShort(Named(o), PrintShort(o) + ("|" + text));
            if o.hasDefault && o.argument == StringArgument then r == Ok(Swallowed(o, text)) else r.Err?
  {
    if o.short != "" {
      assert PrintShort(o) + ("|" + text) == "," + (o.short + (PrintArgument(o) + ("|" + text)));
      BarAfterShort(o, Named(o), text);
    } else {
      assert PrintShort(o) == PrintArgument(o);
      BarWithoutShort(o, text);
    }
  }

  lemma NamesJoin(config: string, long: string, more: string, rest: string)
    ensures config + (":" + (long + more)) + rest == config + (":" + (long + (more + rest)))
  {
  }

  lemma ShortStops(o: CmdlineOption, rest: string)
    requires PrintShort(o) != ""
    ensures Advance(PrintShort(o) + rest, ",=?:") == ("", PrintShort(o) + rest)
  {
  }

  lemma BarBehindNames(o: CmdlineOption, text: string)
    requires Expressible(o) && o.help == ""
    ensures var r := ParseNames(o.required, o.multiple, o.config + (":" + (o.long + (PrintShort(o) + ("|" + text)))));
            if PrintShort(o) != "" then r == ParseShort(Named(o), PrintShort(o) + ("|" + text))
            else r == Err(InvalidIdentifier)
  {
    var bar := "|" + text;
    LongThen(o, PrintShort(o) + bar);
    if PrintShort(o) != "" {
      ShortStops(o, bar);
      assert o.long + "" == o.long;
    } else {
      assert PrintShort(o) + bar == bar;
      BarPasses(text, ",=?:");
      BarInName(o.long, Advance(text, ",=?:").0);
    }
  }

  /** The documentation separates the help text by `|`, which the constructor does not know. Behind a
      description without help text, a bar makes the description invalid unless a default value that is
      a string stands in front of it: this value swallows the bar and the text up to a colon. */
  lemma BarAccepted(o: CmdlineOption, text: string)
    requires Expressible(o) && Meaningful(o) && o.help == ""
    ensures var r := ParseDescription(PrintDescription(o) + ("|" + text));
            && (r.Ok? <==> o.hasDefault && o.argument == StringArgument)
            && (r.Ok? ==> r.value == Swallowed(o, text))
  {
    DescriptionThen(o, "|" + text);
    NamesJoin(o.config, o.long, PrintShort(o), "|" + text);
    BarBehindNames(o, text);
    if PrintShort(o) != "" {
      BarBehindLong(o, text);
    }
  }

  lemma SwallowedWhole(o: CmdlineOption, text: string)
    requires ':' !in text
    ensures Swallowed(o, text) == o.(default := o.default + ("|" + text))
  {
    AdvancePast(text, "", ":");
    assert text + "" == text;
  }

  /** For instance, `:n=string,d|help` has the default value `d|help` and no help text. */
  lemma BarInDefault()
    ensures ParseDescription(":n=string,d|help") ==
      Ok(CmdlineOption(false, false, "", "n", "", StringArgument, false, true, "d|help", ""))
  {
    var o := CmdlineOption(false, false, "", "n", "", StringArgument, false, true, "d", "");
    PrintedStringOption(o);
    InstanceSpelled();
    BarAccepted(o, "help");
    SwallowedWhole(o, "help");
  }

  lemma PrintedStringOption(o: CmdlineOption)
    requires !o.required && !o.multiple && o.short == "" && o.argument == StringArgument && !o.optional
    requires o.hasDefault && o.help == ""
    ensures PrintDescription(o) == o.config + (":" + (o.long + ("=" + ("string" + ("," + o.default)))))
  {
    NothingAround("," + o.default);
    NothingAround(PrintArgument(o));
    NothingAround(PrintNames(o));
  }

  lemma InstanceSpelled()
    ensures "" + (":" + ("n" + ("=" + ("string" + ("," + "d"))))) + ("|" + "help") == ":n=string,d|help"
    ensures "d" + ("|" + "help") == "d|help"
  {
  }
}
