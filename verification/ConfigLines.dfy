/** The five line patterns of src/configfile/configfile.cc, as recognisers written by hand. */
module ConfigLines {

  predicate IsBlank(c: char) {
    c == ' ' || c == '\t'
  }

  /** `[[:alnum:]_-]`. */
  predicate IsNameChar(c: char) {
    '0' <= c <= '9' || 'a' <= c <= 'z' || 'A' <= c <= 'Z' || c == '_' || c == '-'
  }

  predicate IsName(s: string) {
    s != "" && forall i :: 0 <= i < |s| ==> IsNameChar(s[i])
  }

  /** `[[:blank:]]*`, as much as there is. */
  function SkipBlanks(s: string): (r: string)
    ensures |r| <= |s| && s[|s| - |r|..] == r && (r != "" ==> !IsBlank(r[0]))
    ensures forall i :: 0 <= i < |s| - |r| ==> IsBlank(s[i])
  {
    if s != "" && IsBlank(s[0]) then SkipBlanks(s[1..]) else s
  }

  /** The longest run of name characters in front. */
  function NamePart(s: string): (r: string)
    ensures r <= s && (r != "" ==> IsName(r)) && (|r| < |s| ==> !IsNameChar(s[|r|]))
  {
    if s != "" && IsNameChar(s[0]) then [s[0]] + NamePart(s[1..]) else ""
  }

  /** `[^#]*`: the part before a comment. */
  function BeforeComment(s: string): (r: string)
    ensures r <= s && '#' !in r && (|r| < |s| ==> s[|r|] == '#')
  {
    if s != "" && s[0] != '#' then [s[0]] + BeforeComment(s[1..]) else ""
  }

  /** `[[:blank:]]*(?:#.*)?$`. */
  predicate IsTrail(s: string) {
    SkipBlanks(s) == "" || SkipBlanks(s)[0] == '#'
  }

  /** A single character between blanks and a trail, for the two bracket patterns. */
  predicate IsMark(s: string, mark: char) {
    SkipBlanks(s) != "" && SkipBlanks(s)[0] == mark && IsTrail(SkipBlanks(s)[1..])
  }

  datatype Line =
    | Blank
    | Attribute(key: string, value: string)
    | Header(key: string)        // the bracket is to follow on a line of its own
    | HeaderOpen(key: string)    // with the bracket on the same line
    | Open
    | Close
    | Bad

  /** The value of the attribute pattern in what follows the colon. Leading blanks go; but the value
      takes at least one character, so of nothing but blanks it is the last one. */
  function AttributeValue(s: string): (r: string)
    requires s != ""
    ensures r != ""
  {
    if SkipBlanks(s) != "" then SkipBlanks(s) else [s[|s| - 1]]
  }

  /** What a line is, for what follows the name on it, up to a comment. */
  function ClassifyRest(key: string, value: string): Line {
    if value == "" then Header(key)
    else if IsMark(value, '{') then HeaderOpen(key)
    else
      var t := SkipBlanks(value);
      if t != "" && t[0] == ':' && |t| > 1 then Attribute(key, AttributeValue(t[1..])) else Bad
  }

  function Classify(line: string): Line {
    if IsTrail(line) then Blank
    else
      var t := SkipBlanks(line);
      var key := NamePart(t);
      if key != "" then ClassifyRest(key, BeforeComment(t[|key|..]))
      else if IsMark(line, '}') then Close
      else if IsMark(line, '{') then Open
      else Bad
  }

  // ----- printing -----

  /** The values a line can carry. */
  predicate IsValue(v: string) {
    v != "" && '#' !in v && (!IsBlank(v[0]) || |v| == 1)
  }

  predicate IsIndent(s: string) {
    forall i :: 0 <= i < |s| ==> IsBlank(s[i])
  }

  predicate Printable(l: Line) {
    match l
    case Attribute(k, v) => IsName(k) && IsValue(v)
    case Header(k) => IsName(k)
    case HeaderOpen(k) => IsName(k)
    case Bad => false
    case _ => true
  }

  function PrintLine(l: Line): string
    requires !l.Bad?
  {
    match l
    case Blank => ""
    case Attribute(k, v) => k + ": " + v
    case Header(k) => k
    case HeaderOpen(k) => k + " {"
    case Open => "{"
    case Close => "}"
  }

  lemma SkipKeeps(s: string, c: char)
    requires c in SkipBlanks(s)
    ensures c in s
  {
    var r := SkipBlanks(s);
    var i :| 0 <= i < |r| && r[i] == c;
    assert s[|s| - |r| + i] == s[|s| - |r|..][i];
  }

  lemma ValueIsPrintable(s: string)
    requires s != "" && '#' !in s
    ensures IsValue(AttributeValue(s))
  {
    if '#' in SkipBlanks(s) {
      SkipKeeps(s, '#');
    }
  }

  /** Whatever is read carries a name, and a value that can be printed. */
  lemma ReadIsPrintable(line: string)
    ensures Classify(line).Bad? || Printable(Classify(line))
  {
    var t := SkipBlanks(line);
    var key := NamePart(t);
    if !IsTrail(line) && key != "" {
      RestIsPrintable(key, BeforeComment(t[|key|..]));
    }
  }

  lemma RestIsPrintable(key: string, value: string)
    requires IsName(key) && '#' !in value
    ensures ClassifyRest(key, value).Bad? || Printable(ClassifyRest(key, value))
  {
    if ClassifyRest(key, value).Attribute? {
      var u := SkipBlanks(value);
      if '#' in u {
        SkipKeeps(value, '#');
      }
      ValueIsPrintable(u[1..]);
    }
  }

  lemma {:induction false} SkipIndent(indent: string, s: string)
    requires IsIndent(indent) && (s != "" ==> !IsBlank(s[0]))
    ensures SkipBlanks(indent + s) == s
  {
    if indent == "" {
      assert indent + s == s;
    } else {
      assert (indent + s)[1..] == indent[1..] + s;
      SkipIndent(indent[1..], s);
    }
  }

  lemma {:induction false} NameIsTaken(name: string, s: string)
    requires forall i :: 0 <= i < |name| ==> IsNameChar(name[i])
    requires s != "" ==> !IsNameChar(s[0])
    ensures NamePart(name + s) == name
  {
    if name == "" {
      assert name + s == s;
    } else {
      assert (name + s)[1..] == name[1..] + s;
      NameIsTaken(name[1..], s);
      assert name == [name[0]] + name[1..];
    }
  }

  lemma {:induction false} CommentIsCut(s: string, comment: string)
    requires '#' !in s && (comment != "" ==> comment[0] == '#')
    ensures BeforeComment(s + comment) == s
  {
    if s == "" {
      assert s + comment == comment;
    } else {
      assert (s + comment)[1..] == s[1..] + comment;
      CommentIsCut(s[1..], comment);
      assert s == [s[0]] + s[1..];
    }
  }

  lemma NameThen(key: string, rest: string)
    requires IsName(key) && (rest != "" ==> !IsNameChar(rest[0]))
    ensures !IsTrail(key + rest) && SkipBlanks(key + rest) == key + rest && NamePart(key + rest) == key
  {
    assert IsNameChar(key[0]) && (key + rest)[0] == key[0];
    NameIsTaken(key, rest);
  }

  /** A line with a name is what stands between the name and a comment. */
  lemma NamedLine(indent: string, key: string, rest: string, comment: string)
    requires IsIndent(indent) && IsName(key) && (rest != "" ==> !IsNameChar(rest[0])) && '#' !in rest
    requires comment != "" ==> comment[0] == '#'
    ensures Classify(indent + (key + (rest + comment))) == ClassifyRest(key, rest)
  {
    var more := rest + comment;
    assert more != "" ==> more[0] == if rest == "" then comment[0] else rest[0];
    NameThen(key, more);
    SkipIndent(indent, key + more);
    assert (key + more)[|key|..] == more;
    CommentIsCut(rest, comment);
  }

  /** Behind the name of a section whose bracket is to follow on a line of its own, blanks make the
      line a parse error, with or without a comment; a comment alone does not. */
  lemma BlanksBehindName(indent: string, key: string, blanks: string, comment: string)
    requires IsIndent(indent) && IsName(key) && IsIndent(blanks) && (comment != "" ==> comment[0] == '#')
    ensures Classify(indent + (key + (blanks + comment))) == if blanks == "" then Header(key) else Bad
  {
    assert blanks != "" ==> IsBlank(blanks[0]);
    assert '#' !in blanks;
    NamedLine(indent, key, blanks, comment);
    SkipIndent(blanks, "");
    assert blanks + "" == blanks;
  }

  lemma ValueBehindBlank(v: string)
    requires IsValue(v)
    ensures AttributeValue(" " + v) == v
  {
    if IsBlank(v[0]) {
      SkipIndent(" " + v, "");
      assert " " + v + "" == " " + v;
    } else {
      SkipIndent(" ", v);
    }
  }

  lemma PlainAttribute(key: string, v: string)
    requires IsValue(v)
    ensures ClassifyRest(key, ": " + v) == Attribute(key, v)
  {
    var value := ": " + v;
    assert value[0] == ':' && SkipBlanks(value) == value && !IsMark(value, '{');
    assert value[1..] == " " + v;
    ValueBehindBlank(v);
  }

  lemma MarkLine(indent: string, mark: char)
    requires IsIndent(indent) && (mark == '{' || mark == '}')
    ensures Classify(indent + [mark]) == if mark == '{' then Open else Close
  {
    var line := indent + [mark];
    SkipIndent(indent, [mark]);
    assert SkipBlanks(line) == [mark] && !IsTrail(line);
    MarkAlone(mark);
    assert IsMark(line, mark);
  }

  lemma MarkAlone(mark: char)
    requires mark == '{' || mark == '}'
    ensures NamePart([mark]) == "" && IsTrail([mark][1..])
  {
    assert [mark][1..] == "";
  }

  lemma NamedReadsBack(indent: string, l: Line)
    requires IsIndent(indent) && Printable(l) && (l.Attribute? || l.Header? || l.HeaderOpen?)
    ensures Classify(indent + PrintLine(l)) == l
  {
    match l
    case Attribute(k, v) => AttributeBack(indent, k, v);
    case Header(k) => BlanksBehindName(indent, k, "", "");
      assert k == k + ("" + "");
    case HeaderOpen(k) => HeaderOpenBack(indent, k);
  }

  lemma AttributeBack(indent: string, k: string, v: string)
    requires IsIndent(indent) && IsName(k) && IsValue(v)
    ensures Classify(indent + (k + ": " + v)) == Attribute(k, v)
  {
    assert k + ": " + v == k + (": " + v + "");
    NamedLine(indent, k, ": " + v, "");
    PlainAttribute(k, v);
  }

  lemma HeaderOpenBack(indent: string, k: string)
    requires IsIndent(indent) && IsName(k)
    ensures Classify(indent + (k + " {")) == HeaderOpen(k)
  {
    assert k + " {" == k + (" {" + "");
    NamedLine(indent, k, " {", "");
    BracketBehind(k);
  }

  lemma BracketBehind(k: string)
    ensures ClassifyRest(k, " {") == HeaderOpen(k)
  {
    SkipIndent(" ", "{");
    assert " " + "{" == " {" && "{" == ['{'];
    MarkAlone('{');
  }

  /** A printed line is read back, behind any indentation. */
  lemma ReadUndoesPrint(indent: string, l: Line)
    requires IsIndent(indent) && Printable(l)
    ensures Classify(indent + PrintLine(l)) == l
  {
    match l
    case Blank => SkipIndent(indent, "");
    case Open => MarkLine(indent, '{');
    case Close => MarkLine(indent, '}');
    case _ => NamedReadsBack(indent, l);
  }

  /** An attribute line is read back exactly when its key is a name and its value can be carried. */
  lemma AttributeReadsBack(k: string, v: string)
    ensures Classify(k + ": " + v) == Attribute(k, v) <==> IsName(k) && IsValue(v)
  {
    if IsName(k) && IsValue(v) {
      ReadUndoesPrint("", Attribute(k, v));
      assert "" + (k + ": " + v) == k + ": " + v;
    } else {
      ReadIsPrintable(k + ": " + v);
    }
  }

  // ----- the patterns themselves -----

  predicate IsComment(s: string) {
    s != "" ==> s[0] == '#'
  }

  /** The parts of a line that say nothing: the blanks in front, between and behind, and the comment. */
  datatype Parts = Parts(indent: string, blanks: string, more: string, comment: string)

  predicate Fillers(p: Parts) {
    IsIndent(p.indent) && IsIndent(p.blanks) && IsIndent(p.more) && IsComment(p.comment)
  }

  predicate HasName(l: Line) {
    l.Attribute? || l.Header? || l.HeaderOpen?
  }

  /** What stands between the name and the comment. */
  function BehindName(l: Line, p: Parts): string
    requires HasName(l)
  {
    match l
    case Header(_) => ""
    case HeaderOpen(_) => p.blanks + ("{" + p.more)
    case Attribute(_, v) => p.blanks + (":" + (p.more + v))
  }

  /** The line is written as a pattern says, with some parts. */
  predicate Fits(line: string, l: Line, p: Parts) {
    Fillers(p) &&
    match l
    case Blank => line == p.indent + p.comment
    case Open => line == p.indent + ("{" + (p.more + p.comment))
    case Close => line == p.indent + ("}" + (p.more + p.comment))
    case Bad => false
    case Attribute(k, v) => IsName(k) && IsValue(v) && line == p.indent + (k + (BehindName(l, p) + p.comment))
    case _ => IsName(l.key) && line == p.indent + (l.key + (BehindName(l, p) + p.comment))
  }

  /** Blanks and a comment, or nothing, are a blank line. */
  lemma CommentIsBlank(indent: string, comment: string)
    requires IsIndent(indent) && IsComment(comment)
    ensures Classify(indent + comment) == Blank
  {
    SkipIndent(indent, comment);
  }

  lemma TrailIsOne(blanks: string, comment: string)
    requires IsIndent(blanks) && IsComment(comment)
    ensures IsTrail(blanks + comment)
  {
    SkipIndent(blanks, comment);
  }

  /** A bracket between blanks, with or without a comment. */
  lemma BracketIsRead(indent: string, mark: char, trail: string)
    requires IsIndent(indent) && (mark == '{' || mark == '}') && IsTrail(trail)
    ensures Classify(indent + ([mark] + trail)) == if mark == '{' then Open else Close
  {
    var t := [mark] + trail;
    MarkAndTrail(mark, trail);
    SkipIndent(indent, t);
    NoNameFirst(t);
    MarkDecides(indent + t, mark);
  }

  lemma MarkAndTrail(mark: char, trail: string)
    ensures ([mark] + trail)[0] == mark && ([mark] + trail)[1..] == trail
  {
  }

  lemma MarkDecides(line: string, mark: char)
    requires IsMark(line, mark) && NamePart(SkipBlanks(line)) == "" && (mark == '{' || mark == '}')
    ensures Classify(line) == if mark == '{' then Open else Close
  {
    assert !IsTrail(line);
    assert IsMark(line, '}') <==> mark == '}';
  }

  lemma NoNameFirst(t: string)
    requires t != "" && !IsNameChar(t[0])
    ensures NamePart(t) == ""
  {
  }

  lemma OpenBehindName(k: string, blanks: string, more: string)
    requires IsIndent(blanks) && IsIndent(more)
    ensures ClassifyRest(k, blanks + ("{" + more)) == HeaderOpen(k)
  {
    var t := "{" + more;
    SkipIndent(blanks, t);
    assert t[0] == '{' && t[1..] == more;
    TrailIsOne(more, "");
    assert more + "" == more;
  }

  lemma ValueBehindBlanks(more: string, v: string)
    requires IsIndent(more) && IsValue(v)
    ensures AttributeValue(more + v) == v
  {
    if IsBlank(v[0]) {
      SkipIndent(more + v, "");
      assert more + v + "" == more + v;
      assert (more + v)[|more + v| - 1] == v[0] && v == [v[0]];
    } else {
      SkipIndent(more, v);
    }
  }

  lemma ValueBehindName(k: string, blanks: string, more: string, v: string)
    requires IsIndent(blanks) && IsIndent(more) && IsValue(v)
    ensures ClassifyRest(k, blanks + (":" + (more + v))) == Attribute(k, v)
  {
    var t := ":" + (more + v);
    SkipIndent(blanks, t);
    assert t[0] == ':' && t[1..] == more + v;
    ValueBehindBlanks(more, v);
  }

  lemma BehindNameBegins(l: Line, p: Parts)
    requires HasName(l) && Fillers(p) && (l.Attribute? ==> IsValue(l.value))
    ensures '#' !in BehindName(l, p) && (BehindName(l, p) != "" ==> !IsNameChar(BehindName(l, p)[0]))
  {
  }

  /** A line that is written as a pattern says is read as that pattern, whatever its blanks and comment. */
  lemma FitsIsRead(line: string, l: Line, p: Parts)
    requires Fits(line, l, p)
    ensures Classify(line) == l
  {
    match l
    case Blank => CommentIsBlank(p.indent, p.comment);
    case Open =>
      TrailIsOne(p.more, p.comment);
      BracketIsRead(p.indent, '{', p.more + p.comment);
    case Close =>
      TrailIsOne(p.more, p.comment);
      BracketIsRead(p.indent, '}', p.more + p.comment);
    case _ => NamedFitsIsRead(line, l, p);
  }

  lemma NamedFitsIsRead(line: string, l: Line, p: Parts)
    requires HasName(l) && Fits(line, l, p)
    ensures Classify(line) == l
  {
    BehindNameBegins(l, p);
    NamedLine(p.indent, l.key, BehindName(l, p), p.comment);
    match l
    case Header(_) =>
    case HeaderOpen(k) => OpenBehindName(k, p.blanks, p.more);
    case Attribute(k, v) => ValueBehindName(k, p.blanks, p.more, v);
  }

  /** The blanks that are skipped. */
  function Skipped(s: string): (r: string)
    ensures IsIndent(r) && s == r + SkipBlanks(s)
  {
    s[..|s| - |SkipBlanks(s)|]
  }

  lemma MarkFits(s: string, mark: char)
    requires IsMark(s, mark)
    ensures var more := SkipBlanks(s)[1..];
            s == Skipped(s) + ([mark] + (Skipped(more) + SkipBlanks(more))) && IsComment(SkipBlanks(more))
  {
    FirstCut(SkipBlanks(s));
  }

  lemma FirstCut(t: string)
    requires t != ""
    ensures t == [t[0]] + t[1..]
  {
  }

  lemma AttributeValueCut(s: string) returns (more: string)
    requires s != ""
    ensures IsIndent(more) && s == more + AttributeValue(s)
  {
    if SkipBlanks(s) != "" {
      more := Skipped(s);
    } else {
      more := s[..|s| - 1];
      assert s == Skipped(s) + "";
    }
  }

  lemma RestFits(key: string, value: string) returns (p: Parts)
    requires IsName(key) && '#' !in value && !ClassifyRest(key, value).Bad?
    ensures p.indent == p.comment == "" && Fillers(p)
    ensures HasName(ClassifyRest(key, value)) && ClassifyRest(key, value).key == key
    ensures value == BehindName(ClassifyRest(key, value), p)
  {
    if value == "" {
      p := Parts("", "", "", "");
    } else if IsMark(value, '{') {
      p := Parts("", Skipped(value), SkipBlanks(value)[1..], "");
      NothingBehind(value);
    } else {
      var t := SkipBlanks(value);
      var more := AttributeValueCut(t[1..]);
      p := Parts("", Skipped(value), more, "");
      FirstCut(t);
    }
  }

  lemma NothingBehind(value: string)
    requires IsMark(value, '{') && '#' !in value
    ensures value == Skipped(value) + ("{" + SkipBlanks(value)[1..]) && IsIndent(SkipBlanks(value)[1..])
  {
    var t := SkipBlanks(value);
    FirstCut(t);
    CommentComesFrom(t[1..], value, |value| - |t| + 1);
    if SkipBlanks(t[1..]) == "" {
      assert Skipped(t[1..]) + "" == Skipped(t[1..]);
    }
  }

  lemma CommentComesFrom(rest: string, value: string, i: nat)
    requires i <= |value| && rest == value[i..] && '#' !in value && IsTrail(rest)
    ensures SkipBlanks(rest) == ""
  {
    if SkipBlanks(rest) != "" {
      SkipKeeps(rest, '#');
    }
  }

  lemma NamedCut(t: string, key: string) returns (value: string, comment: string)
    requires key == NamePart(t)
    ensures value == BeforeComment(t[|key|..]) && IsComment(comment) && t == key + (value + comment)
  {
    var after := t[|key|..];
    value := BeforeComment(after);
    comment := after[|value|..];
    PrefixCut(t, key);
    PrefixCut(after, value);
  }

  lemma NamedFits(line: string, indent: string, t: string, key: string) returns (p: Parts)
    requires !IsTrail(line) && t == SkipBlanks(line) && line == indent + t && IsIndent(indent)
    requires key == NamePart(t) && key != "" && !Classify(line).Bad?
    ensures Fits(line, Classify(line), p)
  {
    var value, comment := NamedCut(t, key);
    var l := ClassifyRest(key, value);
    assert Classify(line) == l;
    p := RestFits(key, value);
    p := p.(indent := indent, comment := comment);
    RestIsPrintable(key, value);
    NamedPartsFit(line, indent, key, value, l, p);
  }

  lemma NamedPartsFit(line: string, indent: string, key: string, value: string, l: Line, p: Parts)
    requires HasName(l) && Printable(l) && Fillers(p) && indent == p.indent && key == l.key && value == BehindName(l, p)
    requires line == indent + (key + (value + p.comment))
    ensures Fits(line, l, p)
  {
  }

  lemma PrefixCut(s: string, p: string)
    requires p <= s
    ensures s == p + s[|p|..]
  {
  }

  /** Every line that is not bad is written as its pattern says. */
  lemma ReadFits(line: string) returns (p: Parts)
    requires !Classify(line).Bad?
    ensures Fits(line, Classify(line), p)
  {
    var indent, t := Skipped(line), SkipBlanks(line);
    var key := NamePart(t);
    if IsTrail(line) {
      p := Parts(indent, "", "", t);
    } else if key != "" {
      p := NamedFits(line, indent, t, key);
    } else {
      var mark := if IsMark(line, '}') then '}' else '{';
      MarkFits(line, mark);
      p := Parts(indent, "", Skipped(t[1..]), SkipBlanks(t[1..]));
    }
  }

  /** A line is read as what the patterns say, and as nothing else: it is read as `l` if and only if it
      is blanks and a comment around what `l` is written as; it is bad if and only if it is neither. */
  lemma LineIsItsPattern(line: string, l: Line)
    ensures !l.Bad? ==> (Classify(line) == l <==> exists p :: Fits(line, l, p))
    ensures Classify(line).Bad? <==> forall k, p :: !Fits(line, k, p)
  {
    if !Classify(line).Bad? {
      var p := ReadFits(line);
    }
    forall k, p | Fits(line, k, p) ensures Classify(line) == k {
      FitsIsRead(line, k, p);
    }
  }
}
