/** Configuration lines spelled out character by character: which lines store which parameter,
    which store nothing, and that all others fail. */
module ConfText {
  import opened ConfLines
  import opened ConfParse
  import opened Options

  /** Blanks and tabs, or nothing. */
  ghost predicate Gap(s: string) {
    forall i | 0 <= i < |s| :: s[i] == ' ' || s[i] == '\t'
  }

  /** A name or a value: letters, digits, underscores and dots. */
  ghost predicate Token(s: string) {
    s != [] && forall i | 0 <= i < |s| ::
      || 'a' <= s[i] <= 'z' || 'A' <= s[i] <= 'Z' || '0' <= s[i] <= '9' || s[i] == '_' || s[i] == '.'
  }

  ghost predicate Comment(s: string) {
    s != [] ==> s[0] == '#'
  }

  /** The four parameters there are. */
  ghost predicate Listed(name: string, kind: Kind) {
    || (name == "server_name" && kind == TypeString) || (name == "server_ip" && kind == TypeString)
    || (name == "server_port" && kind == TypeUint16) || (name == "heart_interval" && kind == TypeUint32)
  }

  /** A name and a value, with gaps around them, and perhaps a comment. */
  ghost predicate Stores(line: string, name: string, value: string) {
    exists a, b, c, d :: IsPair(line, a, name, b, value, c, d)
  }

  ghost predicate IsPair(line: string, a: string, name: string, b: string, value: string, c: string, d: string) {
    && line == a + name + b + value + c + d
    && Gap(a) && Token(name) && Gap(b) && b != [] && Token(value) && Gap(c) && Comment(d)
  }

  /** Nothing but a gap, and perhaps a comment. */
  ghost predicate Empty(line: string) {
    exists a, d :: IsEmpty(line, a, d)
  }

  ghost predicate IsEmpty(line: string, a: string, d: string) {
    line == a + d && Gap(a) && Comment(d)
  }

  // --------------------------------------------------- from the text to its words

  lemma {:induction false} GapFirst(a: string, s: string)
    requires Gap(a)
    ensures Words(a + s) == Words(s)
    decreases |a|
  {
    hide Words;
    if a == [] {
      assert a + s == s;
    } else {
      assert a + s == [a[0]] + (a[1..] + s);
      BlankFirst(a[0], a[1..] + s);
      GapFirst(a[1..], s);
    }
  }

  lemma GapOnly(a: string)
    requires Gap(a)
    ensures Words(a) == [] && Clean(a)
  {
    GapFirst(a, []);
    assert a + [] == a;
  }

  lemma TokenFirst(x: string, rest: string)
    requires Token(x) && (rest != [] ==> rest[0] == ' ' || rest[0] == '\t')
    ensures Words(x + rest) == [x] + Words(rest)
  {
    hide Words;
    OneWord(x, rest);
  }

  lemma CutAt(s: string, d: string)
    requires '#' !in s && Comment(d)
    ensures Cut(s + d) == s
  {
    IndexOfIs(s + d, '#', |s|);
    assert (s + d)[..|s|] == s;
  }

  lemma PairWords(a: string, x: string, b: string, y: string, c: string)
    requires Gap(a) && Token(x) && Gap(b) && b != [] && Token(y) && Gap(c)
    ensures Words(a + x + b + y + c) == [x, y]
  {
    hide Words, Token;
    assert a + x + b + y + c == a + (x + (b + (y + c)));
    GapFirst(a, x + (b + (y + c)));
    TokenFirst(x, b + (y + c));
    GapFirst(b, y + c);
    TokenFirst(y, c);
    GapOnly(c);
  }

  lemma PairClean(a: string, x: string, b: string, y: string, c: string)
    requires Gap(a) && Token(x) && Gap(b) && Token(y) && Gap(c)
    ensures Clean(a + x + b + y + c) && '#' !in a + x + b + y + c
  {
    assert forall i | 0 <= i < |a| :: IsBlank(a[i]);
    assert forall i | 0 <= i < |x| :: IsText(x[i]);
    assert forall i | 0 <= i < |b| :: IsBlank(b[i]);
    assert forall i | 0 <= i < |y| :: IsText(y[i]);
    assert forall i | 0 <= i < |c| :: IsBlank(c[i]);
  }

  lemma PairIsStored(line: string, name: string, value: string, kind: Kind)
    requires Stores(line, name, value) && Listed(name, kind)
    ensures ParseLine(line) == Reading(true, [Para(kind, name, value)])
  {
    var a, b, c, d :| IsPair(line, a, name, b, value, c, d);
    PairClean(a, name, b, value, c);
    PairWords(a, name, b, value, c);
    CutAt(a + name + b + value + c, d);
    hide Words, Clean, Cut;
  }

  lemma EmptyIsEmpty(line: string)
    requires Empty(line)
    ensures ParseLine(line) == Reading(true, [])
  {
    var a, d :| IsEmpty(line, a, d);
    CutAt(a, d);
    GapOnly(a);
  }

  // --------------------------------------------------- from the words to their text

  lemma {:induction false} NoWordsGap(s: string)
    requires Words(s) == []
    ensures Gap(s)
    decreases |s|
  {
    if s != [] {
      NoWordsGap(s[1..]);
    }
  }

  lemma FirstToken(s: string) returns (rest: string)
    requires Clean(s) && s != [] && !IsBlank(s[0])
    ensures Words(s) != [] && s == Words(s)[0] + rest && Token(Words(s)[0]) && Clean(rest)
    ensures Words(rest) == Words(s)[1..] && (rest != [] ==> IsBlank(rest[0]))
  {
    var n := WordLen(s);
    rest := s[n..];
    assert Words(s) == [s[..n]] + Words(rest);
    assert s == s[..n] + rest;
    hide Words, WordLen;
    assert forall i | 0 <= i < n :: IsText(s[i]);
  }

  /** A text with words starts with a gap and the first of them. */
  lemma {:induction false} FirstWord(s: string) returns (a: string, rest: string)
    requires Clean(s) && Words(s) != []
    ensures s == a + Words(s)[0] + rest && Gap(a) && Token(Words(s)[0]) && Clean(rest)
    ensures Words(rest) == Words(s)[1..] && (rest != [] ==> IsBlank(rest[0]))
    decreases |s|
  {
    NoWords();
    hide Words, Token;
    if IsBlank(s[0]) {
      assert s == [s[0]] + s[1..];
      BlankFirst(s[0], s[1..]);
      var b;
      b, rest := FirstWord(s[1..]);
      a := [s[0]] + b;
      assert s == a + Words(s)[0] + rest;
    } else {
      a := [];
      rest := FirstToken(s);
    }
  }

  lemma StoredIsPair(line: string, p: Para)
    requires ParseLine(line) == Reading(true, [p])
    ensures Stores(line, p.name, p.value) && Listed(p.name, p.kind)
  {
    var s := Cut(line);
    assert Clean(s) && Words(s) == [p.name, p.value] && KindOf(p.name) == Some(p.kind);
    assert Listed(p.name, p.kind);
    var d := line[|s|..];
    assert line == s + d && Comment(d);
    hide Words, Cut, ParseLine, KindOf, Token, Clean;
    var a, b, c := TwoWordsApart(s, p.name, p.value);
    assert IsPair(line, a, p.name, b, p.value, c, d);
  }

  lemma TwoWordsApart(s: string, x: string, y: string) returns (a: string, b: string, c: string)
    requires Clean(s) && Words(s) == [x, y]
    ensures s == a + x + b + y + c && Gap(a) && Token(x) && Gap(b) && b != [] && Token(y) && Gap(c)
  {
    hide Words, Clean;
    var rest;
    a, rest := FirstWord(s);
    NoWords();
    b, c := FirstWord(rest);
    NoWordsGap(c);
    assert rest != [] && IsBlank(rest[0]);
    TokenIsNoBlank(y);
    assert s == a + x + (b + y + c) == a + x + b + y + c;
  }

  lemma TokenIsNoBlank(y: string)
    requires Token(y)
    ensures !IsBlank(y[0])
  {
  }

  lemma EmptyOnly(line: string)
    requires ParseLine(line) == Reading(true, [])
    ensures Empty(line)
  {
    var s := Cut(line);
    NoWordsGap(s);
    assert IsEmpty(line, s, line[|s|..]);
  }

  // --------------------------------------------------------------------- lines

  lemma OneLine(line: string)
    requires '\n' !in line
    ensures Parse(line + "\n") == ParseLine(line)
  {
    var s := line + "\n";
    IndexOfIs(s, '\n', |line|);
    assert s[..|line|] == line && s[|line| + 1..] == [];
    IndexOfIs([], '\n', 0);
    IndexOfIs([], '#', 0);
    hide Words, Clean;
    assert Clean([]) by { GapOnly([]); }
    var r := ParseLine(line);
    assert r.ok ==> r.list + [] == r.list;
  }

  /** A line stores a parameter if and only if it is one of the four names and a value, in
      gaps, perhaps with a comment; it stores none and does not fail if and only if it is empty
      but for a comment; and every other line fails. */
  lemma LineIff(line: string, name: string, value: string, kind: Kind)
    requires '\n' !in line
    ensures Parse(line + "\n") == Reading(true, [Para(kind, name, value)]) <==> Stores(line, name, value) && Listed(name, kind)
    ensures Parse(line + "\n") == Reading(true, []) <==> Empty(line)
    ensures !Empty(line) && !(exists n, v, k :: Stores(line, n, v) && Listed(n, k)) ==> Parse(line + "\n") == Reading(false, [])
  {
    OneLine(line);
    var r := ParseLine(line);
    if Stores(line, name, value) && Listed(name, kind) {
      PairIsStored(line, name, value, kind);
    }
    if Empty(line) {
      EmptyIsEmpty(line);
    }
    if r == Reading(true, []) {
      EmptyOnly(line);
    } else if r.ok {
      StoredIsPair(line, r.list[0]);
    }
    assert !r.ok ==> r.list == [];
  }

  /** The four names, with any value. */
  lemma FourNames(v: string)
    requires Token(v)
    ensures Parse("server_name " + v + "\n") == Reading(true, [Para(TypeString, "server_name", v)])
    ensures Parse("server_ip " + v + "\n") == Reading(true, [Para(TypeString, "server_ip", v)])
    ensures Parse("server_port " + v + "\n") == Reading(true, [Para(TypeUint16, "server_port", v)])
    ensures Parse("heart_interval " + v + "\n") == Reading(true, [Para(TypeUint32, "heart_interval", v)])
  {
    NamesAreTokens();
    hide Token, Parse;
    OneName("server_name", v, TypeString);
    OneName("server_ip", v, TypeString);
    OneName("server_port", v, TypeUint16);
    OneName("heart_interval", v, TypeUint32);
    assert "server_name" + " " == "server_name " && "server_ip" + " " == "server_ip ";
    assert "server_port" + " " == "server_port " && "heart_interval" + " " == "heart_interval ";
  }

  lemma NamesAreTokens()
    ensures Token("server_name") && Token("server_ip") && Token("server_port") && Token("heart_interval")
  {
  }

  lemma OneName(name: string, v: string, kind: Kind)
    requires Token(v) && Token(name) && Listed(name, kind)
    ensures Parse(name + " " + v + "\n") == Reading(true, [Para(kind, name, v)])
  {
    var line := name + " " + v;
    assert IsPair(line, [], name, " ", v, [], []) by {
      assert line == [] + name + " " + v + [] + [];
    }
    assert '\n' !in line;
    LineIff(line, name, v, kind);
  }

  /** Any other character outside a comment fails its line. */
  lemma OtherCharFails(x: string, c: char, y: string)
    requires '#' !in x && '\n' !in x && '\n' !in y && c != '#' && c != '\n' && !Gap([c]) && !Token([c])
    ensures Parse(x + [c] + y + "\n") == Reading(false, [])
  {
    OneLine(x + [c] + y);
    BadCharFails(x, c, y);
  }

  /** Any other first word fails its line. */
  lemma OtherNameFails(a: string, w: string, rest: string)
    requires Gap(a) && Token(w) && '\n' !in rest && (rest != [] ==> rest[0] == ' ' || rest[0] == '\t' || rest[0] == '#')
    requires w != "server_name" && w != "server_ip" && w != "server_port" && w != "heart_interval"
    ensures Parse(a + w + rest + "\n") == Reading(false, [])
  {
    var line := a + w + rest;
    NoOtherEnd(a, w);
    assert '\n' !in line && KindOf(w) == None;
    hide Words, Gap, Token, Clean, KindOf, Parse, Cut, IndexOf;
    OneLine(line);
    CutBehind(a, w, rest);
    WordFirst(a, w, Cut(rest));
    assert ([w] + Words(Cut(rest)))[0] == w;
  }

  lemma NoOtherEnd(a: string, w: string)
    requires Gap(a) && Token(w)
    ensures '\n' !in a + w && '#' !in a + w
  {
  }

  lemma CutBehind(a: string, w: string, rest: string)
    requires Gap(a) && Token(w) && (rest != [] ==> rest[0] == ' ' || rest[0] == '\t' || rest[0] == '#')
    ensures Cut(a + w + rest) == a + w + Cut(rest)
    ensures Cut(rest) != [] ==> Cut(rest)[0] == ' ' || Cut(rest)[0] == '\t'
  {
    var k := IndexOf(rest, '#');
    NoOtherEnd(a, w);
    hide Gap, Token;
    assert a + w + rest == (a + w + rest[..k]) + rest[k..];
    assert '#' !in a + w + rest[..k];
    CutAt(a + w + rest[..k], rest[k..]);
  }

  lemma WordFirst(a: string, w: string, rest: string)
    requires Gap(a) && Token(w) && (rest != [] ==> rest[0] == ' ' || rest[0] == '\t')
    ensures Words(a + w + rest) == [w] + Words(rest)
  {
    hide Words, Gap, Token;
    assert a + w + rest == a + (w + rest);
    GapFirst(a, w + rest);
    TokenFirst(w, rest);
  }

  /** What follows the last newline stores nothing, even if it is a name and a value. */
  lemma LastLineStoresNothing(x: string, line: string)
    requires (x == [] || x[|x| - 1] == '\n') && '\n' !in line
    ensures Parse(x + line).list == Parse(x).list
  {
    ParseAppend(x, line);
    IndexOfIs(line, '\n', |line|);
    hide Clean;
    assert Parse(x).list + [] == Parse(x).list;
  }
}
