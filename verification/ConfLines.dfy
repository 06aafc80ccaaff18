/** What a configuration file means, line by line. */
module ConfLines {
  import opened Options

  datatype Kind = TypeString | TypeUint16 | TypeUint32

  datatype Para = Para(kind: Kind, name: string, value: string)

  /** The table of `InitConfParaTypeTable`. */
  function KindOf(name: string): Option<Kind> {
    if name == "server_name" then Some(TypeString)
    else if name == "server_ip" then Some(TypeString)
    else if name == "server_port" then Some(TypeUint16)
    else if name == "heart_interval" then Some(TypeUint32)
    else None
  }

  predicate IsBlank(c: char) {
    c == ' ' || c == '\t'
  }

  predicate IsText(c: char) {
    'a' <= c <= 'z' || 'A' <= c <= 'Z' || '0' <= c <= '9' || c == '_' || c == '.'
  }

  /** The first position of `c` in `s`; the length of `s` if it is not there. */
  ghost function IndexOf(s: string, c: char): (i: nat)
    ensures i <= |s| && (i < |s| ==> s[i] == c) && forall j | 0 <= j < i :: s[j] != c
  {
    if s == [] || s[0] == c then 0 else 1 + IndexOf(s[1..], c)
  }

  lemma IndexOfIs(s: string, c: char, i: nat)
    requires i <= |s| && (i < |s| ==> s[i] == c) && forall j | 0 <= j < i :: s[j] != c
    ensures IndexOf(s, c) == i
  {
  }

  /** A line without its comment. */
  ghost function Cut(line: string): string {
    line[..IndexOf(line, '#')]
  }

  ghost predicate Clean(s: string) {
    forall i | 0 <= i < |s| :: IsBlank(s[i]) || IsText(s[i])
  }

  /** How far the first word reaches. */
  ghost function WordLen(s: string): (n: nat)
    ensures n <= |s| && (n < |s| ==> IsBlank(s[n])) && forall j | 0 <= j < n :: !IsBlank(s[j])
  {
    if s == [] || IsBlank(s[0]) then 0 else 1 + WordLen(s[1..])
  }

  /** The words of a line: the longest stretches without blanks. */
  ghost function Words(s: string): seq<string>
    decreases |s|
  {
    if s == [] then [] else
    if IsBlank(s[0]) then Words(s[1..]) else
    [s[..WordLen(s)]] + Words(s[WordLen(s)..])
  }

  /** What comes of a text: whether it is accepted, and the parameters stored. */
  datatype Reading = Reading(ok: bool, list: seq<Para>)

  /** A line has no words, or a known name and its value. */
  ghost function ParseWords(w: seq<string>): Reading {
    if w == [] then Reading(true, [])
    else if |w| == 2 && KindOf(w[0]).Some? then Reading(true, [Para(KindOf(w[0]).value, w[0], w[1])])
    else Reading(false, [])
  }

  /** One thing after another, unless the first fails. */
  ghost function Then(x: Reading, y: Reading): Reading {
    if x.ok then Reading(y.ok, x.list + y.list) else x
  }

  ghost function ParseLine(line: string): Reading {
    if Clean(Cut(line)) then ParseWords(Words(Cut(line))) else Reading(false, [])
  }

  /** The lines of a text in order, up to the first that fails. What follows the last newline
      must be clean, but stores nothing. */
  ghost function Parse(text: string): Reading
    decreases |text|
  {
    var k := IndexOf(text, '\n');
    if k == |text| then Reading(Clean(Cut(text)), [])
    else Then(ParseLine(text[..k]), Parse(text[k + 1..]))
  }

  // ----------------------------------------------------------------- laws

  lemma ThenThen(x: Reading, y: Reading, z: Reading)
    ensures Then(Then(x, y), z) == Then(x, Then(y, z))
  {
    assert x.ok && y.ok ==> x.list + y.list + z.list == x.list + (y.list + z.list);
  }

  /** A text of whole lines is parsed independently of what follows it. */
  lemma {:induction false} ParseAppend(x: string, y: string)
    requires x == [] || x[|x| - 1] == '\n'
    ensures Parse(x + y) == Then(Parse(x), Parse(y))
    decreases |x|
  {
    if x == [] {
      assert x + y == y;
      IndexOfIs(x, '\n', 0);
      IndexOfIs(x, '#', 0);
    } else {
      var k := IndexOf(x, '\n');
      IndexOfIs(x + y, '\n', k);
      assert (x + y)[..k] == x[..k] && (x + y)[k + 1..] == x[k + 1..] + y;
      ParseAppend(x[k + 1..], y);
      ThenThen(ParseLine(x[..k]), Parse(x[k + 1..]), Parse(y));
    }
  }

  /** A failing line hides all that follows; the parameters stored are those of the lines before. */
  lemma FailureStops(x: string, line: string, y: string)
    requires (x == [] || x[|x| - 1] == '\n') && Parse(x).ok && '\n' !in line && !ParseLine(line).ok
    ensures Parse(x + line + ['\n'] + y) == Reading(false, Parse(x).list)
  {
    hide Parse, ParseLine;
    assert x + line + ['\n'] + y == x + (line + ['\n'] + y);
    ParseAppend(x, line + ['\n'] + y);
    FirstLineFails(line, y);
    assert Parse(x).list + [] == Parse(x).list;
  }

  lemma FirstLineFails(line: string, y: string)
    requires '\n' !in line && !ParseLine(line).ok
    ensures Parse(line + ['\n'] + y) == Reading(false, [])
  {
    hide Words, Clean, Cut;
    var z := line + ['\n'] + y;
    IndexOfIs(z, '\n', |line|);
    assert z[..|line|] == line;
  }

  /** Comments make no difference. */
  lemma CommentsIgnored(line: string, comment: string)
    ensures ParseLine(line + ['#'] + comment) == ParseLine(line)
  {
    var i, s := IndexOf(line, '#'), line + ['#'] + comment;
    IndexOfIs(s, '#', i);
    assert s[..i] == line[..i];
  }

  ghost predicate Legal(p: Para) {
    KindOf(p.name) == Some(p.kind) && p.value != [] && forall i | 0 <= i < |p.value| :: IsText(p.value[i])
  }

  ghost function Print(list: seq<Para>): string {
    if list == [] then [] else list[0].name + " " + list[0].value + "\n" + Print(list[1..])
  }

  lemma NamesAreText(name: string)
    requires KindOf(name).Some?
    ensures name != [] && forall i | 0 <= i < |name| :: IsText(name[i])
  {
  }

  lemma WordLenIs(s: string, n: nat)
    requires n <= |s| && (n < |s| ==> IsBlank(s[n])) && forall j | 0 <= j < n :: !IsBlank(s[j])
    ensures WordLen(s) == n
  {
  }

  lemma TwoWords(x: string, y: string)
    requires x != [] && y != [] && (forall i | 0 <= i < |x| :: IsText(x[i])) && (forall i | 0 <= i < |y| :: IsText(y[i]))
    ensures Clean(x + " " + y) && Words(x + " " + y) == [x, y]
  {
    var s := x + " " + y;
    WordLenIs(s, |x|);
    WordLenIs(y, |y|);
    assert s[..|x|] == x && s[|x|..] == " " + y && (" " + y)[1..] == y && y[..|y|] == y && y[|y|..] == [];
    assert Words(y) == [y] + Words([]);
    assert Words(" " + y) == Words(y);
    assert Words(s) == [x] + Words(s[|x|..]);
  }

  lemma PrintedLine(p: Para)
    requires Legal(p)
    ensures '\n' !in p.name + " " + p.value && ParseLine(p.name + " " + p.value) == Reading(true, [p])
  {
    hide KindOf, Words, Clean;
    NamesAreText(p.name);
    var line := p.name + " " + p.value;
    TwoWords(p.name, p.value);
    IndexOfIs(line, '#', |line|);
    assert line[..|line|] == line;
  }

  /** Printing a list of legal parameters and parsing the text gives the list back. */
  lemma {:induction false} PrintParse(list: seq<Para>)
    requires forall p <- list :: Legal(p)
    ensures Parse(Print(list)) == Reading(true, list)
    decreases |list|
  {
    hide Legal, ParseLine, Clean;
    if list == [] {
      IndexOfIs([], '\n', 0);
      IndexOfIs([], '#', 0);
      assert Clean([]) by { EmptyClean(); }
    } else {
      var line, rest := list[0].name + " " + list[0].value, Print(list[1..]);
      PrintedLine(list[0]);
      PrintParse(list[1..]);
      var s := line + "\n" + rest;
      assert Print(list) == s;
      IndexOfIs(s, '\n', |line|);
      assert s[..|line|] == line && s[|line| + 1..] == rest;
      assert [list[0]] + list[1..] == list;
    }
  }

  lemma EmptyClean()
    ensures Clean([])
  {
  }
}
