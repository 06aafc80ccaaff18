/** The configuration scanner: one pass over the buffer with two flags, a token and the
    words of the line so far. */
module ConfParse {
  import opened ConfLines

  /** What the scanner keeps about the line it is in. */
  datatype Scan = Scan(annotation: bool, word: string, words: seq<string>)

  /** The words seen, with the one being read. */
  ghost function Seen(c: Scan): seq<string> {
    if c.word == "" then c.words else c.words + [c.word]
  }

  /** `c` is what the scanner knows after `line`. */
  ghost predicate Knows(c: Scan, line: string) {
    && (c.annotation <==> '#' in line) && Clean(Cut(line)) && Seen(c) == Words(Cut(line))
    && (c.word != "" <==> Cut(line) != [] && !IsBlank(Cut(line)[|Cut(line)| - 1]))
  }

  lemma CutMore(line: string, c: char)
    ensures '#' in line ==> Cut(line + [c]) == Cut(line)
    ensures '#' !in line && c == '#' ==> Cut(line + [c]) == Cut(line) == line
    ensures '#' !in line && c != '#' ==> Cut(line) == line && Cut(line + [c]) == line + [c]
  {
    var i := IndexOf(line, '#');
    assert '#' in line <==> i < |line|;
    IndexOfIs(line + [c], '#', if i < |line| || c == '#' then i else i + 1);
    assert (line + [c])[..i] == line[..i];
  }

  /** `w` with its last word one character longer. */
  ghost function Extend(w: seq<string>, c: char): seq<string>
    requires w != []
  {
    w[..|w| - 1] + [w[|w| - 1] + [c]]
  }

  lemma ExtendBehind(x: string, w: seq<string>, c: char)
    requires w != []
    ensures Extend([x] + w, c) == [x] + Extend(w, c)
  {
  }

  /** What one more character does to the words of a line. */
  ghost function WordsThen(s: string, c: char): seq<string> {
    var w := Words(s);
    if IsBlank(c) then w
    else if s == [] || IsBlank(s[|s| - 1]) || w == [] then w + [[c]]
    else Extend(w, c)
  }

  lemma WordsSome(s: string)
    requires s != [] && !IsBlank(s[|s| - 1])
    ensures Words(s) != []
    decreases |s|
  {
    if IsBlank(s[0]) {
      WordsSome(s[1..]);
    }
  }

  lemma NoWords()
    ensures Words([]) == []
  {
  }

  lemma BlankFirst(c: char, rest: string)
    requires IsBlank(c)
    ensures Words([c] + rest) == Words(rest)
  {
    assert ([c] + rest)[1..] == rest;
  }

  lemma OneWord(x: string, rest: string)
    requires x != [] && (forall i | 0 <= i < |x| :: !IsBlank(x[i])) && (rest != [] ==> IsBlank(rest[0]))
    ensures Words(x + rest) == [x] + Words(rest)
  {
    hide IsBlank;
    var s := x + rest;
    assert s[0] == x[0];
    WordLenIs(s, |x|);
    assert s[..|x|] == x && s[|x|..] == rest;
  }

  lemma WordsOfWord(s: string, c: char)
    requires s != [] && forall i | 0 <= i < |s| :: !IsBlank(s[i])
    ensures Words(s + [c]) == WordsThen(s, c)
  {
    hide IsBlank, Words;
    NoWords();
    OneWord(s, []);
    assert s + [] == s && [s] + [] == [s];
    if IsBlank(c) {
      OneWord(s, [c]);
      BlankFirst(c, []);
      assert [c] + [] == [c];
    } else {
      OneWord(s + [c], []);
      assert s + [c] + [] == s + [c] && [s][..0] == [];
    }
  }

  /** A word, then more: what happens at the end happens to the rest. */
  lemma WordsBehind(x: string, rest: string, c: char)
    requires x != [] && (forall i | 0 <= i < |x| :: !IsBlank(x[i])) && rest != [] && IsBlank(rest[0])
    requires Words(rest + [c]) == WordsThen(rest, c)
    ensures Words(x + rest + [c]) == WordsThen(x + rest, c)
  {
    hide IsBlank, Words;
    OneWord(x, rest);
    OneWord(x, rest + [c]);
    assert x + rest + [c] == x + (rest + [c]);
    if !IsBlank(c) && !IsBlank(rest[|rest| - 1]) {
      WordsSome(rest);
      ExtendBehind(x, Words(rest), c);
    }
  }

  lemma {:induction false} WordsMore(s: string, c: char)
    ensures Words(s + [c]) == WordsThen(s, c)
    decreases |s|
  {
    hide IsBlank, Words;
    NoWords();
    if s == [] {
      assert s + [c] == [c] == [c] + [];
      if IsBlank(c) { BlankFirst(c, []); } else { OneWord([c], []); }
    } else if IsBlank(s[0]) {
      assert s == [s[0]] + s[1..] && s + [c] == [s[0]] + (s[1..] + [c]);
      BlankFirst(s[0], s[1..]);
      BlankFirst(s[0], s[1..] + [c]);
      WordsMore(s[1..], c);
    } else if WordLen(s) < |s| {
      var n := WordLen(s);
      assert s == s[..n] + s[n..];
      WordsMore(s[n..], c);
      WordsBehind(s[..n], s[n..], c);
    } else {
      WordsOfWord(s, c);
    }
  }

  /** The scanner's four ways to go on within a line. */
  lemma CommentStarts(c: Scan, line: string)
    requires Knows(c, line)
    ensures Knows(c.(annotation := true), line + ['#'])
  {
    hide Clean, Words, IsBlank;
    CutMore(line, '#');
  }

  lemma CommentGoesOn(c: Scan, line: string, ch: char)
    requires Knows(c, line) && c.annotation
    ensures Knows(c, line + [ch])
  {
    hide Clean, Words, IsBlank;
    CutMore(line, ch);
  }

  lemma BlankEndsWord(c: Scan, line: string, ch: char)
    requires Knows(c, line) && !c.annotation && IsBlank(ch)
    ensures Knows(Scan(false, "", Seen(c)), line + [ch])
  {
    hide Words;
    CutMore(line, ch);
    WordsMore(line, ch);
  }

  lemma TextExtendsWord(c: Scan, line: string, ch: char)
    requires Knows(c, line) && !c.annotation && IsText(ch)
    ensures Knows(c.(word := c.word + [ch]), line + [ch])
  {
    hide Words;
    CutMore(line, ch);
    WordsMore(line, ch);
    if c.word == "" {
      assert c.word + [ch] == [ch];
    } else {
      WordsSome(line);
    }
  }

  /** A character that is neither blank nor text, outside a comment, fails the line it is in. */
  lemma BadCharFails(line: string, ch: char, rest: string)
    requires '#' !in line && ch != '#' && !IsBlank(ch) && !IsText(ch)
    ensures !Clean(Cut(line + [ch] + rest))
  {
    var s, k := line + [ch] + rest, IndexOf(line + [ch] + rest, '#');
    assert s[|line|] == ch && forall i | 0 <= i <= |line| :: s[i] != '#';
    assert s[..k][|line|] == ch;
  }

  lemma LineFails(text: string, start: nat, p: nat)
    requires start <= p < |text| && '\n' !in text[start..p] && '#' !in text[start..p]
    requires text[p] != '#' && text[p] != '\n' && !IsBlank(text[p]) && !IsText(text[p])
    ensures Parse(text[start..]) == Reading(false, [])
  {
    hide Clean, Words, IsBlank, IsText;
    var s, k := text[start..], IndexOf(text[start..], '\n');
    var line, d := text[start..p], p - start;
    assert s[..d] == line && s[d] == text[p];
    assert k > d by {
      assert forall i | 0 <= i < d :: s[i] == line[i];
    }
    assert s[..k] == line + [text[p]] + s[d + 1..k];
    BadCharFails(line, text[p], s[d + 1..k]);
    assert k == |s| ==> s[..k] == s;
  }

  lemma LineEnds(text: string, start: nat, p: nat)
    requires start <= p < |text| && '\n' !in text[start..p] && text[p] == '\n'
    ensures Parse(text[start..]) == Then(ParseLine(text[start..p]), Parse(text[p + 1..]))
  {
    hide ParseLine;
    var s := text[start..];
    assert forall i | 0 <= i < p - start :: s[i] == text[start..p][i];
    IndexOfIs(s, '\n', p - start);
    assert s[..p - start] == text[start..p] && s[p - start + 1..] == text[p + 1..];
  }

  lemma TextEnds(text: string, start: nat)
    requires start <= |text| && '\n' !in text[start..] && Clean(Cut(text[start..]))
    ensures Parse(text[start..]) == Reading(true, [])
  {
    IndexOfIs(text[start..], '\n', |text| - start);
  }
}
