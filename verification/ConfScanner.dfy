/** The scanner itself: `xtyConfParse` with the list it fills. */
module ConfScanner {
  import opened ConfLines
  import opened ConfParse
  import opened Options

  /** How the scan ends: with an answer, or by leaving the buffer. */
  datatype Scanned = Ended(ok: bool) | LeavesBuffer

  /** The text in the buffer: what comes before the first NUL, or everything. */
  ghost function Text(buf: string): string {
    buf[..IndexOf(buf, '\0')]
  }

  /** Everything the scanner has done by position `p`, in the line that began at `start`. */
  ghost predicate Progress(text: string, start: nat, p: nat, c: Scan, done: seq<Para>) {
    && start <= p <= |text| && '\n' !in text[start..p] && Knows(c, text[start..p])
    && Parse(text) == Then(Reading(true, done), Parse(text[start..]))
  }

  lemma Begin(text: string)
    ensures Progress(text, 0, 0, Scan(false, "", []), [])
  {
    IndexOfIs([], '#', 0);
    assert text[0..0] == [] && text[0..] == text && Words([]) == [];
    var r := Parse(text);
    assert Then(Reading(true, []), r) == r;
  }

  lemma OneMore(text: string, start: nat, p: nat)
    requires start <= p < |text|
    ensures text[start..p + 1] == text[start..p] + [text[p]]
  {
  }

  lemma InLine(text: string, start: nat, p: nat, c: Scan, d: Scan, done: seq<Para>)
    requires Progress(text, start, p, c, done) && p < |text| && text[p] != '\n'
    requires Knows(d, text[start..p] + [text[p]])
    ensures Progress(text, start, p + 1, d, done)
  {
    hide Knows, Parse;
    OneMore(text, start, p);
  }

  /** What one character within a line does to the scanner's state. */
  ghost function Move(c: Scan, ch: char): Scan {
    if ch == '#' then c.(annotation := true)
    else if c.annotation then c
    else if IsBlank(ch) then Scan(false, "", Seen(c))
    else c.(word := c.word + [ch])
  }

  lemma WithinLine(text: string, start: nat, p: nat, c: Scan, done: seq<Para>)
    requires Progress(text, start, p, c, done) && p < |text| && text[p] != '\n'
    ensures text[p] == '#' || c.annotation || IsBlank(text[p]) || IsText(text[p]) ==>
      Progress(text, start, p + 1, Move(c, text[p]), done)
    ensures !(text[p] == '#' || c.annotation || IsBlank(text[p]) || IsText(text[p])) ==>
      Parse(text) == Reading(false, done)
  {
    var line, ch := text[start..p], text[p];
    if ch == '#' {
      CommentStarts(c, line);
    } else if c.annotation {
      CommentGoesOn(c, line, ch);
    } else if IsBlank(ch) {
      BlankEndsWord(c, line, ch);
    } else if IsText(ch) {
      TextExtendsWord(c, line, ch);
    } else {
      LineFails(text, start, p);
      assert done + [] == done;
      return;
    }
    hide Knows, Parse, IsBlank, IsText;
    InLine(text, start, p, c, Move(c, ch), done);
  }

  lemma AtEnd(text: string, start: nat, c: Scan, done: seq<Para>)
    requires Progress(text, start, |text|, c, done)
    ensures Parse(text) == Reading(true, done)
  {
    hide Parse, Words;
    assert text[start..] == text[start..|text|];
    TextEnds(text, start);
    assert done + [] == done;
  }

  lemma NextLine(text: string, start: nat, p: nat, c: Scan, done: seq<Para>, r: Reading)
    requires Progress(text, start, p, c, done) && p < |text| && text[p] == '\n' && r == ParseWords(Seen(c))
    ensures r.ok ==> Progress(text, p + 1, p + 1, Scan(false, "", []), done + r.list)
    ensures !r.ok ==> Parse(text) == Reading(false, done)
  {
    hide Parse, Words, Clean;
    LineEnds(text, start, p);
    ThenThen(Reading(true, done), r, Parse(text[p + 1..]));
    assert text[p + 1..p + 1] == [];
    EmptyKnown();
    assert !r.ok ==> done + [] == done;
  }

  lemma EmptyKnown()
    ensures Knows(Scan(false, "", []), [])
  {
    IndexOfIs([], '#', 0);
  }

  /** A buffer filled with one comment and no NUL is scanned to its end without a failure. */
  lemma FullOfComment(n: nat)
    ensures var buf := seq(n, _ => '#'); '\0' !in buf && Parse(buf) == Reading(true, [])
  {
    var buf := seq(n, _ => '#');
    IndexOfIs(buf, '\n', n);
    IndexOfIs(buf, '#', 0);
    assert Cut(buf) == [];
  }

  class Parser {
    var list: seq<Para>

    constructor ()
      ensures list == []
    {
      list := [];
    }

    method ParseOneLine(w: seq<string>) returns (ok: bool)
      modifies this
      ensures ok <==> |w| == 2 && KindOf(w[0]).Some?
      ensures list == old(list) + if ok then [Para(KindOf(w[0]).value, w[0], w[1])] else []
    {
      if |w| != 2 {
        return false;
      }
      var kind := KindOf(w[0]);
      if kind == None {
        return false;
      }
      list := list + [Para(kind.value, w[0], w[1])];
      return true;
    }

    /** One pass over the buffer does what the line-by-line reading of its text says. It goes on
        behind the buffer exactly if there is no NUL in it and no line fails. */
    method ParseConfFile(buf: array<char>) returns (r: Scanned)
      modifies this
      ensures r == LeavesBuffer <==> '\0' !in buf[..] && Parse(Text(buf[..])).ok
      ensures r.Ended? ==> r.ok == Parse(Text(buf[..])).ok
      ensures list == old(list) + Parse(Text(buf[..])).list
    {
      hide Progress, Knows, Parse, Words, Clean, IndexOf;
      ghost var text, start, done := Text(buf[..]), 0, [];
      ghost var scan := Scan(false, "", []);
      var annotation, paraArea, word, words := false, false, "", [];
      var p := 0;
      Begin(text);
      while p < buf.Length && buf[p] != '\0'
        invariant p <= |text| <= buf.Length && text == buf[..|text|] && '\0' !in text
        invariant |text| < buf.Length ==> buf[|text|] == '\0'
        invariant Progress(text, start, p, Scan(annotation, word, words), done) && (paraArea <==> word != "")
        invariant list == old(list) + done
        decreases |text| - p
      {
        scan := Scan(annotation, word, words);
        assert text[p] == buf[p];
        if buf[p] != '\n' {
          WithinLine(text, start, p, scan, done);
        }
        if buf[p] == '#' {
          annotation := true;
        } else if buf[p] == '\n' {
          annotation := false;
          if paraArea {
            paraArea := false;
            words, word := words + [word], "";
          }
          NextLine(text, start, p, scan, done, ParseWords(Seen(scan)));
          if words != [] {
            var ok := ParseOneLine(words);
            if !ok { return Ended(false); }
            words := [];
          }
          done := done + ParseWords(Seen(scan)).list;
          start := p + 1;
        } else if annotation {
        } else if buf[p] == ' ' || buf[p] == '\t' {
          if paraArea {
            paraArea := false;
            words, word := words + [word], "";
          }
        } else if !IsText(buf[p]) {
          return Ended(false);
        } else {
          paraArea := true;
          word := word + [buf[p]];
        }
        p := p + 1;
      }
      AtEnd(text, start, Scan(annotation, word, words), done);
      return if p < buf.Length then Ended(true) else LeavesBuffer;
    }
  }
}
