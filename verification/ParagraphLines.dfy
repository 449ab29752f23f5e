/** What the paragraph parser makes of a line, however it is written. */
module ParagraphLines {
  import opened Dpkg
  import opened Paragraphs
  import opened Text

  // ----- white space -----

  /** Blanks, tabs and the other ASCII white space. */
  predicate Blanks(s: string) {
    forall i :: 0 <= i < |s| ==> s[i] == ' ' || '\t' <= s[i] <= '\r'
  }

  lemma BlankIsSpace(s: string)
    requires |s| == 1 && Blanks(s)
    ensures IsSpace(s)
  {
    var all := "\t\n\U{0B}\U{0C}\r ";
    assert all[0] == '\t' && all[1] == '\n' && all[2] == '\U{0B}' && all[3] == '\U{0C}';
    assert all[4] == '\r' && all[5] == ' ';
  }

  lemma {:induction false} BlanksGoLeft(x: string, s: string)
    requires Blanks(x)
    ensures TrimLeft(x + s) == TrimLeft(s)
    decreases |x|
  {
    if x == "" {
      assert x + s == s;
    } else {
      var t := x + s;
      assert t[..1] == [x[0]] && t[1..] == x[1..] + s;
      BlankIsSpace(t[..1]);
      BlanksGoLeft(x[1..], s);
    }
  }

  lemma LastBlankGoes(s: string, c: char)
    requires Blanks([c])
    ensures TrimRight(s + [c]) == TrimRight(s)
  {
    var t := s + [c];
    assert t[|t| - 1..] == [c] && t[..|t| - 1] == s;
    BlankIsSpace([c]);
    assert TrailingSpace(t) == 1;
  }

  lemma {:induction false} BlanksGoRight(s: string, y: string)
    requires Blanks(y)
    ensures TrimRight(s + y) == TrimRight(s)
    decreases |y|
  {
    if y == "" {
      assert s + y == s;
    } else {
      var init, last := y[..|y| - 1], y[|y| - 1];
      assert s + y == (s + init) + [last];
      LastBlankGoes(s + init, last);
      BlanksGoRight(s, init);
    }
  }

  /** Trimming takes the white space at both ends, and nothing else. */
  lemma TrimmedAtBothEnds(x: string, core: string, y: string)
    requires Blanks(x) && Blanks(y) && Trimmed(core) && core != ""
    ensures TrimSpace(x + core + y) == core
  {
    var t := core + y;
    ThreeParts(x, core, y);
    BlanksGoLeft(x, t);
    StartsBare(core, y);
    BlanksGoRight(core, y);
    EndsTrimmed(core);
  }

  lemma ThreeParts(x: string, y: string, z: string)
    ensures x + y + z == x + (y + z)
  {
  }

  lemma EndsTrimmed(core: string)
    requires TrailingSpace(core) == 0
    ensures TrimRight(core) == core
  {
  }

  lemma StartsBare(core: string, y: string)
    requires LeadingSpace(core) == 0 && core != "" && Blanks(y)
    ensures TrimLeft(core + y) == core + y
  {
    var t := core + y;
    assert t[..1] == core[..1];
    if |core| >= 3 {
      assert t[..2] == core[..2] && t[..3] == core[..3];
    } else if |core| == 2 {
      assert t[..2] == core[..2];
      if |t| >= 3 {
        EndsBare(t[..3]);
      }
    } else {
      if |t| >= 2 {
        EndsBare(t[..2]);
      }
      if |t| >= 3 {
        EndsBare(t[..3]);
      }
    }
  }

  /** No white space of several bytes ends in an ASCII blank. */
  lemma EndsBare(s: string)
    requires |s| > 1 && Blanks(s[|s| - 1..])
    ensures !IsSpace(s)
  {
    assert s[|s| - 1..][0] == s[|s| - 1];
  }

  // ----- lines -----

  predicate Opens(key: string) {
    key != "" && ':' !in key && key[0] != ' ' && key[0] != '\t'
  }

  /** A field: the key up to the first colon, and what follows it, trimmed, in place of an earlier value. */
  lemma FieldLine(p: Parser, key: string, value: string)
    requires Opens(key)
    ensures Step(p, key + ":" + value) == Parser(p.records, p.cur[key := TrimSpace(value)], key)
  {
    var line := key + ":" + value;
    assert line[0] == key[0] && line[|key|] == ':' && line[..|key|] == key && line[|key| + 1..] == value;
    IndexOfIs(line, ':', |key|);
  }

  /** A line that begins with a blank or a tab continues the open field, trimmed; without one it is ignored. */
  lemma ContinuationLine(p: Parser, white: char, text: string)
    requires white == ' ' || white == '\t'
    ensures Step(p, [white] + text) ==
      if p.lastKey == "" then p
      else p.(cur := p.cur[p.lastKey := (if p.lastKey in p.cur then p.cur[p.lastKey] else "") + "\n" + TrimSpace(text)])
  {
    var line := [white] + text;
    assert line[0] == white;
    BlanksGoLeft([white], text);
  }

  /** A tab in front of a continuation reads as a blank does. */
  lemma TabReadsAsBlank(p: Parser, text: string)
    ensures Step(p, "\t" + text) == Step(p, " " + text)
  {
    ContinuationLine(p, '\t', text);
    ContinuationLine(p, ' ', text);
    assert "\t" == ['\t'] && " " == [' '];
  }

  /** A line without a colon, or with nothing in front of it, is ignored. */
  lemma OtherLine(p: Parser, line: string)
    requires line != "" && line[0] != ' ' && line[0] != '\t' && (':' !in line || line[0] == ':')
    ensures Step(p, line) == p
  {
    if line[0] == ':' {
      IndexOfIs(line, ':', 0);
    }
  }

  /** An empty line closes the record that is open, and does nothing when there is none. */
  lemma EmptyLine(p: Parser)
    ensures Step(p, "") == if p.cur == map[] then p else Parser(p.records + [p.cur], map[], "")
  {
  }

  /** A carriage return in front of the newline does not belong to the line. */
  lemma ReturnIsDropped(p: Parser, line: string)
    requires line == "" || line[|line| - 1] != '\r'
    ensures Steps(p, [line + "\r"]) == Steps(p, [line])
  {
    assert [line + "\r"][1..] == [] && [line][1..] == [];
    assert (line + "\r")[..|line|] == line && (line + "\r")[|line|] == '\r';
  }

  /** One line of a mebibyte or more, and nothing is parsed. */
  lemma LongLineFails(a: string, line: string, b: string)
    requires '\n' !in line && |line| >= 1_048_576
    ensures Parsed(a + "\n" + (line + "\n" + b)) == LineTooLong
    ensures Parsed(line + "\n" + b) == LineTooLong && Parsed(line) == LineTooLong
  {
    LinesJoinLast(line, b);
    LinesJoin(a, line + "\n" + b);
    TooLongSingle(line);
    TooLongConcat([line], RawLines(b));
    TooLongConcat(RawLines(a) + EndingBlank(a), RawLines(line + "\n" + b));
    assert RawLines(line) == [line];
  }
}
