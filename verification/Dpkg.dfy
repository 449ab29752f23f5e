/** The paragraph format of dpkg and apt (parseRFC822 in internal/topsrv/packages/dpkg.go). */
module Dpkg {
  import opened Text

  const MAX_LINE := 0x10_0000

  type Record = map<string, string>

  datatype Result = Records(records: seq<Record>) | LineTooLong | ReadFailed

  // ----- lines, as bufio.Scanner delivers them -----

  /** The text between newlines; nothing after the last one unless it is there. */
  function RawLines(doc: string): seq<string> {
    if doc == "" then []
    else
      var i := IndexOf(doc, '\n');
      if i < 0 then [doc] else [doc[..i]] + RawLines(doc[i + 1..])
  }

  function DropCR(line: string): string {
    if line != "" && line[|line| - 1] == '\r' then line[..|line| - 1] else line
  }

  /** A line must fit the scanner's buffer together with its newline. */
  predicate TooLong(lines: seq<string>) {
    exists k :: 0 <= k < |lines| && |lines[k]| >= MAX_LINE
  }

  // ----- the parser -----

  datatype Parser = Parser(records: seq<Record>, cur: Record, lastKey: string)

  const START := Parser([], map[], "")

  function Flushed(p: Parser): Parser {
    if p.cur == map[] then p else Parser(p.records + [p.cur], map[], "")
  }

  predicate Continues(line: string) {
    line != "" && (line[0] == ' ' || line[0] == '\t')
  }

  function Lookup(r: Record, key: string): string {
    if key in r then r[key] else ""
  }

  function Step(p: Parser, line: string): Parser {
    if line == "" then Flushed(p)
    else if Continues(line) then Continued(p, line)
    else Keyed(p, line)
  }

  function Continued(p: Parser, line: string): Parser {
    if p.lastKey == "" then p
    else p.(cur := p.cur[p.lastKey := Lookup(p.cur, p.lastKey) + "\n" + TrimSpace(line)])
  }

  function Keyed(p: Parser, line: string): Parser {
    var i := IndexOf(line, ':');
    if i <= 0 then p
    else Parser(p.records, p.cur[line[..i] := ValueAfter(line, i)], line[..i])
  }

  function ValueAfter(line: string, i: nat): string
    requires i < |line|
  {
    TrimSpace(line[i + 1..])
  }

  function Steps(p: Parser, lines: seq<string>): Parser
    decreases |lines|
  {
    if lines == [] then p else Steps(Step(p, DropCR(lines[0])), lines[1..])
  }

  function ParsedLines(lines: seq<string>): Result {
    if TooLong(lines) then LineTooLong else Records(Flushed(Steps(START, lines)).records)
  }

  function Parsed(doc: string): Result {
    ParsedLines(RawLines(doc))
  }

  /** A key is remembered exactly while there is a record to continue, and it is one of its keys. */
  ghost predicate Sane(p: Parser) {
    && (p.lastKey == "" <==> p.cur == map[]) && (p.lastKey != "" ==> p.lastKey in p.cur)
    && "" !in p.cur && forall k :: 0 <= k < |p.records| ==> p.records[k] != map[] && "" !in p.records[k]
  }

  lemma StepKeepsSane(p: Parser, line: string)
    requires Sane(p)
    ensures Sane(Step(p, line))
  {
    var q := Step(p, line);
    assert q.lastKey != "" ==> q.lastKey in q.cur;
  }

  /** So a continuation always extends an existing field, and no empty record is ever produced. */
  lemma {:induction false} StepsKeepSane(p: Parser, lines: seq<string>)
    requires Sane(p)
    ensures Sane(Steps(p, lines))
    decreases |lines|
  {
    if lines != [] {
      StepKeepsSane(p, DropCR(lines[0]));
      StepsKeepSane(Step(p, DropCR(lines[0])), lines[1..]);
    }
  }

  method Flush(records: seq<Record>, cur: Record, lastKey: string)
    returns (records': seq<Record>, cur': Record, lastKey': string)
    ensures Parser(records', cur', lastKey') == Flushed(Parser(records, cur, lastKey))
  {
    records', cur', lastKey' := records, cur, lastKey;
    if |cur| > 0 {
      records', cur', lastKey' := records + [cur], map[], "";
    }
  }

  method ParseLine(records: seq<Record>, cur: Record, lastKey: string, line: string)
    returns (records': seq<Record>, cur': Record, lastKey': string)
    requires Sane(Parser(records, cur, lastKey))
    ensures Parser(records', cur', lastKey') == Step(Parser(records, cur, lastKey), line)
  {
    records', cur', lastKey' := records, cur, lastKey;
    if line == "" {
      records', cur', lastKey' := Flush(records, cur, lastKey);
      return;
    }
    if line[0] == ' ' || line[0] == '\t' {
      if lastKey != "" {
        cur' := cur[lastKey := cur[lastKey] + "\n" + TrimSpace(line)];
      }
      return;
    }
    cur', lastKey' := ParseKey(records, cur, lastKey, line);
  }

  method ParseKey(ghost records: seq<Record>, cur: Record, lastKey: string, line: string)
    returns (cur': Record, lastKey': string)
    ensures Parser(records, cur', lastKey') == Keyed(Parser(records, cur, lastKey), line)
  {
    cur', lastKey' := cur, lastKey;
    var idx := IndexOf(line, ':');
    if idx <= 0 {
      return;
    }
    var key := line[..idx];
    cur' := cur[key := ValueAfter(line, idx)];
    lastKey' := key;
  }

  /** Parses what the reader yields, all of the document or, when `readFails`, what came before its error. */
  method ParseRfc822(doc: string, readFails: bool) returns (r: Result)
    ensures r == if readFails && Parsed(doc).Records? then ReadFailed else Parsed(doc)
  {
    var records: seq<Record>, cur: Record, lastKey := [], map[], "";
    var rest, tooLong := doc, false;
    while rest != "" && !tooLong
      invariant Sane(Parser(records, cur, lastKey))
      invariant tooLong ==> TooLong(RawLines(doc))
      invariant !tooLong ==> TooLong(RawLines(doc)) == TooLong(RawLines(rest))
      invariant !tooLong ==>
        Steps(START, RawLines(doc)) == Steps(Parser(records, cur, lastKey), RawLines(rest))
      decreases |rest|, !tooLong
    {
      var i := IndexOf(rest, '\n');
      var raw := if i < 0 then rest else rest[..i];
      FirstLine(Parser(records, cur, lastKey), rest);
      if |raw| >= MAX_LINE {
        tooLong := true;
      } else {
        StepKeepsSane(Parser(records, cur, lastKey), DropCR(raw));
        records, cur, lastKey := ParseLine(records, cur, lastKey, DropCR(raw));
        rest := if i < 0 then "" else rest[i + 1..];
      }
    }
    records, cur, lastKey := Flush(records, cur, lastKey);
    r := if tooLong then LineTooLong else if readFails then ReadFailed else Records(records);
  }

  /** The line the scanner delivers next, and what it leaves. */
  function NextLine(doc: string): (string, string)
    requires doc != ""
  {
    var i := IndexOf(doc, '\n');
    if i < 0 then (doc, "") else (doc[..i], doc[i + 1..])
  }

  lemma FirstLine(p: Parser, doc: string)
    requires doc != ""
    ensures var (raw, rest) := NextLine(doc);
      && (TooLong(RawLines(doc)) <==> |raw| >= MAX_LINE || TooLong(RawLines(rest)))
      && Steps(p, RawLines(doc)) == Steps(Step(p, DropCR(raw)), RawLines(rest))
  {
    var (raw, rest) := NextLine(doc);
    assert RawLines(doc) == [raw] + RawLines(rest);
    TooLongConcat([raw], RawLines(rest));
    TooLongSingle(raw);
    StepsConcat(p, [raw], RawLines(rest));
    assert [raw][1..] == [];
  }

  lemma TooLongSingle(raw: string)
    ensures TooLong([raw]) <==> |raw| >= MAX_LINE
  {
    assert [raw][0] == raw;
  }

  lemma TooLongConcat(a: seq<string>, b: seq<string>)
    ensures TooLong(a + b) <==> TooLong(a) || TooLong(b)
  {
    if TooLong(a) {
      var k :| 0 <= k < |a| && |a[k]| >= MAX_LINE;
      assert (a + b)[k] == a[k];
    } else if TooLong(b) {
      var k :| 0 <= k < |b| && |b[k]| >= MAX_LINE;
      assert (a + b)[|a| + k] == b[k];
    }
  }

  // ----- joining documents -----

  lemma {:induction false} StepsConcat(p: Parser, a: seq<string>, b: seq<string>)
    ensures Steps(p, a + b) == Steps(Steps(p, a), b)
    decreases |a|
  {
    if a == [] {
      assert a + b == b;
    } else {
      assert (a + b)[1..] == a[1..] + b;
      StepsConcat(Step(p, DropCR(a[0])), a[1..], b);
    }
  }

  function Prepend(records: seq<Record>, p: Parser): Parser {
    p.(records := records + p.records)
  }

  /** Earlier records do not influence later ones. */
  lemma {:induction false} StepsAfterRecords(records: seq<Record>, p: Parser, lines: seq<string>)
    ensures Steps(Prepend(records, p), lines) == Prepend(records, Steps(p, lines))
    decreases |lines|
  {
    if lines != [] {
      var line := DropCR(lines[0]);
      assert records + (p.records + [p.cur]) == records + p.records + [p.cur];
      assert Step(Prepend(records, p), line) == Prepend(records, Step(p, line));
      StepsAfterRecords(records, Step(p, line), lines[1..]);
    }
  }

  /** A blank line closes what is open, so parsing goes on as from the start. */
  lemma BlankSeparates(p: Parser, lines: seq<string>)
    requires Sane(p)
    ensures Flushed(Steps(p, [""] + lines)).records == Flushed(p).records + Flushed(Steps(START, lines)).records
  {
    var closed := Flushed(p);
    assert ([""] + lines)[1..] == lines;
    assert closed == Prepend(closed.records, START);
    StepsAfterRecords(closed.records, START, lines);
    var q := Steps(START, lines);
    assert closed.records + (q.records + [q.cur]) == closed.records + q.records + [q.cur];
  }

  predicate EndsLine(a: string) {
    a == "" || a[|a| - 1] == '\n'
  }

  lemma LinesSplitAt(doc: string, i: nat)
    requires i < |doc| && doc[i] == '\n' && '\n' !in doc[..i]
    ensures RawLines(doc) == [doc[..i]] + RawLines(doc[i + 1..])
  {
    IndexOfIs(doc, '\n', i);
  }

  function EndingBlank(a: string): seq<string> {
    if EndsLine(a) then [""] else []
  }

  lemma {:induction false} LinesJoin(a: string, b: string)
    ensures RawLines(a + "\n" + b) == RawLines(a) + EndingBlank(a) + RawLines(b)
    decreases |a|
  {
    var i := IndexOf(a, '\n');
    if i < 0 {
      LinesJoinLast(a, b);
    } else {
      var rest := a[i + 1..];
      LinesJoinFirst(a, b, i);
      LinesJoin(rest, b);
      JoinShape([a[..i]], RawLines(rest), EndingBlank(rest), RawLines(b));
    }
  }

  lemma LinesJoinLast(a: string, b: string)
    requires '\n' !in a
    ensures RawLines(a + "\n" + b) == [a] + RawLines(b) && [a] == RawLines(a) + EndingBlank(a)
  {
    var doc := a + "\n" + b;
    assert doc[..|a|] == a && doc[|a| + 1..] == b;
    LinesSplitAt(doc, |a|);
    assert a != "" ==> a[|a| - 1] in a;
  }

  lemma LinesJoinFirst(a: string, b: string, i: nat)
    requires i < |a| && a[i] == '\n' && '\n' !in a[..i]
    ensures RawLines(a + "\n" + b) == [a[..i]] + RawLines(a[i + 1..] + "\n" + b)
    ensures RawLines(a) == [a[..i]] + RawLines(a[i + 1..]) && EndingBlank(a) == EndingBlank(a[i + 1..])
  {
    CutJoined(a, b, i);
    LinesSplitAt(a + "\n" + b, i);
    LinesSplitAt(a, i);
  }

  lemma CutJoined(a: string, b: string, i: nat)
    requires i < |a|
    ensures var doc := a + "\n" + b;
      doc[i] == a[i] && doc[..i] == a[..i] && doc[i + 1..] == a[i + 1..] + "\n" + b
  {
  }

  lemma JoinShape(first: seq<string>, rest: seq<string>, blank: seq<string>, b: seq<string>)
    ensures first + (rest + blank + b) == (first + rest) + blank + b
  {
  }

  lemma BlankInFront(b: string)
    ensures RawLines("\n" + b) == [""] + RawLines(b)
  {
    var doc := "\n" + b;
    assert doc[..0] == "" && doc[1..] == b;
    LinesSplitAt(doc, 0);
  }

  lemma TwoNewlines(a: string, b: string)
    ensures a + "\n\n" + b == a + "\n" + ("\n" + b)
  {
  }

  lemma JoinedLines(a: string, b: string)
    ensures RawLines(a + "\n\n" + b) == RawLines(a) + (EndingBlank(a) + [""]) + RawLines(b)
  {
    TwoNewlines(a, b);
    BlankInFront(b);
    LinesJoin(a, "\n" + b);
    ShiftBlank(RawLines(a), EndingBlank(a), RawLines(b));
  }

  lemma ShiftBlank(x: seq<string>, blank: seq<string>, y: seq<string>)
    ensures x + blank + ([""] + y) == x + (blank + [""]) + y
  {
  }

  function JoinResults(a: Result, b: Result): Result {
    if a.Records? && b.Records? then Records(a.records + b.records) else LineTooLong
  }

  lemma BlanksJoin(x: seq<string>, blanks: seq<string>, y: seq<string>)
    requires blanks != [] && forall k :: 0 <= k < |blanks| ==> blanks[k] == ""
    ensures ParsedLines(x + blanks + y) == JoinResults(ParsedLines(x), ParsedLines(y))
  {
    TooLongConcat(x + blanks, y);
    TooLongConcat(x, blanks);
    BlanksAreShort(blanks);
    assert x + blanks + y == x + (blanks + y);
    StepsConcat(START, x, blanks + y);
    StepsKeepSane(START, x);
    BlanksSeparate(Steps(START, x), blanks, y);
  }

  /** Parsing two documents joined by a blank line is joining their parses. */
  lemma BlankLineJoins(a: string, b: string)
    ensures Parsed(a + "\n\n" + b) == JoinResults(Parsed(a), Parsed(b))
  {
    JoinedLines(a, b);
    BlanksJoin(RawLines(a), EndingBlank(a) + [""], RawLines(b));
  }

  lemma BlanksAreShort(blanks: seq<string>)
    requires forall k :: 0 <= k < |blanks| ==> blanks[k] == ""
    ensures !TooLong(blanks)
  {
  }

  lemma {:induction false} BlanksSeparate(p: Parser, blanks: seq<string>, lines: seq<string>)
    requires Sane(p) && blanks != [] && forall k :: 0 <= k < |blanks| ==> blanks[k] == ""
    ensures Flushed(Steps(p, blanks + lines)).records == Flushed(p).records + Flushed(Steps(START, lines)).records
    decreases |blanks|
  {
    FirstBlank(blanks, lines);
    BlankSeparates(p, blanks[1..] + lines);
    if |blanks| > 1 {
      BlanksSeparate(START, blanks[1..], lines);
    } else {
      assert blanks[1..] + lines == lines;
    }
  }

  lemma FirstBlank(blanks: seq<string>, lines: seq<string>)
    requires blanks != [] && blanks[0] == ""
    ensures blanks + lines == [""] + (blanks[1..] + lines)
  {
  }
}
