/** Writing records in the paragraph format, and reading them back (section 5.1 of the Debian Policy Manual). */
module Paragraphs {
  import opened Dpkg
  import opened Text

  /** A field as written: its first line and its continuation lines. */
  datatype Field = Field(key: string, first: string, more: seq<string>)

  predicate GoodLine(s: string) {
    Trimmed(s) && '\n' !in s
  }

  predicate GoodField(f: Field) {
    && f.key != "" && ':' !in f.key && '\n' !in f.key && f.key[0] != ' ' && f.key[0] != '\t'
    && GoodLine(f.first) && forall k :: 0 <= k < |f.more| ==> GoodLine(f.more[k])
  }

  predicate GoodRecord(fields: seq<Field>) {
    fields != [] && forall k :: 0 <= k < |fields| ==> GoodField(fields[k])
  }

  function Joined(first: string, more: seq<string>): string {
    if more == [] then first else Joined(first, more[..|more| - 1]) + "\n" + more[|more| - 1]
  }

  /** The record a list of fields stands for. */
  function RecordOf(fields: seq<Field>): Record {
    if fields == [] then map[]
    else
      var f := fields[|fields| - 1];
      RecordOf(fields[..|fields| - 1])[f.key := Joined(f.first, f.more)]
  }

  function RecordsOf(paragraphs: seq<seq<Field>>): seq<Record> {
    if paragraphs == [] then []
    else RecordsOf(paragraphs[..|paragraphs| - 1]) + [RecordOf(paragraphs[|paragraphs| - 1])]
  }

  // ----- writing -----

  function KeyLine(f: Field): string {
    f.key + ": " + f.first
  }

  function FieldLines(f: Field): seq<string> {
    [KeyLine(f)] + seq(|f.more|, k requires 0 <= k < |f.more| => " " + f.more[k])
  }

  function RecordLines(fields: seq<Field>): seq<string> {
    if fields == [] then [] else RecordLines(fields[..|fields| - 1]) + FieldLines(fields[|fields| - 1])
  }

  /** Every paragraph is followed by a blank line. */
  function AllLines(paragraphs: seq<seq<Field>>): seq<string> {
    if paragraphs == [] then []
    else AllLines(paragraphs[..|paragraphs| - 1]) + RecordLines(paragraphs[|paragraphs| - 1]) + [""]
  }

  function Document(lines: seq<string>): string {
    if lines == [] then "" else Document(lines[..|lines| - 1]) + lines[|lines| - 1] + "\n"
  }

  function Render(paragraphs: seq<seq<Field>>): string {
    Document(AllLines(paragraphs))
  }

  // ----- lines survive -----

  predicate Clean(line: string) {
    '\n' !in line && DropCR(line) == line
  }

  lemma {:induction false} DocumentLines(lines: seq<string>)
    requires forall k :: 0 <= k < |lines| ==> '\n' !in lines[k]
    ensures RawLines(Document(lines)) == lines && EndsLine(Document(lines))
  {
    if lines != [] {
      var init, last := lines[..|lines| - 1], lines[|lines| - 1];
      DocumentLines(init);
      AppendLine(Document(init), last);
    }
  }

  lemma AppendLine(doc: string, line: string)
    requires EndsLine(doc) && '\n' !in line
    ensures RawLines(doc + line + "\n") == RawLines(doc) + [line] && EndsLine(doc + line + "\n")
  {
    AppendShape(doc, line);
    LinesJoinLast(line, "");
    if doc != "" {
      AppendAfterNewline(doc[..|doc| - 1], line);
    }
  }

  lemma AppendAfterNewline(a: string, line: string)
    requires '\n' !in line
    ensures RawLines(a + "\n" + (line + "\n")) == RawLines(a + "\n" + "") + [line]
  {
    OneLine(line);
    LinesJoin(a, line + "\n");
    LinesJoin(a, "");
    assert RawLines("") == [];
  }

  lemma OneLine(line: string)
    requires '\n' !in line
    ensures RawLines(line + "\n") == [line]
  {
    LinesJoinLast(line, "");
    AppendShape("", line);
  }

  lemma AppendShape(doc: string, line: string)
    ensures line + "\n" == line + "\n" + "" && (doc == "" ==> doc + line + "\n" == line + "\n")
    ensures doc != "" && doc[|doc| - 1] == '\n' ==>
      var a := doc[..|doc| - 1]; doc == a + "\n" + "" && doc + line + "\n" == a + "\n" + (line + "\n")
  {
  }

  lemma CleanFieldLine(f: Field, k: nat)
    requires GoodField(f) && k < |FieldLines(f)|
    ensures Clean(FieldLines(f)[k]) && FieldLines(f)[k] != ""
  {
    var s := if k == 0 then f.first else f.more[k - 1];
    if s != "" {
      TrimmedEndsWithoutReturn(s);
    }
  }

  lemma {:induction false} CleanRecordLines(fields: seq<Field>)
    requires forall k :: 0 <= k < |fields| ==> GoodField(fields[k])
    ensures forall k :: 0 <= k < |RecordLines(fields)| ==> Clean(RecordLines(fields)[k])
  {
    if fields != [] {
      var f := fields[|fields| - 1];
      CleanRecordLines(fields[..|fields| - 1]);
      forall k | 0 <= k < |FieldLines(f)|
        ensures Clean(FieldLines(f)[k])
      {
        CleanFieldLine(f, k);
      }
    }
  }

  lemma {:induction false} CleanLines(paragraphs: seq<seq<Field>>)
    requires forall k :: 0 <= k < |paragraphs| ==> GoodRecord(paragraphs[k])
    ensures forall k :: 0 <= k < |AllLines(paragraphs)| ==> Clean(AllLines(paragraphs)[k])
  {
    if paragraphs != [] {
      CleanLines(paragraphs[..|paragraphs| - 1]);
      CleanRecordLines(paragraphs[|paragraphs| - 1]);
    }
  }

  // ----- reading -----

  lemma StepsSnoc(p: Parser, lines: seq<string>, line: string)
    requires Clean(line)
    ensures Steps(p, lines + [line]) == Step(Steps(p, lines), line)
  {
    StepsConcat(p, lines, [line]);
    assert [line][1..] == [];
  }

  lemma KeyLineShape(f: Field)
    requires GoodField(f)
    ensures var line := KeyLine(f);
      && line != "" && !Continues(line) && IndexOf(line, ':') == |f.key|
      && line[..|f.key|] == f.key && line[|f.key| + 1..] == " " + f.first
  {
    ColonSplits(f.key, f.first);
    ColonAt(KeyLine(f), f.key);
  }

  lemma ColonAt(line: string, key: string)
    requires key != "" && ':' !in key && key[0] != ' ' && key[0] != '\t'
    requires |line| > |key| && line[0] == key[0] && line[|key|] == ':' && line[..|key|] == key
    ensures !Continues(line) && IndexOf(line, ':') == |key|
  {
    IndexOfIs(line, ':', |key|);
  }

  lemma ColonSplits(key: string, rest: string)
    requires key != ""
    ensures var line := key + ": " + rest;
      && |line| > |key| && line[0] == key[0] && line[|key|] == ':'
      && line[..|key|] == key && line[|key| + 1..] == " " + rest
  {
  }

  lemma ReadKeyLine(p: Parser, f: Field)
    requires GoodField(f)
    ensures Step(p, KeyLine(f)) == Parser(p.records, p.cur[f.key := f.first], f.key)
  {
    KeyLineShape(f);
    TrimAfterBlank(f.first);
  }

  lemma ReadContinuation(p: Parser, l: string)
    requires GoodLine(l) && p.lastKey != "" && p.lastKey in p.cur
    ensures Step(p, " " + l) == p.(cur := p.cur[p.lastKey := p.cur[p.lastKey] + "\n" + l])
  {
    assert (" " + l)[0] == ' ';
    TrimAfterBlank(l);
  }

  lemma {:induction false} ReadField(p: Parser, f: Field)
    requires GoodField(f)
    ensures Steps(p, FieldLines(f)) == Parser(p.records, p.cur[f.key := Joined(f.first, f.more)], f.key)
    decreases |f.more|
  {
    if f.more == [] {
      CleanFieldLine(f, 0);
      assert FieldLines(f) == [] + [KeyLine(f)];
      StepsSnoc(p, [], KeyLine(f));
      ReadKeyLine(p, f);
    } else {
      var n := |f.more| - 1;
      var g := f.(more := f.more[..n]);
      ReadField(p, g);
      CleanFieldLine(f, n + 1);
      FieldLinesGrow(f);
      StepsSnoc(p, FieldLines(g), " " + f.more[n]);
      ReadContinuation(Steps(p, FieldLines(g)), f.more[n]);
      Overwrite(p.cur, f.key, Joined(g.first, g.more), Joined(f.first, f.more));
    }
  }

  lemma FieldLinesGrow(f: Field)
    requires f.more != []
    ensures var n := |f.more| - 1;
      FieldLines(f) == FieldLines(f.(more := f.more[..n])) + [" " + f.more[n]]
  {
  }

  lemma Overwrite(r: Record, key: string, a: string, b: string)
    ensures r[key := a][key := b] == r[key := b]
  {
  }

  lemma {:induction false} ReadRecord(p: Parser, fields: seq<Field>)
    requires GoodRecord(fields) && p.cur == map[]
    ensures var q := Steps(p, RecordLines(fields));
      q.records == p.records && q.cur == RecordOf(fields) && fields[|fields| - 1].key in q.cur
    decreases |fields|
  {
    var init, f := fields[..|fields| - 1], fields[|fields| - 1];
    StepsConcat(p, RecordLines(init), FieldLines(f));
    if init != [] {
      ReadRecord(p, init);
    }
    ReadField(Steps(p, RecordLines(init)), f);
  }

  lemma {:induction false} ReadAll(paragraphs: seq<seq<Field>>)
    requires forall k :: 0 <= k < |paragraphs| ==> GoodRecord(paragraphs[k])
    ensures Steps(START, AllLines(paragraphs)) == Parser(RecordsOf(paragraphs), map[], "")
  {
    if paragraphs != [] {
      var init, fields := paragraphs[..|paragraphs| - 1], paragraphs[|paragraphs| - 1];
      ReadAll(init);
      StepsConcat(START, AllLines(init), RecordLines(fields));
      ReadRecord(Steps(START, AllLines(init)), fields);
      StepsSnoc(START, AllLines(init) + RecordLines(fields), "");
    }
  }

  /** Written records are read back, however long their values are broken into lines. */
  lemma {:induction false} RoundTrip(paragraphs: seq<seq<Field>>)
    requires forall k :: 0 <= k < |paragraphs| ==> GoodRecord(paragraphs[k])
    ensures Parsed(Render(paragraphs))
            == if TooLong(AllLines(paragraphs)) then LineTooLong else Records(RecordsOf(paragraphs))
  {
    CleanLines(paragraphs);
    DocumentLines(AllLines(paragraphs));
    ReadAll(paragraphs);
  }

  // ----- every record has fields -----

  ghost predicate GoodEntry(key: string, value: string) {
    && key != "" && ':' !in key && '\n' !in key && key[0] != ' ' && key[0] != '\t'
    && forall k :: 0 <= k < |Split(value, '\n')| ==> Trimmed(Split(value, '\n')[k])
  }

  lemma {:induction false} JoinedCons(x: string, first: string, more: seq<string>)
    ensures Joined(x, [first] + more) == x + "\n" + Joined(first, more)
    decreases |more|
  {
    if more == [] {
      assert [first] + more == [] + [first];
      assert Joined(x, [first] + more) == Joined(x, []) + "\n" + first;
    } else {
      var init, last := more[..|more| - 1], more[|more| - 1];
      assert ([first] + more)[..|more|] == [first] + init;
      JoinedCons(x, first, init);
      assert x + "\n" + Joined(first, init) + "\n" + last == x + "\n" + (Joined(first, init) + "\n" + last);
    }
  }

  lemma {:induction false} JoinedPrefix(c: char, first: string, more: seq<string>)
    ensures Joined([c] + first, more) == [c] + Joined(first, more)
    decreases |more|
  {
    if more != [] {
      JoinedPrefix(c, first, more[..|more| - 1]);
      PrefixMoves([c], Joined(first, more[..|more| - 1]), "\n", more[|more| - 1]);
    }
  }

  lemma PrefixMoves(a: string, b: string, c: string, d: string)
    ensures (a + b) + c + d == a + (b + c + d)
  {
  }

  /** Splitting at newlines is undone by joining. */
  lemma {:induction false} SplitJoins(s: string)
    ensures Joined(Split(s, '\n')[0], Split(s, '\n')[1..]) == s
    ensures forall k :: 0 <= k < |Split(s, '\n')| ==> '\n' !in Split(s, '\n')[k]
    decreases |s|
  {
    if s != "" {
      var rest := Split(s[1..], '\n');
      SplitJoins(s[1..]);
      assert s == [s[0]] + s[1..];
      if s[0] == '\n' {
        JoinedCons("", rest[0], rest[1..]);
        assert rest == [rest[0]] + rest[1..];
      } else {
        JoinedPrefix(s[0], rest[0], rest[1..]);
      }
    }
  }

  function FieldOf(key: string, value: string): Field {
    Field(key, Split(value, '\n')[0], Split(value, '\n')[1..])
  }

  lemma FieldOfIsGood(key: string, value: string)
    requires GoodEntry(key, value)
    ensures GoodField(FieldOf(key, value)) && Joined(FieldOf(key, value).first, FieldOf(key, value).more) == value
  {
    SplitJoins(value);
  }

  /** Every record with well-formed keys and trimmed lines is the record of some list of fields. */
  lemma {:induction false} EveryRecordHasFields(r: Record) returns (fields: seq<Field>)
    requires forall key :: key in r ==> GoodEntry(key, r[key])
    ensures RecordOf(fields) == r && forall k :: 0 <= k < |fields| ==> GoodField(fields[k])
    decreases |r|
  {
    if r == map[] {
      fields := [];
    } else {
      assert r.Keys != {};
      var key :| key in r;
      assert (r - {key}).Keys == r.Keys - {key};
      var rest := EveryRecordHasFields(r - {key});
      FieldOfIsGood(key, r[key]);
      fields := rest + [FieldOf(key, r[key])];
      assert fields[..|rest|] == rest;
      assert r == (r - {key})[key := r[key]];
    }
  }
}
