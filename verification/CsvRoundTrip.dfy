/** Reading back what the writer has written, line by line. */
module CsvRoundTrips {
  import opened Wrappers
  import opened CsvDialects
  import opened CsvReaders
  import opened CsvScans
  import opened CsvWriters

  /** The dialects without an escape character in which fields can be told apart. */
  predicate Unescaped(d: Dialect) {
    && d.quoting != QuoteNone && d.quotechar.Some?
    && d.escapechar == None && !d.skipinitialspace
    && d.lineterminator == "\r\n"
    && d.delimiter != d.quotechar.value
    && !Newline(d.delimiter) && d.delimiter != '\0'
    && !Newline(d.quotechar.value) && d.quotechar.value != '\0'
  }

  /** Those in which every field can be written. */
  predicate Faithful(d: Dialect) {
    Unescaped(d) && d.doublequote
  }

  /** Without an escape character, a quote can be written only if it is doubled. */
  predicate Writable(d: Dialect, s: string)
    requires d.quotechar.Some?
  {
    d.doublequote || d.quotechar.value !in s
  }

  predicate RowWritable(d: Dialect, row: seq<Cell>)
    requires d.quotechar.Some?
  {
    forall i :: 0 <= i < |row| ==> Writable(d, Value(row[i]))
  }

  /** A field that fits the reader's limit and has no NUL in it. */
  predicate Readable(limit: int, c: Cell) {
    |Value(c)| <= limit && '\0' !in Value(c)
  }

  /** How far the first line of `text` goes, its newline included. */
  function LineLength(text: string): (n: nat)
    requires text != ""
    ensures 0 < n <= |text|
    ensures '\n' !in text[..n - 1]
    ensures n < |text| ==> text[n - 1] == '\n'
  {
    if text[0] == '\n' || |text| == 1 then 1 else 1 + LineLength(text[1..])
  }

  /** The lines that iterating over a file with contents `text` yields. */
  function SplitLines(text: string): seq<string> {
    if text == "" then [] else
    var n := LineLength(text);
    [text[..n]] + SplitLines(text[n..])
  }

  /** The automaton on `w`, with its end-of-line step after each `\n`; None if a record ends on the way. */
  function Feed(S: Setup, p: Parse, w: string): Option<Parse>
    decreases |w|
  {
    if w == "" then Some(p) else
    var r := S.Step(p, w[0]);
    if r.Err? then None
    else if w[0] != '\n' then Feed(S, r.value, w[1..])
    else
      var e := S.Eol(r.value);
      if e.Err? || e.value.state == StartRecord then None else Feed(S, e.value, w[1..])
  }

  /** The record that the automaton completes at a `\n` of `text`, and the text behind it. */
  function RecordAt(S: Setup, p: Parse, text: string): Option<(seq<string>, string)>
    decreases |text|
  {
    if text == "" then None else
    var r := S.Step(p, text[0]);
    if r.Err? then None
    else if text[0] != '\n' then RecordAt(S, r.value, text[1..])
    else
      var e := S.Eol(r.value);
      if e.Err? then None
      else if e.value.state == StartRecord then Some((e.value.fields, text[1..]))
      else RecordAt(S, e.value, text[1..])
  }

  lemma {:induction false} FeedThen(S: Setup, p: Parse, w: string, text: string)
    requires Feed(S, p, w).Some?
    ensures RecordAt(S, p, w + text) == RecordAt(S, Feed(S, p, w).value, text)
    decreases |w|
  {
    if w == "" {
      assert w + text == text;
    } else {
      assert (w + text)[1..] == w[1..] + text;
      var r := S.Step(p, w[0]).value;
      FeedThen(S, if w[0] == '\n' then S.Eol(r).value else r, w[1..], text);
    }
  }

  lemma FeedThenTwo(S: Setup, p: Parse, w: string, rest: string, end: string)
    requires Feed(S, p, w).Some?
    ensures RecordAt(S, p, w + rest + end) == RecordAt(S, Feed(S, p, w).value, rest + end)
  {
    assert w + rest + end == w + (rest + end);
    FeedThen(S, p, w, rest + end);
  }

  lemma {:induction false} FeedFeed(S: Setup, p: Parse, v: string, w: string)
    requires Feed(S, p, v).Some?
    ensures Feed(S, p, v + w) == Feed(S, Feed(S, p, v).value, w)
    decreases |v|
  {
    if v == "" {
      assert v + w == w;
    } else {
      assert (v + w)[1..] == v[1..] + w;
      var r := S.Step(p, v[0]).value;
      FeedFeed(S, if v[0] == '\n' then S.Eol(r).value else r, v[1..], w);
    }
  }

  /** Within a line the automaton takes no end-of-line step. */
  lemma {:induction false} RecordInLine(S: Setup, p: Parse, line: string, text: string)
    requires line != "" && '\n' !in line[..|line| - 1] && line[|line| - 1] == '\n'
    ensures RecordAt(S, p, line + text) ==
      var r := S.Run(p, line);
      if r.Err? then None else
      var e := S.Eol(r.value);
      if e.Err? then None
      else if e.value.state == StartRecord then Some((e.value.fields, text))
      else RecordAt(S, e.value, text)
    decreases |line|
  {
    assert (line + text)[1..] == line[1..] + text;
    var r := S.Step(p, line[0]);
    if |line| == 1 {
      assert line[1..] == "" && line[1..] + text == text;
    } else {
      assert line[..|line| - 1][0] == line[0];
      assert forall i :: 0 <= i < |line| - 2 ==> line[1..][i] == line[..|line| - 1][i + 1];
      if r.Ok? {
        RecordInLine(S, r.value, line[1..], text);
      }
    }
  }

  lemma {:induction false} NoRecordWithoutNewline(S: Setup, p: Parse, text: string)
    requires '\n' !in text
    ensures RecordAt(S, p, text) == None
    decreases |text|
  {
    if text != "" {
      assert forall i :: 0 <= i < |text| - 1 ==> text[1..][i] == text[i + 1];
      var r := S.Step(p, text[0]);
      if r.Ok? {
        NoRecordWithoutNewline(S, r.value, text[1..]);
      }
    }
  }

  /** A record that the automaton completes is the row that `next` returns. */
  lemma {:induction false} RecordIsNext(S: Setup, p: Parse, text: string)
    requires S.d.escapechar == None && '\0' !in text
    requires RecordAt(S, p, text).Some?
    ensures var (fields, rest) := RecordAt(S, p, text).value;
      S.Next(p, SplitLines(text)) == (Row(fields), SplitLines(rest))
    decreases |text|
  {
    var n := LineLength(text);
    var line, text' := text[..n], text[n..];
    assert text == line + text';
    if text[n - 1] != '\n' {
      NoRecordWithoutNewline(S, p, text);
    }
    assert line[..n - 1] == text[..n - 1];
    RecordInLine(S, p, line, text');
    LineRun(S, p, line);
    var e := S.Eol(S.Run(p, line).value).value;
    if e.state != StartRecord {
      RecordIsNext(S, e, text');
    }
  }

  lemma LineRun(S: Setup, p: Parse, line: string)
    requires S.d.escapechar == None
    ensures S.RunLine(p, line, 0) == S.Run(p, line)
  {
    assert line[0..] == line;
    NoEscapeNoSkip(S, p, line, 0);
    BatchIsCharwise(S, p, line, 0);
  }

  lemma FeedChar(S: Setup, p: Parse, c: char)
    ensures Feed(S, p, [c]) ==
      var r := S.Step(p, c);
      if r.Err? then None else if c != '\n' then Some(r.value) else
      var e := S.Eol(r.value);
      if e.Err? || e.value.state == StartRecord then None else Some(e.value)
  {
    assert [c][1..] == "";
  }

  lemma FeedQuotedChar(S: Setup, f: string, fs: seq<string>, c: char)
    requires Unescaped(S.d) && |f| + 1 <= S.limit && (S.d.doublequote || c != S.d.quotechar.value)
    ensures var q := S.d.quotechar.value;
      Feed(S, Parse(InQuotedField, f, fs), if c == q then [q, q] else [c]) == Some(Parse(InQuotedField, f + [c], fs))
  {
    FeedChar(S, Parse(InQuotedField, f, fs), c);
    if c == S.d.quotechar.value {
      FeedDoubled(S, f, fs, c);
    }
  }

  lemma FeedDoubled(S: Setup, f: string, fs: seq<string>, q: char)
    requires Unescaped(S.d) && S.d.doublequote && |f| + 1 <= S.limit && q == S.d.quotechar.value
    ensures Feed(S, Parse(InQuotedField, f, fs), [q, q]) == Some(Parse(InQuotedField, f + [q], fs))
  {
    var p := Parse(InQuotedField, f, fs);
    var p' := p.(state := QuoteInQuotedField);
    FeedChar(S, p, q);
    assert Feed(S, p, [q]) == Some(p');
    FeedChar(S, p', q);
    FeedFeed(S, p, [q], [q]);
    assert [q] + [q] == [q, q];
  }

  /** Inside quotes, a text with its quotes doubled leaves just the text, newlines and all. */
  lemma {:induction false} FeedQuoted(S: Setup, f: string, fs: seq<string>, s: string)
    requires Unescaped(S.d) && |f| + |s| <= S.limit && Writable(S.d, s)
    ensures var q := S.d.quotechar.value;
      Feed(S, Parse(InQuotedField, f, fs), Replace(s, q, [q, q])) == Some(Parse(InQuotedField, f + s, fs))
    decreases |s|
  {
    var q := S.d.quotechar.value;
    if s == "" {
      assert f + s == f;
    } else {
      var c := s[0];
      var w := if c == q then [q, q] else [c];
      var p := Parse(InQuotedField, f, fs);
      assert f + [c] + s[1..] == f + s;
      FeedQuotedChar(S, f, fs, c);
      FeedQuoted(S, f + [c], fs, s[1..]);
      FeedFeed(S, p, w, Replace(s[1..], q, [q, q]));
    }
  }

  /** Without quotes, a text that needs none is added as it stands. */
  lemma {:induction false} FeedPlain(S: Setup, f: string, fs: seq<string>, s: string)
    requires Unescaped(S.d) && |f| + |s| <= S.limit && !Special(S.d, s)
    ensures Feed(S, Parse(InField, f, fs), s) == Some(Parse(InField, f + s, fs))
    decreases |s|
  {
    if s == "" {
      assert f + s == f;
    } else {
      assert f + [s[0]] + s[1..] == f + s;
      NotSpecialTail(S.d, s);
      FeedPlain(S, f + [s[0]], fs, s[1..]);
    }
  }

  lemma NotSpecialTail(d: Dialect, s: string)
    requires d.lineterminator == "\r\n" && s != "" && !Special(d, s)
    ensures !Special(d, s[1..])
    ensures !Newline(s[0]) && s[0] != d.delimiter
  {
    assert "\r\n"[0] == '\r' && "\r\n"[1] == '\n';
    assert forall i :: 0 <= i < |s| - 1 ==> s[1..][i] == s[i + 1];
  }

  /** The parse has read the field `f` in full and awaits what ends it. */
  predicate Done(p: Parse, f: string, fs: seq<string>) {
    && p.field == f && p.fields == fs
    && (p.state == QuoteInQuotedField || p.state == InField ||
        (f == "" && (p.state == StartField || p.state == StartRecord)))
  }

  lemma {:induction false} ReplaceAbsent(s: string, c: char, r: string)
    requires c !in s
    ensures Replace(s, c, r) == s
  {
    if s != "" {
      assert forall i :: 0 <= i < |s| - 1 ==> s[1..][i] == s[i + 1];
      ReplaceAbsent(s[1..], c, r);
      assert [s[0]] + s[1..] == s;
    }
  }

  /** A field is written in quotes, with its quotes doubled, or else as it stands. */
  lemma FieldTextShape(d: Dialect, s: string, quoted: bool, quoteEmpty: bool)
    requires Unescaped(d) && Writable(d, s)
    ensures var q := d.quotechar.value;
      FieldText(d, s, quoted, quoteEmpty) ==
      if quoted || Special(d, s) || q in s || (s == "" && quoteEmpty) then Ok([q] + Replace(s, q, [q, q]) + [q])
      else Ok(s)
  {
    var q := d.quotechar.value;
    if q !in s {
      ReplaceAbsent(s, q, [q, q]);
    }
  }

  /** The state behind the closing quote of a field. */
  function Closed(d: Dialect): State {
    if d.doublequote then QuoteInQuotedField else InField
  }

  lemma FeedQuotedField(S: Setup, p: Parse, s: string)
    requires Unescaped(S.d) && |s| <= S.limit && Writable(S.d, s)
    requires p.field == "" && (p.state == StartField || p.state == StartRecord)
    ensures var q := S.d.quotechar.value;
      Feed(S, p, [q] + Replace(s, q, [q, q]) + [q]) == Some(Parse(Closed(S.d), s, p.fields))
  {
    var q := S.d.quotechar.value;
    var r := Replace(s, q, [q, q]);
    FeedChar(S, p, q);
    FeedQuoted(S, "", p.fields, s);
    assert "" + s == s;
    FeedFeed(S, p, [q], r);
    FeedFeed(S, p, [q] + r, [q]);
    FeedChar(S, Parse(InQuotedField, s, p.fields), q);
  }

  lemma FeedPlainField(S: Setup, p: Parse, s: string)
    requires Unescaped(S.d) && |s| <= S.limit && !Special(S.d, s) && S.d.quotechar.value !in s && s != ""
    requires p.field == "" && (p.state == StartField || p.state == StartRecord)
    ensures Feed(S, p, s) == Some(Parse(InField, s, p.fields))
  {
    NotSpecialTail(S.d, s);
    assert "" + [s[0]] == [s[0]] && [s[0]] + s[1..] == s;
    FeedChar(S, p, s[0]);
    FeedPlain(S, [s[0]], p.fields, s[1..]);
    FeedFeed(S, p, [s[0]], s[1..]);
  }

  /** A written field is read back, up to the character that ends it. */
  lemma FeedField(S: Setup, p: Parse, s: string, quoted: bool, quoteEmpty: bool)
    requires Unescaped(S.d) && |s| <= S.limit && Writable(S.d, s)
    requires p.field == "" && (p.state == StartField || p.state == StartRecord)
    ensures var t := FieldText(S.d, s, quoted, quoteEmpty);
      && t.Ok?
      && Feed(S, p, t.value).Some?
      && Done(Feed(S, p, t.value).value, s, p.fields)
      && (Feed(S, p, t.value).value.state == StartRecord ==> p.state == StartRecord && !quoteEmpty)
  {
    FieldTextShape(S.d, s, quoted, quoteEmpty);
    var q := S.d.quotechar.value;
    if quoted || Special(S.d, s) || q in s || (s == "" && quoteEmpty) {
      FeedQuotedField(S, p, s);
    } else if s != "" {
      FeedPlainField(S, p, s);
    }
  }

  function Values(row: seq<Cell>): (r: seq<string>)
    ensures |r| == |row| && forall i :: 0 <= i < |row| ==> r[i] == Value(row[i])
  {
    seq(|row|, i requires 0 <= i < |row| => Value(row[i]))
  }

  lemma ValuesCons(fs: seq<string>, row: seq<Cell>)
    requires row != []
    ensures Values(row) == [Value(row[0])] + Values(row[1..])
    ensures fs + Values(row) == fs + [Value(row[0])] + Values(row[1..])
  {
    var vs, rest := Values(row), Values(row[1..]);
    forall i | 0 <= i < |rest| ensures vs[i + 1] == rest[i] {
      assert row[1..][i] == row[i + 1];
    }
    OneMore(vs, rest, fs);
  }

  lemma OneMore(vs: seq<string>, rest: seq<string>, fs: seq<string>)
    requires |vs| == |rest| + 1 && forall i :: 0 <= i < |rest| ==> vs[i + 1] == rest[i]
    ensures vs == [vs[0]] + rest && fs + vs == fs + [vs[0]] + rest
  {
  }

  /** The end of a row closes the last field and the record. */
  lemma RecordEnds(S: Setup, p: Parse, f: string, fs: seq<string>, text: string)
    requires Unescaped(S.d) && Done(p, f, fs) && p.state != StartRecord
    ensures RecordAt(S, p, "\r\n" + text) == Some((fs + [f], text))
  {
    var e := Parse(EatCrnl, "", fs + [f]);
    assert S.Step(p, '\r') == Ok(e);
    assert ("\r\n" + text)[0] == '\r' && ("\r\n" + text)[1..] == "\n" + text;
    assert ("\n" + text)[0] == '\n' && ("\n" + text)[1..] == text;
    assert RecordAt(S, e, "\n" + text) == Some((fs + [f], text));
  }

  /** A delimiter and one more written field. */
  lemma FeedNextField(S: Setup, p: Parse, f: string, fs: seq<string>, s: string)
    requires Unescaped(S.d) && Done(p, f, fs) && |s| <= S.limit && Writable(S.d, s)
    ensures var t := FieldText(S.d, s, S.d.quoting == QuoteAll, false);
      t.Ok? &&
      var q := Feed(S, p, [S.d.delimiter] + t.value);
      q.Some? && Done(q.value, s, fs + [f]) && q.value.state != StartRecord
  {
    var del := [S.d.delimiter];
    var p0 := Parse(StartField, "", fs + [f]);
    FeedChar(S, p, S.d.delimiter);
    assert Feed(S, p, del) == Some(p0);
    FeedField(S, p0, s, S.d.quoting == QuoteAll, false);
    FeedFeed(S, p, del, FieldText(S.d, s, S.d.quoting == QuoteAll, false).value);
  }

  /** The remaining fields of a row, each behind a delimiter, complete the record. */
  lemma {:induction false} RecordTail(S: Setup, p: Parse, f: string, fs: seq<string>, row: seq<Cell>,
                                      end: string, text: string)
    requires Unescaped(S.d) && Done(p, f, fs) && (row == [] ==> p.state != StartRecord) && RowWritable(S.d, row)
    requires forall i :: 0 <= i < |row| ==> Readable(S.limit, row[i])
    requires end == "\r\n" + text
    ensures var j := JoinedFrom(S.d, row, false, false);
      j.Ok? && RecordAt(S, p, j.value + end) == Some((fs + [f] + Values(row), text))
    decreases |row|
  {
    if row == [] {
      assert "" + end == end;
      assert fs + [f] + Values(row) == fs + [f];
      RecordEnds(S, p, f, fs, text);
    } else {
      var s := Value(row[0]);
      FeedNextField(S, p, f, fs, s);
      var t := [S.d.delimiter] + FieldText(S.d, s, S.d.quoting == QuoteAll, false).value;
      RecordTail(S, Feed(S, p, t).value, s, fs + [f], row[1..], end, text);
      var rest := JoinedFrom(S.d, row[1..], false, false).value;
      FeedThenTwo(S, p, t, rest, end);
      ValuesCons(fs + [f], row);
    }
  }

  lemma RecordEmptyRow(S: Setup, text: string)
    requires Unescaped(S.d)
    ensures RecordAt(S, INITIAL, "\r\n" + text) == Some(([], text))
  {
    var e := Parse(EatCrnl, "", []);
    assert ("\r\n" + text)[0] == '\r' && ("\r\n" + text)[1..] == "\n" + text;
    assert ("\n" + text)[0] == '\n' && ("\n" + text)[1..] == text;
    assert S.Step(INITIAL, '\r') == Ok(e);
    assert RecordAt(S, e, "\n" + text) == Some(([], text));
  }

  /** A written row completes the record of its values. */
  lemma RecordRow(S: Setup, row: seq<Cell>, text: string)
    requires Unescaped(S.d) && RowWritable(S.d, row)
    requires forall i :: 0 <= i < |row| ==> Readable(S.limit, row[i])
    ensures var j := RowText(S.d, row);
      j.Ok? && RecordAt(S, INITIAL, j.value + text) == Some((Values(row), text))
  {
    var end := "\r\n" + text;
    if row == [] {
      assert "" + S.d.lineterminator + text == end;
      RecordEmptyRow(S, text);
    } else {
      RecordFirst(S, row, end, text);
      var joined := JoinedFrom(S.d, row, true, |row| == 1).value;
      assert joined + S.d.lineterminator + text == joined + end;
    }
  }

  /** Only in rows of one field are empty fields quoted. */
  lemma JoinedFirst(d: Dialect, row: seq<Cell>)
    requires Unescaped(d) && row != []
    ensures var t := FieldText(d, Value(row[0]), d.quoting == QuoteAll, |row| == 1);
      var rest := JoinedFrom(d, row[1..], false, false);
      t.Ok? && rest.Ok? ==> JoinedFrom(d, row, true, |row| == 1) == Ok(t.value + rest.value)
  {
    var t := FieldText(d, Value(row[0]), d.quoting == QuoteAll, |row| == 1);
    if t.Ok? {
      assert "" + t.value == t.value;
    }
  }

  lemma RecordFirst(S: Setup, row: seq<Cell>, end: string, text: string)
    requires Unescaped(S.d) && row != [] && end == "\r\n" + text && RowWritable(S.d, row)
    requires forall i :: 0 <= i < |row| ==> Readable(S.limit, row[i])
    ensures var j := JoinedFrom(S.d, row, true, |row| == 1);
      j.Ok? && RecordAt(S, INITIAL, j.value + end) == Some((Values(row), text))
  {
    var s := Value(row[0]);
    FeedField(S, INITIAL, s, S.d.quoting == QuoteAll, |row| == 1);
    var t := FieldText(S.d, s, S.d.quoting == QuoteAll, |row| == 1).value;
    var p := Feed(S, INITIAL, t).value;
    ValuesCons([], row);
    assert [] + [s] == [s];
    RecordTail(S, p, s, [], row[1..], end, text);
    JoinedFirst(S.d, row);
    FeedThenTwo(S, INITIAL, t, JoinedFrom(S.d, row[1..], false, false).value, end);
  }

  function AllValues(rows: seq<seq<Cell>>): (r: seq<seq<string>>)
    ensures |r| == |rows| && forall i :: 0 <= i < |rows| ==> r[i] == Values(rows[i])
  {
    seq(|rows|, i requires 0 <= i < |rows| => Values(rows[i]))
  }

  lemma AllValuesCons(rows: seq<seq<Cell>>)
    requires rows != []
    ensures AllValues(rows) == [Values(rows[0])] + AllValues(rows[1..])
  {
    var vs, rest := AllValues(rows), AllValues(rows[1..]);
    forall i | 0 <= i < |rest| ensures vs[i + 1] == rest[i] {
      assert rows[1..][i] == rows[i + 1];
    }
    assert vs == [vs[0]] + rest;
  }

  predicate AllReadable(limit: int, rows: seq<seq<Cell>>) {
    forall i, j :: 0 <= i < |rows| && 0 <= j < |rows[i]| ==> Readable(limit, rows[i][j])
  }

  /** How many rows come before the first one with a field that cannot be written. */
  function WritableRows(d: Dialect, rows: seq<seq<Cell>>): (k: nat)
    requires d.quotechar.Some?
    ensures k <= |rows| && forall i :: 0 <= i < k ==> RowWritable(d, rows[i])
    ensures k < |rows| ==> !RowWritable(d, rows[k])
  {
    if rows == [] || !RowWritable(d, rows[0]) then 0 else 1 + WritableRows(d, rows[1..])
  }

  /** A field with a quote that is not doubled is an error, and no other one is. */
  lemma {:induction false} JoinedFails(d: Dialect, row: seq<Cell>, first: bool, quoteEmpty: bool)
    requires Unescaped(d)
    ensures var j := JoinedFrom(d, row, first, quoteEmpty);
      if RowWritable(d, row) then j.Ok? else j == Err(NoEscapechar)
    decreases |row|
  {
    if row != [] {
      FieldFails(d, Value(row[0]), d.quoting == QuoteAll, quoteEmpty);
      JoinedFails(d, row[1..], false, quoteEmpty);
      assert forall i :: 0 < i < |row| ==> row[i] == row[1..][i - 1];
    }
  }

  lemma FieldFails(d: Dialect, s: string, quoted: bool, quoteEmpty: bool)
    requires Unescaped(d)
    ensures var t := FieldText(d, s, quoted, quoteEmpty);
      if Writable(d, s) then t.Ok? else t == Err(NoEscapechar)
  {
    if Writable(d, s) {
      FieldTextShape(d, s, quoted, quoteEmpty);
    }
  }

  /**
   Without an escape character, rows can be written up to the first one with a quote that is not
   doubled, which is an error, and what was written is read back: any number of rows, of any
   fields without NUL that fit the reader's limit.
   */
  lemma {:induction false} RoundTripUnescaped(S: Setup, rows: seq<seq<Cell>>)
    requires Unescaped(S.d) && AllReadable(S.limit, rows)
    ensures var (text, r) := RowsText(S.d, rows);
      var k := WritableRows(S.d, rows);
      && r == (if k == |rows| then Ok(()) else Err(NoEscapechar))
      && S.ReadAll(SplitLines(text)) == Ok(AllValues(rows[..k]))
    decreases |rows|
  {
    if rows == [] || !RowWritable(S.d, rows[0]) {
      NothingWritten(S, rows);
    } else {
      ReadableRest(S.limit, rows);
      RoundTripUnescaped(S, rows[1..]);
      RoundTripStep(S, rows, WritableRows(S.d, rows[1..]));
    }
  }

  lemma NothingWritten(S: Setup, rows: seq<seq<Cell>>)
    requires Unescaped(S.d) && (rows == [] || !RowWritable(S.d, rows[0]))
    ensures RowsText(S.d, rows) == ("", if rows == [] then Ok(()) else Err(NoEscapechar))
    ensures AllValues(rows[..0]) == [] && S.ReadAll(SplitLines("")) == Ok([])
  {
    if rows != [] {
      JoinedFails(S.d, rows[0], true, |rows[0]| == 1);
    }
  }

  lemma ReadableRest(limit: int, rows: seq<seq<Cell>>)
    requires AllReadable(limit, rows) && rows != []
    ensures AllReadable(limit, rows[1..])
  {
    assert forall i :: 0 <= i < |rows| - 1 ==> rows[1..][i] == rows[i + 1];
  }

  /** One row more in front. */
  lemma RoundTripStep(S: Setup, rows: seq<seq<Cell>>, k: nat)
    requires Unescaped(S.d) && AllReadable(S.limit, rows) && rows != [] && RowWritable(S.d, rows[0])
    requires k < |rows| && S.ReadAll(SplitLines(RowsText(S.d, rows[1..]).0)) == Ok(AllValues(rows[1..][..k]))
    ensures RowsText(S.d, rows).1 == RowsText(S.d, rows[1..]).1
    ensures S.ReadAll(SplitLines(RowsText(S.d, rows).0)) == Ok(AllValues(rows[..k + 1]))
  {
    var text := RowsText(S.d, rows[1..]).0;
    RecordRow(S, rows[0], text);
    NoNulInRows(S, rows);
    RecordIsNext(S, INITIAL, RowText(S.d, rows[0]).value + text);
    assert rows[..k + 1][1..] == rows[1..][..k];
    AllValuesCons(rows[..k + 1]);
  }

  /** In a faithful dialect all rows are written and read back. */
  lemma RoundTrip(S: Setup, rows: seq<seq<Cell>>)
    requires Faithful(S.d) && AllReadable(S.limit, rows)
    ensures var (text, r) := RowsText(S.d, rows);
      r == Ok(()) && S.ReadAll(SplitLines(text)) == Ok(AllValues(rows))
  {
    RoundTripUnescaped(S, rows);
    var k := WritableRows(S.d, rows);
    assert k == |rows| && rows[..k] == rows;
  }

  lemma {:induction false} NoNulInRows(S: Setup, rows: seq<seq<Cell>>)
    requires Unescaped(S.d) && AllReadable(S.limit, rows)
    ensures '\0' !in RowsText(S.d, rows).0
    decreases |rows|
  {
    if rows != [] {
      ReadableRest(S.limit, rows);
      NoNulInRow(S, rows[0], true, |rows[0]| == 1);
      NoNulInRows(S, rows[1..]);
      assert '\0' !in "\r\n";
    }
  }

  lemma {:induction false} NoNulInRow(S: Setup, row: seq<Cell>, first: bool, quoteEmpty: bool)
    requires Unescaped(S.d)
    requires forall i :: 0 <= i < |row| ==> Readable(S.limit, row[i])
    ensures var j := JoinedFrom(S.d, row, first, quoteEmpty); j.Ok? ==> '\0' !in j.value
    decreases |row|
  {
    if row != [] {
      var s := Value(row[0]);
      if Writable(S.d, s) {
        FieldTextShape(S.d, s, S.d.quoting == QuoteAll, quoteEmpty);
        NoNulInReplace(s, S.d.quotechar.value);
      } else {
        FieldFails(S.d, s, S.d.quoting == QuoteAll, quoteEmpty);
      }
      NoNulInRow(S, row[1..], false, quoteEmpty);
    }
  }

  lemma {:induction false} NoNulInReplace(s: string, q: char)
    requires '\0' !in s && q != '\0'
    ensures '\0' !in Replace(s, q, [q, q])
  {
    if s != "" {
      assert forall i :: 0 <= i < |s| - 1 ==> s[1..][i] == s[i + 1];
      NoNulInReplace(s[1..], q);
    }
  }

  /** Writer and reader objects end to end: what is written is what is read. */
  method WriteAndRead(S: Setup, rows: seq<seq<Cell>>) returns (r: Result<seq<seq<string>>, Error>)
    requires Faithful(S.d) && AllReadable(S.limit, rows)
    ensures r == Ok(AllValues(rows))
  {
    RoundTrip(S, rows);
    var w := new Writer(S.d);
    var written := w.WriteRows(rows);
    var text := RowsText(S.d, rows).0;
    assert "" + text == text;
    r := ReadRows(S, SplitLines(w.written));
  }
}
