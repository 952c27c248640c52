/** Reading back what was written when the dialect has an escape character. */
module CsvEscapes {
  import opened Wrappers
  import opened CsvDialects
  import opened CsvReaders
  import opened CsvScans
  import opened CsvWriters
  import opened CsvRoundTrips

  /** Dialects that are faithful but for an escape character of their own. */
  predicate FaithfulBut(d: Dialect, e: char) {
    && CsvRoundTrips.Faithful(d.(escapechar := None)) && d.escapechar == Some(e)
    && e != d.delimiter && Some(e) != d.quotechar && !Newline(e) && e != '\0'
  }

  /** The same setup without the escape character. */
  function Plain(S: Setup): Setup {
    S.(d := S.d.(escapechar := None))
  }

  // Where the escape character does not occur, it makes no difference to the reader.

  lemma StepSame(S: Setup, e: char, p: Parse, c: char)
    requires S.d.escapechar == Some(e) && c != e
    ensures S.Step(p, c) == Plain(S).Step(p, c)
  {
  }

  lemma {:induction false} SpanSame(S: Setup, e: char, line: string, pos: nat)
    requires S.d.escapechar == Some(e) && e !in line && pos <= |line|
    ensures S.Span(line, pos) == Plain(S).Span(line, pos)
    decreases |line| - pos
  {
    if pos < |line| && S.Ordinary(line[pos]) {
      SpanSame(S, e, line, pos + 1);
    }
  }

  lemma ProcessSame(S: Setup, e: char, p: Parse, line: string, pos: nat)
    requires S.d.escapechar == Some(e) && e !in line && pos < |line|
    ensures S.Process(p, line, pos) == Plain(S).Process(p, line, pos)
  {
    if p.state == InField {
      SpanSame(S, e, line, pos);
    } else {
      StepSame(S, e, p, line[pos]);
    }
  }

  lemma {:induction false} RunLineSame(S: Setup, e: char, p: Parse, line: string, pos: nat)
    requires S.d.escapechar == Some(e) && e !in line && pos <= |line|
    ensures S.RunLine(p, line, pos) == Plain(S).RunLine(p, line, pos)
    decreases |line| - pos
  {
    if pos < |line| {
      ProcessSame(S, e, p, line, pos);
      var r := S.Process(p, line, pos);
      if r.Ok? {
        RunLineSame(S, e, r.value.0, line, r.value.1);
      }
    }
  }

  lemma {:induction false} NextSame(S: Setup, e: char, p: Parse, used: seq<string>, rest: seq<string>)
    requires S.d.escapechar == Some(e) && forall i :: 0 <= i < |used| ==> e !in used[i]
    requires Plain(S).Next(p, used + rest).1 == rest && used != []
    ensures S.Next(p, used + rest) == Plain(S).Next(p, used + rest)
    decreases |used|
  {
    var line, tail := used[0], used[1..] + rest;
    assert used + rest == [line] + tail;
    var r := S.RunLine(p, line, 0);
    RunLineSame(S, e, p, line, 0);
    if '\0' !in line && r.Ok? && S.Eol(r.value).Ok? && S.Eol(r.value).value.state != StartRecord {
      var q := S.Eol(r.value).value;
      NextLater(Plain(S), p, line, tail, q);
      NextLater(S, p, line, tail, q);
      MoreUsed(S, q, used, rest);
      if used[1..] != [] {
        NextSame(S, e, q, used[1..], rest);
      }
    } else {
      NextHere(S, p, line, tail);
    }
  }

  /** A line that does not end a record. */
  lemma NextLater(S: Setup, p: Parse, line: string, tail: seq<string>, q: Parse)
    requires '\0' !in line && S.RunLine(p, line, 0).Ok? && S.Eol(S.RunLine(p, line, 0).value) == Ok(q)
    requires q.state != StartRecord
    ensures S.Next(p, [line] + tail) == S.Next(q, tail)
  {
    assert ([line] + tail)[1..] == tail;
  }

  /** A line that ends a record or has an error. */
  lemma NextHere(S: Setup, p: Parse, line: string, tail: seq<string>)
    requires S.RunLine(p, line, 0) == Plain(S).RunLine(p, line, 0)
    requires var r := S.RunLine(p, line, 0);
      !('\0' !in line && r.Ok? && S.Eol(r.value).Ok? && S.Eol(r.value).value.state != StartRecord)
    ensures S.Next(p, [line] + tail) == Plain(S).Next(p, [line] + tail)
  {
    assert ([line] + tail)[1..] == tail;
  }

  lemma MoreUsed(S: Setup, q: Parse, used: seq<string>, rest: seq<string>)
    requires used != [] && Plain(S).Next(q, used[1..] + rest).1 == rest
    ensures used[1..] == [] ==> S.Next(q, used[1..] + rest) == Plain(S).Next(q, used[1..] + rest)
  {
    if used[1..] == [] {
      assert used[1..] + rest == rest;
      NextShrinks(Plain(S), q, rest);
    }
  }

  lemma NextShrinks(S: Setup, p: Parse, lines: seq<string>)
    ensures lines != [] ==> S.Next(p, lines).1 != lines
    ensures lines == [] ==> !S.Next(p, lines).0.Row?
  {
  }

  // How often the escape character occurs, in what is written and in what is read.

  ghost function Count(s: string, e: char): nat {
    if s == "" then 0 else (if s[0] == e then 1 else 0) + Count(s[1..], e)
  }

  lemma {:induction false} CountOf(s: string, t: string, e: char)
    ensures Count(s + t, e) == Count(s, e) + Count(t, e)
  {
    if s == "" {
      assert s + t == t;
    } else {
      assert (s + t)[1..] == s[1..] + t;
      CountOf(s[1..], t, e);
    }
  }

  lemma CountChar(c: char, e: char)
    ensures Count([c], e) == if c == e then 1 else 0
  {
    assert [c][1..] == "";
  }

  lemma {:induction false} CountIff(s: string, e: char)
    ensures Count(s, e) == 0 <==> e !in s
  {
    if s != "" {
      CountIff(s[1..], e);
      assert s == [s[0]] + s[1..];
    }
  }

  ghost function CountAll(ss: seq<string>, e: char): nat {
    if ss == [] then 0 else CountAll(ss[..|ss| - 1], e) + Count(ss[|ss| - 1], e)
  }

  lemma {:induction false} CountAllOf(ss: seq<string>, ts: seq<string>, e: char)
    ensures CountAll(ss + ts, e) == CountAll(ss, e) + CountAll(ts, e)
  {
    if ts == [] {
      assert ss + ts == ss;
    } else {
      assert (ss + ts)[..|ss + ts| - 1] == ss + ts[..|ts| - 1];
      CountAllOf(ss, ts[..|ts| - 1], e);
    }
  }

  lemma CountOne(s: string, e: char)
    ensures CountAll([s], e) == Count(s, e)
  {
    assert [s][..0] == [];
  }

  ghost function CountRows(rows: seq<seq<string>>, e: char): nat {
    if rows == [] then 0 else CountAll(rows[0], e) + CountRows(rows[1..], e)
  }

  lemma {:induction false} CountReplace(s: string, q: char, e: char)
    requires q != e
    ensures Count(Replace(s, q, [q, q]), e) == Count(s, e)
  {
    if s != "" {
      var first := if s[0] == q then [q, q] else [s[0]];
      CountReplace(s[1..], q, e);
      CountOf(first, Replace(s[1..], q, [q, q]), e);
      CountOf([q], [q], e);
      CountChar(q, e);
      CountChar(s[0], e);
      assert [q] + [q] == [q, q];
    }
  }

  /** A field with the escape character is written in quotes, but the character is not escaped. */
  lemma FieldShape(S: Setup, e: char, s: string, quoted: bool, quoteEmpty: bool)
    requires FaithfulBut(S.d, e)
    ensures FieldText(S.d, s, quoted, quoteEmpty) == FieldText(Plain(S).d, s, quoted || e in s, quoteEmpty)
  {
    assert Special(S.d, s) <==> Special(Plain(S).d, s) || e in s;
  }

  lemma CountField(S: Setup, e: char, s: string, quoted: bool, quoteEmpty: bool)
    requires FaithfulBut(S.d, e)
    ensures var t := FieldText(S.d, s, quoted, quoteEmpty); t.Ok? && Count(t.value, e) == Count(s, e)
  {
    var q := S.d.quotechar.value;
    FieldShape(S, e, s, quoted, quoteEmpty);
    FieldTextShape(Plain(S).d, s, quoted || e in s, quoteEmpty);
    CountReplace(s, q, e);
    CountChar(q, e);
    CountOf([q], Replace(s, q, [q, q]), e);
    CountOf([q] + Replace(s, q, [q, q]), [q], e);
  }

  lemma {:induction false} CountJoined(S: Setup, e: char, row: seq<Cell>, first: bool, quoteEmpty: bool)
    requires FaithfulBut(S.d, e)
    ensures var t := JoinedFrom(S.d, row, first, quoteEmpty);
      t.Ok? && Count(t.value, e) == CountAll(Values(row), e)
    decreases |row|
  {
    if row != [] {
      var s := Value(row[0]);
      CountField(S, e, s, S.d.quoting == QuoteAll, quoteEmpty);
      CountJoined(S, e, row[1..], false, quoteEmpty);
      var before := if first then "" else [S.d.delimiter];
      var t := FieldText(S.d, s, S.d.quoting == QuoteAll, quoteEmpty).value;
      CountChar(S.d.delimiter, e);
      CountThree(before, t, JoinedFrom(S.d, row[1..], false, quoteEmpty).value, e);
      CountValues(row, e);
    }
  }

  lemma CountThree(s: string, t: string, u: string, e: char)
    ensures Count(s + t + u, e) == Count(s, e) + Count(t, e) + Count(u, e)
  {
    CountOf(s, t, e);
    CountOf(s + t, u, e);
  }

  lemma CountValues(row: seq<Cell>, e: char)
    requires row != []
    ensures CountAll(Values(row), e) == Count(Value(row[0]), e) + CountAll(Values(row[1..]), e)
  {
    ValuesCons([], row);
    CountAllOf([Value(row[0])], Values(row[1..]), e);
    CountOne(Value(row[0]), e);
  }

  lemma CountRow(S: Setup, e: char, row: seq<Cell>)
    requires FaithfulBut(S.d, e)
    ensures RowText(S.d, row).Ok? && Count(RowText(S.d, row).value, e) == CountAll(Values(row), e)
  {
    CountJoined(S, e, row, true, |row| == 1);
    CountOf(JoinedFrom(S.d, row, true, |row| == 1).value, S.d.lineterminator, e);
    CountIff("\r\n", e);
  }

  /** The writer writes every escape character of the fields, and no other. */
  lemma {:induction false} CountWritten(S: Setup, e: char, rows: seq<seq<Cell>>)
    requires FaithfulBut(S.d, e)
    ensures var (text, r) := RowsText(S.d, rows);
      r == Ok(()) && Count(text, e) == CountRows(AllValues(rows), e)
    decreases |rows|
  {
    if rows != [] {
      CountRow(S, e, rows[0]);
      CountWritten(S, e, rows[1..]);
      CountOf(RowText(S.d, rows[0]).value, RowsText(S.d, rows[1..]).0, e);
      assert AllValues(rows)[1..] == AllValues(rows[1..]);
    }
  }

  // Reading never makes more of them.

  ghost function Weight(p: Parse, e: char): nat {
    CountAll(p.fields, e) + Count(p.field, e)
  }

  /** What one step can do to field and fields: nothing, save the field, or add the character to it. */
  predicate Moves(p: Parse, q: Parse, s: string) {
    || (q.field == p.field && q.fields == p.fields)
    || (q.field == "" && q.fields == p.fields + [p.field])
    || (q.field == p.field + s && q.fields == p.fields)
  }

  lemma MovesWeight(e: char, p: Parse, q: Parse, s: string)
    requires Moves(p, q, s)
    ensures Weight(q, e) <= Weight(p, e) + Count(s, e)
  {
    CountOf(p.field, s, e);
    assert (p.fields + [p.field])[..|p.fields|] == p.fields;
  }

  lemma StepMoves(S: Setup, p: Parse, c: char)
    ensures S.Step(p, c).Ok? ==> Moves(p, S.Step(p, c).value, [c])
  {
  }

  lemma EolMoves(S: Setup, p: Parse)
    ensures S.Eol(p).Ok? ==> Moves(p, S.Eol(p).value, "\n")
  {
  }

  lemma EolWeight(S: Setup, e: char, p: Parse)
    requires e != '\n' && S.Eol(p).Ok?
    ensures Weight(S.Eol(p).value, e) <= Weight(p, e)
  {
    EolMoves(S, p);
    MovesWeight(e, p, S.Eol(p).value, "\n");
    CountIff("\n", e);
  }

  /** A scan adds a part of the text that it passes, and may save the field then. */
  lemma ScanMoves(S: Setup, p: Parse, line: string, pos: nat) returns (m: Parse, mid: nat)
    requires pos < |line| && S.Scan(p, line, pos).Ok?
    ensures var (q, next) := S.Scan(p, line, pos).value;
      pos <= mid <= next <= |line| && Moves(p, m, line[pos..mid]) && Moves(m, q, "")
  {
    var k := S.Span(line, pos);
    var stop := pos + k;
    if stop < |line| && Some(line[stop]) == S.d.escapechar && !Newline(line[stop]) {
      mid := if k > 1 then stop - 1 else pos;
    } else {
      mid := stop;
    }
    m := p.(field := p.field + line[pos..mid]);
    assert p.field + "" == p.field && line[pos..pos] == "";
  }

  lemma ScanWeight(S: Setup, e: char, p: Parse, line: string, pos: nat)
    requires pos < |line| && S.Scan(p, line, pos).Ok?
    ensures var (q, next) := S.Scan(p, line, pos).value;
      Weight(q, e) <= Weight(p, e) + Count(line[pos..next], e)
  {
    var (q, next) := S.Scan(p, line, pos).value;
    var m, mid := ScanMoves(S, p, line, pos);
    MovesWeight(e, p, m, line[pos..mid]);
    MovesWeight(e, m, q, "");
    assert line[pos..next] == line[pos..mid] + line[mid..next];
    CountOf(line[pos..mid], line[mid..next], e);
  }

  lemma ProcessWeight(S: Setup, e: char, p: Parse, line: string, pos: nat)
    requires pos < |line| && S.Process(p, line, pos).Ok?
    ensures var (q, next) := S.Process(p, line, pos).value;
      Weight(q, e) <= Weight(p, e) + Count(line[pos..next], e)
  {
    var (q, next) := S.Process(p, line, pos).value;
    if p.state == InField {
      ScanWeight(S, e, p, line, pos);
    } else {
      StepMoves(S, p, line[pos]);
      MovesWeight(e, p, q, [line[pos]]);
      assert line[pos..next] == [line[pos]];
    }
  }

  lemma {:induction false} RunLineWeight(S: Setup, e: char, p: Parse, line: string, pos: nat)
    requires pos <= |line| && S.RunLine(p, line, pos).Ok?
    ensures Weight(S.RunLine(p, line, pos).value, e) <= Weight(p, e) + Count(line[pos..], e)
    decreases |line| - pos
  {
    if pos < |line| {
      var (q, next) := S.Process(p, line, pos).value;
      ProcessWeight(S, e, p, line, pos);
      RunLineWeight(S, e, q, line, next);
      assert line[pos..] == line[pos..next] + line[next..];
      CountOf(line[pos..next], line[next..], e);
    }
  }

  ghost function CountLines(lines: seq<string>, e: char): nat {
    if lines == [] then 0 else Count(lines[0], e) + CountLines(lines[1..], e)
  }

  /** What a record has and what is left to read is no more than there was. */
  lemma {:induction false} NextWeight(S: Setup, e: char, p: Parse, lines: seq<string>)
    requires e != '\n'
    ensures var (item, rest) := S.Next(p, lines);
      item.Row? ==> CountAll(item.fields, e) + CountLines(rest, e) <= Weight(p, e) + CountLines(lines, e)
    decreases |lines|
  {
    if lines != [] && '\0' !in lines[0] && S.RunLine(p, lines[0], 0).Ok? {
      var q := S.RunLine(p, lines[0], 0).value;
      RunLineWeight(S, e, p, lines[0], 0);
      assert lines[0][0..] == lines[0];
      if S.Eol(q).Ok? {
        EolWeight(S, e, q);
        if S.Eol(q).value.state != StartRecord {
          NextWeight(S, e, S.Eol(q).value, lines[1..]);
        }
      }
    }
  }

  lemma {:induction false} ReadAllWeight(S: Setup, e: char, lines: seq<string>)
    requires e != '\n' && S.ReadAll(lines).Ok?
    ensures CountRows(S.ReadAll(lines).value, e) <= CountLines(lines, e)
    decreases |lines|
  {
    var (item, rest) := S.Next(INITIAL, lines);
    if item.Row? {
      NextWeight(S, e, INITIAL, lines);
      ReadAllWeight(S, e, rest);
      var rows := S.ReadAll(rest).value;
      assert ([item.fields] + rows)[1..] == rows;
    }
  }

  // An escape character met in a quoted field is lost.

  lemma {:induction false} RunSame(S: Setup, e: char, p: Parse, s: string)
    requires S.d.escapechar == Some(e) && e !in s
    ensures S.Run(p, s) == Plain(S).Run(p, s)
    decreases |s|
  {
    if s != "" {
      StepSame(S, e, p, s[0]);
      if S.Step(p, s[0]).Ok? {
        RunSame(S, e, S.Step(p, s[0]).value, s[1..]);
      }
    }
  }

  lemma {:induction false} FeedSame(S: Setup, e: char, p: Parse, s: string)
    requires S.d.escapechar == Some(e) && e !in s
    ensures Feed(S, p, s) == Feed(Plain(S), p, s)
    decreases |s|
  {
    if s != "" {
      StepSame(S, e, p, s[0]);
      var r := S.Step(p, s[0]);
      if r.Ok? {
        if s[0] != '\n' {
          FeedSame(S, e, r.value, s[1..]);
        } else if S.Eol(r.value).Ok? {
          FeedSame(S, e, S.Eol(r.value).value, s[1..]);
        }
      }
    }
  }

  lemma LineSame(S: Setup, e: char, p: Parse, line: string)
    requires S.d.escapechar == Some(e) && e !in line
    ensures S.RunLine(p, line, 0) == S.Run(p, line)
  {
    RunLineSame(S, e, p, line, 0);
    LineRun(Plain(S), p, line);
    RunSame(S, e, p, line);
  }

  lemma {:induction false} FeedInLine(S: Setup, p: Parse, u: string)
    requires '\n' !in u && Feed(S, p, u).Some?
    ensures S.Run(p, u) == Ok(Feed(S, p, u).value)
    decreases |u|
  {
    if u != "" {
      FeedInLine(S, S.Step(p, u[0]).value, u[1..]);
    }
  }

  lemma {:induction false} FeedLine(S: Setup, p: Parse, line: string, rest: string)
    requires line != "" && '\n' !in line[..|line| - 1] && line[|line| - 1] == '\n'
    requires Feed(S, p, line + rest).Some?
    ensures S.Run(p, line).Ok? && S.Eol(S.Run(p, line).value).Ok?
    ensures var q := S.Eol(S.Run(p, line).value).value;
      q.state != StartRecord && Feed(S, q, rest) == Feed(S, p, line + rest)
    decreases |line|
  {
    assert (line + rest)[1..] == line[1..] + rest;
    if |line| == 1 {
      assert line[1..] == "" && line[1..] + rest == rest;
    } else {
      assert line[..|line| - 1][0] == line[0];
      assert forall i :: 0 <= i < |line| - 2 ==> line[1..][i] == line[..|line| - 1][i + 1];
      FeedLine(S, S.Step(p, line[0]).value, line[1..], rest);
    }
  }

  /** Reading in batches comes to every position at which no unquoted field is open. */
  lemma {:induction false} RunLineReaches(S: Setup, p: Parse, line: string, pos: nat, m: nat)
    requires pos <= m <= |line| && forall i :: pos <= i < m ==> Some(line[i]) != S.d.escapechar
    requires S.Run(p, line[pos..m]).Ok? && S.Run(p, line[pos..m]).value.state != InField
    ensures S.RunLine(p, line, pos) == S.RunLine(S.Run(p, line[pos..m]).value, line, m)
    decreases m - pos
  {
    if pos < m {
      if p.state != InField {
        assert line[pos..m][1..] == line[pos + 1..m];
        RunLineReaches(S, S.Step(p, line[pos]).value, line, pos + 1, m);
      } else {
        var stop := pos + S.Span(line, pos);
        OpenFieldStops(S, p, line, pos, m);
        var q := S.Scan(p, line, pos).value.0;
        RunLineReaches(S, q, line, stop + 1, m);
      }
    }
  }

  lemma OpenFieldStops(S: Setup, p: Parse, line: string, pos: nat, m: nat)
    requires pos < m <= |line| && p.state == InField
    requires forall i :: pos <= i < m ==> Some(line[i]) != S.d.escapechar
    requires S.Run(p, line[pos..m]).Ok? && S.Run(p, line[pos..m]).value.state != InField
    ensures var stop := pos + S.Span(line, pos);
      && stop < m && S.Scan(p, line, pos).Ok? && S.Scan(p, line, pos).value.1 == stop + 1
      && S.Run(p, line[pos..m]) == S.Run(S.Scan(p, line, pos).value.0, line[stop + 1..m])
  {
    var stop := pos + S.Span(line, pos);
    if stop >= m {
      assert line[pos..m] + "" == line[pos..m];
      RunOrdinary(S, p, line[pos..m], "");
    } else {
      assert line[pos..m] == line[pos..stop] + line[stop..m];
      if stop > pos {
        RunOrdinary(S, p, line[pos..stop], line[stop..m]);
      }
      assert line[stop..m][1..] == line[stop + 1..m];
    }
  }

  lemma {:induction false} RunWeight(S: Setup, e: char, p: Parse, s: string)
    requires S.Run(p, s).Ok?
    ensures Weight(S.Run(p, s).value, e) <= Weight(p, e) + Count(s, e)
    decreases |s|
  {
    if s != "" {
      var q := S.Step(p, s[0]).value;
      StepMoves(S, p, s[0]);
      MovesWeight(e, p, q, [s[0]]);
      CountChar(s[0], e);
      RunWeight(S, e, q, s[1..]);
    }
  }

  /** The line on which an escape character stands in a quoted field. */
  lemma LineLoses(S: Setup, e: char, p: Parse, u: string, w: string)
    requires S.d.escapechar == Some(e) && e !in u
    requires S.Run(p, u).Ok? && S.Run(p, u).value.state == InQuotedField
    ensures var r := S.RunLine(p, u + [e] + w, 0);
      r.Ok? ==> Weight(r.value, e) < Weight(p, e) + Count(u + [e] + w, e)
  {
    var line, m := u + [e] + w, |u|;
    assert line[0..m] == u && line[m] == e && line[m + 1..] == w;
    RunLineReaches(S, p, line, 0, m);
    var q := S.Run(p, u).value;
    var q' := q.(state := EscapeInQuotedField);
    assert S.Process(q, line, m) == Ok((q', m + 1));
    assert S.RunLine(p, line, 0) == S.RunLine(q', line, m + 1);
    RunWeight(S, e, p, u);
    if S.RunLine(q', line, m + 1).Ok? {
      RunLineWeight(S, e, q', line, m + 1);
    }
    CountOf(u, [e], e);
    CountOf(u + [e], w, e);
    CountChar(e, e);
  }

  lemma {:induction false} CountSplit(text: string, e: char)
    ensures CountLines(SplitLines(text), e) == Count(text, e)
    decreases |text|
  {
    if text != "" {
      var n := LineLength(text);
      CountSplit(text[n..], e);
      assert text == text[..n] + text[n..];
      CountOf(text[..n], text[n..], e);
    }
  }

  /** So the record has fewer of them than were written. */
  lemma {:induction false} NextLoses(S: Setup, e: char, p: Parse, u: string, v: string)
    requires S.d.escapechar == Some(e) && e != '\n' && e !in u
    requires Feed(S, p, u).Some? && Feed(S, p, u).value.state == InQuotedField
    ensures var (item, rest) := S.Next(p, SplitLines(u + [e] + v));
      item.Row? ==> CountAll(item.fields, e) + CountLines(rest, e) < Weight(p, e) + Count(u + [e] + v, e)
    decreases |u|
  {
    var text := u + [e] + v;
    var n := LineLength(text);
    var line, text' := text[..n], text[n..];
    assert text == line + text';
    CountOf(line, text', e);
    CountSplit(text', e);
    if n <= |u| {
      LaterLoses(S, e, p, u, v, n);
    } else {
      var w := text[|u| + 1..n];
      assert line == u + [e] + w;
      assert forall i :: 0 <= i < |u| ==> u[i] == text[..n - 1][i];
      FeedInLine(S, p, u);
      LineLoses(S, e, p, u, w);
      AfterLine(S, e, p, line, SplitLines(text'));
    }
  }

  /** What is lost in a line stays lost. */
  lemma AfterLine(S: Setup, e: char, p: Parse, line: string, lines: seq<string>)
    requires e != '\n'
    requires S.RunLine(p, line, 0).Ok? ==> Weight(S.RunLine(p, line, 0).value, e) < Weight(p, e) + Count(line, e)
    ensures var (item, rest) := S.Next(p, [line] + lines);
      item.Row? ==>
        CountAll(item.fields, e) + CountLines(rest, e) < Weight(p, e) + Count(line, e) + CountLines(lines, e)
  {
    assert ([line] + lines)[1..] == lines;
    var r := S.RunLine(p, line, 0);
    if r.Ok? && S.Eol(r.value).Ok? {
      EolWeight(S, e, r.value);
      NextWeight(S, e, S.Eol(r.value).value, lines);
    }
  }

  lemma {:induction false} LaterLoses(S: Setup, e: char, p: Parse, u: string, v: string, n: nat)
    requires S.d.escapechar == Some(e) && e != '\n' && e !in u
    requires Feed(S, p, u).Some? && Feed(S, p, u).value.state == InQuotedField
    requires n == LineLength(u + [e] + v) <= |u|
    ensures var (item, rest) := S.Next(p, SplitLines(u + [e] + v));
      item.Row? ==> CountAll(item.fields, e) + CountLines(rest, e) < Weight(p, e) + Count(u + [e] + v, e)
    decreases |u|, 0
  {
    var line, u' := u[..n], u[n..];
    FirstLineOf(u, e, v, n);
    FeedLine(S, p, line, u');
    LineSame(S, e, p, line);
    var r := S.Run(p, line).value;
    RunWeight(S, e, p, line);
    EolWeight(S, e, r);
    NextLoses(S, e, S.Eol(r).value, u', v);
  }

  lemma FirstLineOf(u: string, e: char, v: string, n: nat)
    requires n == LineLength(u + [e] + v) <= |u|
    ensures var text := u + [e] + v;
      && text[..n] == u[..n] && text[n..] == u[n..] + [e] + v && u == u[..n] + u[n..]
      && '\n' !in u[..n][..n - 1] && u[..n][n - 1] == '\n'
      && Count(text, e) == Count(u[..n], e) + Count(u[n..] + [e] + v, e)
  {
    var text := u + [e] + v;
    assert u[..n][..n - 1] == text[..n - 1] && u[n - 1] == text[n - 1];
    assert text == u[..n] + (u[n..] + [e] + v);
    CountOf(u[..n], u[n..] + [e] + v, e);
  }

  // Where the first escape character of a row stands.

  lemma Regroup(s: string, t: string, u: string)
    ensures s + (t + u) == s + t + u
  {
  }

  lemma {:induction false} ReplaceOf(s: string, t: string, q: char, r: string)
    ensures Replace(s + t, q, r) == Replace(s, q, r) + Replace(t, q, r)
  {
    if s == "" {
      assert s + t == t;
    } else {
      ReplaceOf(s[1..], t, q, r);
      assert (s + t)[1..] == s[1..] + t && (s + t)[0] == s[0];
      Regroup(if s[0] == q then r else [s[0]], Replace(s[1..], q, r), Replace(t, q, r));
    }
  }

  lemma {:induction false} FirstOf(s: string, e: char) returns (a: string, b: string)
    requires e in s
    ensures s == a + [e] + b && e !in a
  {
    if s[0] == e {
      a, b := "", s[1..];
    } else {
      a, b := FirstOf(s[1..], e);
      assert s == [s[0]] + s[1..];
      a := [s[0]] + a;
    }
  }

  /** Text that brings the reader into a quoted field, then the escape character, then more. */
  ghost predicate Reaches(S: Setup, e: char, p: Parse, text: string, u: string, v: string) {
    && text == u + [e] + v && e !in u
    && Feed(Plain(S), p, u).Some? && Feed(Plain(S), p, u).value.state == InQuotedField
  }

  lemma FieldReaches(S: Setup, e: char, p: Parse, s: string, quoted: bool, quoteEmpty: bool)
    returns (u: string, v: string)
    requires FaithfulBut(S.d, e) && e in s && |s| <= S.limit
    requires p.field == "" && (p.state == StartField || p.state == StartRecord)
    ensures FieldText(S.d, s, quoted, quoteEmpty).Ok?
    ensures Reaches(S, e, p, FieldText(S.d, s, quoted, quoteEmpty).value, u, v)
  {
    var q := S.d.quotechar.value;
    var a, b := FirstOf(s, e);
    FieldShape(S, e, s, quoted, quoteEmpty);
    FieldTextShape(Plain(S).d, s, true, quoteEmpty);
    ReplaceOf(a + [e], b, q, [q, q]);
    ReplaceOf(a, [e], q, [q, q]);
    var r := Replace(a, q, [q, q]);
    assert Replace([e], q, [q, q]) == [e] by {
      assert [e][1..] == "" && [e] + "" == [e];
    }
    u, v := [q] + r, Replace(b, q, [q, q]) + [q];
    assert [q] + (r + [e] + Replace(b, q, [q, q])) + [q] == u + [e] + v;
    CountReplace(a, q, e);
    CountIff(a, e);
    CountIff(r, e);
    FeedChar(Plain(S), p, q);
    FeedQuoted(Plain(S), "", p.fields, a);
    FeedFeed(Plain(S), p, [q], r);
  }

  /** The same with text before that leads from another parse to this one. */
  lemma ReachesLater(S: Setup, e: char, p: Parse, before: string, text: string, u: string, v: string)
    requires e !in before && Feed(Plain(S), p, before).Some?
    requires Reaches(S, e, Feed(Plain(S), p, before).value, text, u, v)
    ensures Reaches(S, e, p, before + text, before + u, v)
  {
    FeedFeed(Plain(S), p, before, u);
    Regroup(before, u + [e], v);
    Regroup(before, u, [e]);
  }

  lemma ReachesMore(S: Setup, e: char, p: Parse, text: string, u: string, v: string, more: string)
    requires Reaches(S, e, p, text, u, v)
    ensures Reaches(S, e, p, text + more, u, v + more)
  {
    assert u + [e] + v + more == u + [e] + (v + more);
  }

  ghost predicate Escaped(e: char, row: seq<Cell>) {
    exists i :: 0 <= i < |row| && e in Value(row[i])
  }

  lemma {:induction false} TailReaches(S: Setup, e: char, p: Parse, f: string, fs: seq<string>, row: seq<Cell>)
    returns (u: string, v: string)
    requires FaithfulBut(S.d, e) && Done(p, f, fs) && Escaped(e, row)
    requires forall i :: 0 <= i < |row| ==> Readable(S.limit, row[i])
    ensures JoinedFrom(S.d, row, false, false).Ok?
    ensures Reaches(S, e, p, JoinedFrom(S.d, row, false, false).value, u, v)
    decreases |row|
  {
    CountJoined(S, e, row, false, false);
    if e in Value(row[0]) {
      u, v := TailReachesHere(S, e, p, f, fs, row);
    } else {
      var i :| 0 <= i < |row| && e in Value(row[i]);
      assert row[1..][i - 1] == row[i];
      var s := Value(row[0]);
      var before := PassField(S, e, p, f, fs, s);
      u, v := TailReaches(S, e, Feed(Plain(S), p, before).value, s, fs + [f], row[1..]);
      ReachesLater(S, e, p, before, JoinedFrom(S.d, row[1..], false, false).value, u, v);
      u := before + u;
    }
  }

  /** A field without the escape character, and the delimiter before it. */
  lemma PassField(S: Setup, e: char, p: Parse, f: string, fs: seq<string>, s: string) returns (before: string)
    requires FaithfulBut(S.d, e) && Done(p, f, fs) && |s| <= S.limit && e !in s
    ensures FieldText(S.d, s, S.d.quoting == QuoteAll, false).Ok?
    ensures before == [S.d.delimiter] + FieldText(S.d, s, S.d.quoting == QuoteAll, false).value && e !in before
    ensures Feed(Plain(S), p, before).Some? && Done(Feed(Plain(S), p, before).value, s, fs + [f])
  {
    CountField(S, e, s, S.d.quoting == QuoteAll, false);
    FieldShape(S, e, s, S.d.quoting == QuoteAll, false);
    FeedNextField(Plain(S), p, f, fs, s);
    var t := FieldText(S.d, s, S.d.quoting == QuoteAll, false).value;
    NoEscapeIn(e, [S.d.delimiter], t, s);
    before := [S.d.delimiter] + t;
  }

  lemma TailReachesHere(S: Setup, e: char, p: Parse, f: string, fs: seq<string>, row: seq<Cell>)
    returns (u: string, v: string)
    requires FaithfulBut(S.d, e) && Done(p, f, fs) && row != [] && e in Value(row[0]) && Readable(S.limit, row[0])
    ensures JoinedFrom(S.d, row, false, false).Ok?
    ensures Reaches(S, e, p, JoinedFrom(S.d, row, false, false).value, u, v)
  {
    var s, del := Value(row[0]), [S.d.delimiter];
    CountJoined(S, e, row[1..], false, false);
    FeedChar(Plain(S), p, S.d.delimiter);
    u, v := FieldReaches(S, e, Parse(StartField, "", fs + [f]), s, S.d.quoting == QuoteAll, false);
    var t := FieldText(S.d, s, S.d.quoting == QuoteAll, false).value;
    var rest := JoinedFrom(S.d, row[1..], false, false).value;
    ReachesLater(S, e, p, del, t, u, v);
    u := del + u;
    ReachesMore(S, e, p, del + t, u, v, rest);
    v := v + rest;
  }

  lemma NoEscapeIn(e: char, del: string, t: string, s: string)
    requires e !in s && Count(t, e) == Count(s, e) && e !in del
    ensures e !in t && e !in del + t
  {
    CountIff(s, e);
    CountIff(t, e);
  }

  lemma RowReaches(S: Setup, e: char, row: seq<Cell>) returns (u: string, v: string)
    requires FaithfulBut(S.d, e) && Escaped(e, row)
    requires forall i :: 0 <= i < |row| ==> Readable(S.limit, row[i])
    ensures RowText(S.d, row).Ok? && Reaches(S, e, INITIAL, RowText(S.d, row).value, u, v)
  {
    CountRow(S, e, row);
    if e in Value(row[0]) {
      u, v := FirstReaches(S, e, row);
    } else {
      u, v := RestReaches(S, e, row);
    }
    ReachesMore(S, e, INITIAL, JoinedFrom(S.d, row, true, |row| == 1).value, u, v, S.d.lineterminator);
    v := v + S.d.lineterminator;
  }

  lemma FirstReaches(S: Setup, e: char, row: seq<Cell>) returns (u: string, v: string)
    requires FaithfulBut(S.d, e) && row != [] && e in Value(row[0]) && Readable(S.limit, row[0])
    ensures JoinedFrom(S.d, row, true, |row| == 1).Ok?
    ensures Reaches(S, e, INITIAL, JoinedFrom(S.d, row, true, |row| == 1).value, u, v)
  {
    var s, one := Value(row[0]), |row| == 1;
    CountJoined(S, e, row[1..], false, one);
    u, v := FieldReaches(S, e, INITIAL, s, S.d.quoting == QuoteAll, one);
    var t := FieldText(S.d, s, S.d.quoting == QuoteAll, one).value;
    var rest := JoinedFrom(S.d, row[1..], false, one).value;
    assert "" + t == t;
    ReachesMore(S, e, INITIAL, t, u, v, rest);
    v := v + rest;
  }

  lemma RestReaches(S: Setup, e: char, row: seq<Cell>) returns (u: string, v: string)
    requires FaithfulBut(S.d, e) && row != [] && Escaped(e, row) && e !in Value(row[0])
    requires forall i :: 0 <= i < |row| ==> Readable(S.limit, row[i])
    ensures JoinedFrom(S.d, row, true, |row| == 1).Ok?
    ensures Reaches(S, e, INITIAL, JoinedFrom(S.d, row, true, |row| == 1).value, u, v)
  {
    var i :| 0 <= i < |row| && e in Value(row[i]);
    assert row[1..][i - 1] == row[i];
    var s := Value(row[0]);
    CountField(S, e, s, S.d.quoting == QuoteAll, false);
    FieldShape(S, e, s, S.d.quoting == QuoteAll, false);
    FeedField(Plain(S), INITIAL, s, S.d.quoting == QuoteAll, false);
    var t := FieldText(S.d, s, S.d.quoting == QuoteAll, false).value;
    NoEscapeIn(e, "", t, s);
    assert "" + t == t;
    u, v := TailReaches(S, e, Feed(Plain(S), INITIAL, t).value, s, [], row[1..]);
    ReachesLater(S, e, INITIAL, t, JoinedFrom(S.d, row[1..], false, false).value, u, v);
    u := t + u;
  }

  // Whole files.

  lemma {:induction false} SplitAppend(t: string, rest: string)
    requires t != "" && t[|t| - 1] == '\n'
    ensures SplitLines(t + rest) == SplitLines(t) + SplitLines(rest)
    decreases |t|
  {
    var n := LineLength(t);
    SameLine(t, rest);
    SplitHead(t, rest, n);
    if n < |t| {
      SplitAppend(t[n..], rest);
      LinesRegroup(t[..n], SplitLines(t[n..]), SplitLines(rest));
    } else {
      SplitEnd(t, rest, n);
    }
  }

  lemma SplitHead(t: string, rest: string, n: nat)
    requires t != "" && n == LineLength(t + rest) <= |t|
    ensures SplitLines(t + rest) == [t[..n]] + SplitLines(t[n..] + rest)
  {
    assert (t + rest)[..n] == t[..n] && (t + rest)[n..] == t[n..] + rest;
  }

  lemma SplitEnd(t: string, rest: string, n: nat)
    requires t != "" && n == LineLength(t) == |t|
    ensures t[n..] + rest == rest && SplitLines(t) == [t[..n]]
  {
    assert t[n..] == "";
  }

  lemma LinesRegroup(line: string, a: seq<string>, b: seq<string>)
    ensures [line] + (a + b) == [line] + a + b
  {
  }

  lemma {:induction false} SameLine(t: string, rest: string)
    requires t != "" && t[|t| - 1] == '\n'
    ensures LineLength(t + rest) == LineLength(t)
    decreases |t|
  {
    if t[0] != '\n' {
      SameLine(t[1..], rest);
      assert (t + rest)[1..] == t[1..] + rest;
    }
  }

  lemma {:induction false} NotInLines(t: string, e: char)
    requires e !in t
    ensures forall i :: 0 <= i < |SplitLines(t)| ==> e !in SplitLines(t)[i]
    decreases |t|
  {
    if t != "" {
      NotInLines(t[LineLength(t)..], e);
    }
  }

  lemma {:induction false} NoNulWritten(S: Setup, e: char, rows: seq<seq<Cell>>)
    requires FaithfulBut(S.d, e) && AllReadable(S.limit, rows)
    ensures '\0' !in RowsText(S.d, rows).0
    decreases |rows|
  {
    if rows != [] {
      assert forall i :: 0 <= i < |rows| - 1 ==> rows[1..][i] == rows[i + 1];
      assert AllReadable(S.limit, rows[1..]);
      NoNulJoined(S, e, rows[0], true, |rows[0]| == 1);
      NoNulWritten(S, e, rows[1..]);
      assert '\0' !in "\r\n";
    }
  }

  lemma {:induction false} NoNulJoined(S: Setup, e: char, row: seq<Cell>, first: bool, quoteEmpty: bool)
    requires FaithfulBut(S.d, e)
    requires forall i :: 0 <= i < |row| ==> Readable(S.limit, row[i])
    ensures var j := JoinedFrom(S.d, row, first, quoteEmpty); j.Ok? ==> '\0' !in j.value
    decreases |row|
  {
    if row != [] {
      var s := Value(row[0]);
      FieldShape(S, e, s, S.d.quoting == QuoteAll, quoteEmpty);
      FieldTextShape(Plain(S).d, s, S.d.quoting == QuoteAll || e in s, quoteEmpty);
      NoNulInReplace(s, S.d.quotechar.value);
      NoNulJoined(S, e, row[1..], false, quoteEmpty);
    }
  }

  /** A row without the escape character is read back, whatever follows it. */
  lemma RowReadBack(S: Setup, e: char, row: seq<Cell>, text: string)
    requires FaithfulBut(S.d, e) && !Escaped(e, row) && '\0' !in text
    requires forall i :: 0 <= i < |row| ==> Readable(S.limit, row[i])
    ensures RowText(S.d, row).Ok?
    ensures S.Next(INITIAL, SplitLines(RowText(S.d, row).value + text)) == (Row(Values(row)), SplitLines(text))
  {
    CountRow(S, e, row);
    var t := RowText(S.d, row).value;
    PlainRow(S, e, row);
    RecordRow(Plain(S), row, text);
    NoNulJoined(S, e, row, true, |row| == 1);
    assert '\0' !in t + text;
    RecordIsNext(Plain(S), INITIAL, t + text);
    LastIsNewline(JoinedFrom(S.d, row, true, |row| == 1).value);
    SplitAppend(t, text);
    NotInLines(t, e);
    NextSame(S, e, INITIAL, SplitLines(t), SplitLines(text));
  }

  lemma LastIsNewline(s: string)
    ensures var t := s + "\r\n"; t != "" && t[|t| - 1] == '\n'
  {
  }

  /** Such a row is written as without an escape character, and has none in it. */
  lemma PlainRow(S: Setup, e: char, row: seq<Cell>)
    requires FaithfulBut(S.d, e) && !Escaped(e, row)
    ensures RowText(S.d, row) == RowText(Plain(S).d, row)
    ensures RowText(S.d, row).Ok? && e !in RowText(S.d, row).value
  {
    PlainJoined(S, e, row, true, |row| == 1);
    CountRow(S, e, row);
    CountNone(row, e);
    CountIff(RowText(S.d, row).value, e);
  }

  lemma {:induction false} PlainJoined(S: Setup, e: char, row: seq<Cell>, first: bool, quoteEmpty: bool)
    requires FaithfulBut(S.d, e) && !Escaped(e, row)
    ensures JoinedFrom(S.d, row, first, quoteEmpty) == JoinedFrom(Plain(S).d, row, first, quoteEmpty)
    decreases |row|
  {
    if row != [] {
      assert forall i :: 0 <= i < |row| - 1 ==> row[1..][i] == row[i + 1];
      FieldShape(S, e, Value(row[0]), S.d.quoting == QuoteAll, quoteEmpty);
      PlainJoined(S, e, row[1..], false, quoteEmpty);
    }
  }

  lemma {:induction false} CountNone(row: seq<Cell>, e: char)
    requires !Escaped(e, row)
    ensures CountAll(Values(row), e) == 0
  {
    if row != [] {
      var k := |row| - 1;
      assert forall i :: 0 <= i < k ==> row[..k][i] == row[i];
      CountNone(row[..k], e);
      assert Values(row)[..k] == Values(row[..k]);
      CountIff(Value(row[k]), e);
    }
  }

  /** If the first row has the escape character, what is read has fewer of them than what was written. */
  lemma FirstRowLost(S: Setup, e: char, rows: seq<seq<Cell>>)
    requires FaithfulBut(S.d, e) && AllReadable(S.limit, rows) && rows != [] && Escaped(e, rows[0])
    ensures S.ReadAll(SplitLines(RowsText(S.d, rows).0)) != Ok(AllValues(rows))
  {
    var u, v := RowReaches(S, e, rows[0]);
    CountWritten(S, e, rows);
    CountRow(S, e, rows[0]);
    CountWritten(S, e, rows[1..]);
    var more := RowsText(S.d, rows[1..]).0;
    ReachesMore(S, e, INITIAL, RowText(S.d, rows[0]).value, u, v, more);
    var text := RowsText(S.d, rows).0;
    assert text == u + [e] + (v + more);
    FeedSame(S, e, INITIAL, u);
    NextLoses(S, e, INITIAL, u, v + more);
    var (item, rest) := S.Next(INITIAL, SplitLines(text));
    if S.ReadAll(SplitLines(text)).Ok? && item.Row? {
      ReadAllWeight(S, e, rest);
      var read := S.ReadAll(rest).value;
      assert ([item.fields] + read)[1..] == read;
      assert CountRows([item.fields] + read, e) < Count(text, e);
    }
  }

  /**
    * With an escape character, what is written is read back exactly if no field has it: the writer puts
    * such a field in quotes but does not escape the character, and the reader takes it for an escape.
    */
  lemma {:induction false} RoundTripExact(S: Setup, e: char, rows: seq<seq<Cell>>)
    requires FaithfulBut(S.d, e) && AllReadable(S.limit, rows)
    ensures var (text, r) := RowsText(S.d, rows);
      && r == Ok(())
      && (S.ReadAll(SplitLines(text)) == Ok(AllValues(rows)) <==> forall i :: 0 <= i < |rows| ==> !Escaped(e, rows[i]))
    decreases |rows|
  {
    CountWritten(S, e, rows);
    if rows == [] {
      assert AllValues(rows) == [];
    } else if Escaped(e, rows[0]) {
      FirstRowLost(S, e, rows);
    } else {
      var rest := rows[1..];
      assert forall i :: 0 <= i < |rest| ==> rest[i] == rows[i + 1];
      assert AllReadable(S.limit, rest);
      RoundTripExact(S, e, rest);
      NoNulWritten(S, e, rest);
      RowReadBack(S, e, rows[0], RowsText(S.d, rest).0);
      AllValuesCons(rows);
    }
  }
}
