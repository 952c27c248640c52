/**
  * What the reader makes of a line, said field by field and without the automaton, for lines without the
  * escape character.
  */
module CsvLines {
  import opened Wrappers
  import opened CsvDialects
  import opened CsvReaders

  /** A line holds the rest of a record, or ends inside quotes, or is wrong. */
  datatype Reading = Fields(fields: seq<string>) | Open(before: seq<string>, field: string) | Wrong(error: Error)

  function Behind(before: seq<string>, r: Reading): Reading {
    match r
    case Fields(fs) => Fields(before + fs)
    case Open(fs, f) => Open(before + fs, f)
    case Wrong(_) => r
  }

  /** How many characters there are in front of the first delimiter or newline. */
  function Length(d: Dialect, u: string): (k: nat)
    ensures k <= |u|
  {
    if u == "" || u[0] == d.delimiter || Newline(u[0]) then 0 else 1 + Length(d, u[1..])
  }

  /** Without the spaces at the start. */
  function Stripped(u: string): (r: string)
    ensures |r| <= |u|
  {
    if u != "" && u[0] == ' ' then Stripped(u[1..]) else u
  }

  predicate AllNewlines(u: string) {
    forall i :: 0 <= i < |u| ==> Newline(u[i])
  }

  predicate OpensQuotes(d: Dialect, u: string) {
    u != "" && d.Quotes(u[0])
  }

  /** Where a field starts: a quote may be the first character of it, or the first one but spaces. */
  function FromStart(su: Setup, t: string): Reading
    decreases |t|, 2
  {
    var u := if su.d.skipinitialspace && !su.d.Quotes(' ') then Stripped(t) else t;
    if OpensQuotes(su.d, u) && !Newline(u[0]) then InQuotes(su, "", u[1..]) else Plain(su, "", u)
  }

  /** Outside of quotes, the field goes on to the next delimiter or newline, whatever there is in between. */
  function Plain(su: Setup, a: string, u: string): Reading
    decreases |u|, 1
  {
    var k := Length(su.d, u);
    if k > 0 && |a| + k > su.limit then Wrong(FieldTooLarge) else AtEnd(su, a + u[..k], u[k..])
  }

  /** Where a field ends: the line may end as well, with newlines only, or a delimiter follows. */
  function AtEnd(su: Setup, field: string, u: string): Reading
    decreases |u|, 0
  {
    if u == "" then Fields([field])
    else if Newline(u[0]) then if AllNewlines(u) then Fields([field]) else Wrong(NewlineInUnquotedField)
    else Behind([field], FromStart(su, u[1..]))
  }

  /** Inside quotes, up to the closing quote; a doubled quote stands for one. */
  function InQuotes(su: Setup, a: string, u: string): Reading
    decreases |u|, 0
  {
    if u == "" then Open([], a)
    else if !su.d.Quotes(u[0]) then
      if |a| + 1 > su.limit then Wrong(FieldTooLarge) else InQuotes(su, a + [u[0]], u[1..])
    else if su.d.doublequote && OpensQuotes(su.d, u[1..]) then
      if |a| + 1 > su.limit then Wrong(FieldTooLarge) else InQuotes(su, a + [u[1]], u[2..])
    else if su.d.doublequote && Starts(u[1..], su.d.delimiter) then Behind([a], FromStart(su, u[2..]))
    else if MayFollow(su.d, u[1..]) then Plain(su, a, u[1..])
    else Wrong(DelimiterExpected)
  }

  predicate Starts(u: string, c: char) {
    u != "" && u[0] == c
  }

  /** Nothing but the end of the field may follow a closing quote, if the dialect is strict and doubles quotes. */
  predicate MayFollow(d: Dialect, u: string) {
    u == "" || Newline(u[0]) || !d.strict || !d.doublequote
  }

  /** A whole line: if it is empty but for newlines, the record has no field. */
  function FromLine(su: Setup, line: string): Reading {
    if AllNewlines(line) then Fields([])
    else if Newline(line[0]) then Wrong(NewlineInUnquotedField)
    else FromStart(su, line)
  }

  /** The record that starts on the first of the lines, or goes on there inside quotes. */
  function FromLines(su: Setup, inside: Option<(seq<string>, string)>, lines: seq<string>): (Item, seq<string>)
    decreases |lines|
  {
    if lines == [] then
      (if inside.Some? && inside.value.1 != "" then Bad(NewlineInsideString) else Stop, [])
    else if '\0' in lines[0] then (Bad(NullByte), lines[1..])
    else
      var r := match inside
        case None => FromLine(su, lines[0])
        case Some((before, field)) => Behind(before, InQuotes(su, field, lines[0]));
      match r
      case Fields(fs) => (Row(fs), lines[1..])
      case Wrong(e) => (Bad(e), lines[1..])
      case Open(fs, f) => FromLines(su, Some((fs, f)), lines[1..])
  }

  /** There is no escape character in the line from there on. */
  predicate NoEscapes(d: Dialect, line: string, pos: nat) {
    forall i :: pos <= i < |line| ==> Some(line[i]) != d.escapechar
  }

  /** What is known after a line. */
  function Ended(su: Setup, r: Result<Parse, Error>): Reading {
    if r.Err? then Wrong(r.error) else
    var e := su.Eol(r.value);
    if e.Err? then Wrong(e.error)
    else if e.value.state == StartRecord then Fields(e.value.fields)
    else Open(e.value.fields, e.value.field)
  }

  /** What the automaton makes of the rest of a line. */
  function Automaton(su: Setup, state: State, a: string, fs: seq<string>, line: string, pos: nat): Reading
    requires pos <= |line|
  {
    Ended(su, su.RunLine(Parse(state, a, fs), line, pos))
  }

  lemma Stepping(su: Setup, state: State, a: string, fs: seq<string>, line: string, pos: nat)
    requires pos < |line| && state != InField
    ensures var q := su.Step(Parse(state, a, fs), line[pos]);
      Automaton(su, state, a, fs, line, pos) ==
        if q.Err? then Wrong(q.error)
        else Automaton(su, q.value.state, q.value.field, q.value.fields, line, pos + 1)
  {
  }

  lemma {:induction false} AtLineEnd(su: Setup, fs: seq<string>, line: string, pos: nat)
    requires pos <= |line|
    ensures Automaton(su, EatCrnl, "", fs, line, pos) ==
      if AllNewlines(line[pos..]) then Fields(fs) else Wrong(NewlineInUnquotedField)
    decreases |line| - pos
  {
    if pos < |line| {
      Stepping(su, EatCrnl, "", fs, line, pos);
      assert line[pos..] == [line[pos]] + line[pos + 1..];
      if Newline(line[pos]) {
        AtLineEnd(su, fs, line, pos + 1);
      } else {
        assert !Newline(line[pos..][0]);
      }
    }
  }

  /** A scan of ordinary characters goes to the first delimiter or newline. */
  lemma {:induction false} SpanIsLength(su: Setup, line: string, pos: nat)
    requires pos <= |line| && NoEscapes(su.d, line, pos)
    ensures su.Span(line, pos) == Length(su.d, line[pos..])
    decreases |line| - pos
  {
    if pos < |line| && su.Ordinary(line[pos]) {
      SpanIsLength(su, line, pos + 1);
      assert line[pos..][1..] == line[pos + 1..];
    }
  }

  lemma BehindBehind(a: seq<string>, b: seq<string>, r: Reading)
    ensures Behind(a, Behind(b, r)) == Behind(a + b, r)
  {
    match r
    case Fields(fs) => assert a + (b + fs) == a + b + fs;
    case Open(fs, f) => assert a + (b + fs) == a + b + fs;
    case Wrong(_) =>
  }

  /** The automaton where a scan of ordinary characters has stopped. */
  function Stopped(su: Setup, field: string, fs: seq<string>, line: string, stop: nat): Reading
    requires stop <= |line|
  {
    if stop == |line| then Fields(fs + [field])
    else Automaton(su, if Newline(line[stop]) then EatCrnl else StartField, "", fs + [field], line, stop + 1)
  }

  lemma Scanning(su: Setup, a: string, fs: seq<string>, line: string, pos: nat, stop: nat)
    requires pos < |line| && NoEscapes(su.d, line, pos) && stop == pos + Length(su.d, line[pos..])
    ensures stop <= |line|
    ensures Automaton(su, InField, a, fs, line, pos) ==
      if stop > pos && |a| + (stop - pos) > su.limit then Wrong(FieldTooLarge)
      else Stopped(su, a + line[pos..stop], fs, line, stop)
  {
    SpanIsLength(su, line, pos);
    var q := Parse(InField, a + line[pos..stop], fs);
    assert su.RunLine(q, line, |line|) == Ok(q);
    if stop == pos {
      assert a + line[pos..stop] == a;
    }
  }

  lemma {:induction false} PlainRead(su: Setup, a: string, fs: seq<string>, line: string, pos: nat)
    requires pos <= |line| && NoEscapes(su.d, line, pos)
    ensures Automaton(su, InField, a, fs, line, pos) == Behind(fs, Plain(su, a, line[pos..]))
    decreases |line| - pos, 1
  {
    if pos == |line| {
      PlainEnds(su, a, line[pos..]);
    } else {
      var k := Length(su.d, line[pos..]);
      Scanning(su, a, fs, line, pos, pos + k);
      Parts(line, pos, k);
      EndRead(su, a + line[pos..pos + k], fs, line, pos + k);
    }
  }

  lemma Parts(line: string, pos: nat, k: nat)
    requires pos + k <= |line|
    ensures line[pos..][..k] == line[pos..pos + k] && line[pos..][k..] == line[pos + k..]
  {
  }

  lemma {:induction false} EndRead(su: Setup, field: string, fs: seq<string>, line: string, stop: nat)
    requires stop <= |line| && NoEscapes(su.d, line, stop)
    ensures Stopped(su, field, fs, line, stop) == Behind(fs, AtEnd(su, field, line[stop..]))
    decreases |line| - stop, 0
  {
    if stop < |line| {
      var v := line[stop..];
      assert v[0] == line[stop] && v[1..] == line[stop + 1..];
      if Newline(v[0]) {
        AtLineEnd(su, fs + [field], line, stop + 1);
        FirstNewline(v);
      } else {
        StartRead(su, fs + [field], line, stop + 1);
        BehindBehind(fs, [field], FromStart(su, v[1..]));
      }
    }
  }

  lemma FirstNewline(u: string)
    requires u != "" && Newline(u[0])
    ensures AllNewlines(u) <==> AllNewlines(u[1..])
  {
    assert u == [u[0]] + u[1..];
  }

  lemma {:induction false} StartRead(su: Setup, fs: seq<string>, line: string, pos: nat)
    requires pos <= |line| && NoEscapes(su.d, line, pos)
    ensures Automaton(su, StartField, "", fs, line, pos) == Behind(fs, FromStart(su, line[pos..]))
    decreases |line| - pos, 2
  {
    var t := line[pos..];
    if pos == |line| {
      PlainEnds(su, "", t);
    } else {
      Stepping(su, StartField, "", fs, line, pos);
      assert t[0] == line[pos] && t[1..] == line[pos + 1..];
      if Newline(t[0]) {
        AtLineEnd(su, fs + [""], line, pos + 1);
        FirstNewline(t);
        PlainEnds(su, "", t);
      } else if su.d.Quotes(t[0]) {
        QuotedRead(su, "", fs, line, pos + 1);
      } else if t[0] == ' ' && su.d.skipinitialspace {
        StartRead(su, fs, line, pos + 1);
      } else if t[0] == su.d.delimiter {
        StartRead(su, fs + [""], line, pos + 1);
        BehindBehind(fs, [""], FromStart(su, t[1..]));
        PlainEnds(su, "", t);
      } else if 1 <= su.limit {
        assert "" + [t[0]] == [t[0]];
        PlainRead(su, [t[0]], fs, line, pos + 1);
        PlainOne(su, "", t);
      }
    }
  }

  /** One more character outside of quotes. */
  lemma PlainOne(su: Setup, a: string, u: string)
    requires Length(su.d, u) > 0 && |a| + 1 <= su.limit
    ensures Plain(su, a, u) == Plain(su, a + [u[0]], u[1..])
  {
    OneFurther(a, u, Length(su.d, u));
  }

  lemma OneFurther(a: string, u: string, k: nat)
    requires 0 < k <= |u|
    ensures a + u[..k] == a + [u[0]] + u[1..][..k - 1] && u[k..] == u[1..][k - 1..]
    ensures k < |u| ==> u[k] == u[1..][k - 1] && u[k + 1..] == u[1..][k..]
  {
  }

  lemma {:induction false} QuotedRead(su: Setup, a: string, fs: seq<string>, line: string, pos: nat)
    requires pos <= |line| && NoEscapes(su.d, line, pos)
    ensures Automaton(su, InQuotedField, a, fs, line, pos) == Behind(fs, InQuotes(su, a, line[pos..]))
    decreases |line| - pos, 1
  {
    var u := line[pos..];
    if pos == |line| {
      assert fs + [] == fs;
    } else {
      Stepping(su, InQuotedField, a, fs, line, pos);
      assert u[0] == line[pos] && u[1..] == line[pos + 1..];
      if !su.d.Quotes(u[0]) {
        if |a| + 1 <= su.limit {
          QuotedRead(su, a + [u[0]], fs, line, pos + 1);
        }
      } else if su.d.doublequote {
        ClosingRead(su, a, fs, line, pos + 1);
      } else {
        PlainRead(su, a, fs, line, pos + 1);
      }
    }
  }

  /** What may come behind a quote, where quotes are doubled. */
  lemma {:induction false} ClosingRead(su: Setup, a: string, fs: seq<string>, line: string, pos: nat)
    requires pos <= |line| && NoEscapes(su.d, line, pos) && su.d.doublequote
    ensures Automaton(su, QuoteInQuotedField, a, fs, line, pos) == Behind(fs,
      if OpensQuotes(su.d, line[pos..]) then
        if |a| + 1 > su.limit then Wrong(FieldTooLarge) else InQuotes(su, a + [line[pos]], line[pos + 1..])
      else if Starts(line[pos..], su.d.delimiter) then Behind([a], FromStart(su, line[pos + 1..]))
      else if MayFollow(su.d, line[pos..]) then Plain(su, a, line[pos..])
      else Wrong(DelimiterExpected))
    decreases |line| - pos, 0
  {
    var u := line[pos..];
    if pos == |line| {
      assert a + u == a;
    } else {
      Stepping(su, QuoteInQuotedField, a, fs, line, pos);
      assert u[0] == line[pos] && u[1..] == line[pos + 1..];
      if su.d.Quotes(u[0]) {
        if |a| + 1 <= su.limit {
          QuotedRead(su, a + [u[0]], fs, line, pos + 1);
        }
      } else if u[0] == su.d.delimiter {
        StartRead(su, fs + [a], line, pos + 1);
        BehindBehind(fs, [a], FromStart(su, u[1..]));
      } else if Newline(u[0]) {
        AtLineEnd(su, fs + [a], line, pos + 1);
        FirstNewline(u);
        PlainEnds(su, a, u);
      } else if !su.d.strict {
        if |a| + 1 <= su.limit {
          PlainRead(su, a + [u[0]], fs, line, pos + 1);
          PlainOne(su, a, u);
        }
      }
    }
  }

  lemma PlainEnds(su: Setup, a: string, u: string)
    requires Length(su.d, u) == 0
    ensures Plain(su, a, u) == AtEnd(su, a, u)
  {
    assert a + u[..0] == a && u[0..] == u;
  }

  /** The reader reads a line without the escape character as it is described here. */
  lemma LineRead(su: Setup, line: string)
    requires NoEscapes(su.d, line, 0)
    ensures Automaton(su, StartRecord, "", [], line, 0) == FromLine(su, line)
  {
    assert line[0..] == line;
    if line != "" {
      Stepping(su, StartRecord, "", [], line, 0);
      if Newline(line[0]) {
        AtLineEnd(su, [], line, 1);
        FirstNewline(line);
      } else {
        StartRead(su, [], line, 0);
        BehindNothing(FromStart(su, line));
        Stepping(su, StartField, "", [], line, 0);
      }
    }
  }

  lemma BehindNothing(r: Reading)
    ensures Behind([], r) == r
  {
  }

  predicate Escaping(state: State) {
    state == EscapedChar || state == EscapeInQuotedField
  }

  lemma {:induction false} NeverEscaped(su: Setup, p: Parse, line: string, pos: nat)
    requires pos <= |line| && NoEscapes(su.d, line, pos) && !Escaping(p.state)
    ensures su.RunLine(p, line, pos).Ok? ==> !Escaping(su.RunLine(p, line, pos).value.state)
    decreases |line| - pos
  {
    if pos < |line| {
      var r := su.Process(p, line, pos);
      if r.Ok? {
        NeverEscaped(su, r.value.0, line, r.value.1);
      }
    }
  }

  /** `next` returns the records of the description, from any lines without the escape character. */
  lemma {:induction false} NextReads(su: Setup, inside: Option<(seq<string>, string)>, lines: seq<string>)
    requires forall i :: 0 <= i < |lines| ==> NoEscapes(su.d, lines[i], 0)
    ensures FromLines(su, inside, lines) ==
      su.Next(if inside.None? then INITIAL else Parse(InQuotedField, inside.value.1, inside.value.0), lines)
    decreases |lines|
  {
    if lines != [] && '\0' !in lines[0] {
      var line := lines[0];
      assert NoEscapes(su.d, line, 0);
      LineRead(su, line);
      if inside.Some? {
        QuotedRead(su, inside.value.1, inside.value.0, line, 0);
        assert line[0..] == line;
      }
      var p := if inside.None? then INITIAL else Parse(InQuotedField, inside.value.1, inside.value.0);
      var r := Ended(su, su.RunLine(p, line, 0));
      if r.Open? {
        NeverEscaped(su, p, line, 0);
        NextReads(su, Some((r.before, r.field)), lines[1..]);
      }
    }
  }
}
