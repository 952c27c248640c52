/**
  * The batched reader as an automaton that takes one character at a time. All that a batch adds to the
  * plain automaton is to know how far back the scan of an unquoted field began.
  */
module CsvLags {
  import opened Wrappers
  import opened CsvDialects
  import opened CsvReaders
  import opened CsvRoundTrips

  /** A parse, and how many ordinary characters the scan has passed: none, one, or more. */
  datatype Lag = Lag(p: Parse, run: nat)

  /** Two ordinary characters count like any larger number. */
  function More(run: nat, n: nat): nat {
    if run + n < 2 then run + n else 2
  }

  function With(r: Result<Parse, Error>, run: nat): Result<Lag, Error> {
    if r.Err? then Err(r.error) else Ok(Lag(r.value, run))
  }

  function Parsed(r: Result<Lag, Error>): Result<Parse, Error> {
    if r.Err? then Err(r.error) else Ok(r.value.p)
  }

  /** An escape character right behind a lone ordinary character takes its place. */
  predicate Lone(S: Setup, b: Lag, c: char) {
    b.p.state == InField && b.run == 1 && b.p.field != "" && Some(c) == S.d.escapechar && !Newline(c)
  }

  function LagStep(S: Setup, b: Lag, c: char): Result<Lag, Error> {
    if Lone(S, b, c) then Ok(Lag(b.p.(field := b.p.field[..|b.p.field| - 1] + [c]), 0))
    else if b.p.state == InField && S.Ordinary(c) then With(S.Add(b.p, [c]), More(b.run, 1))
    else With(S.Step(b.p, c), 0)
  }

  function LagRun(S: Setup, b: Lag, s: string): Result<Lag, Error>
    decreases |s|
  {
    if s == "" then Ok(b) else
    var r := LagStep(S, b, s[0]);
    if r.Err? then r else LagRun(S, r.value, s[1..])
  }

  /** Ordinary characters of an unquoted field. */
  lemma {:induction false} LagOrdinary(S: Setup, b: Lag, s: string, t: string)
    requires b.p.state == InField && s != "" && forall i :: 0 <= i < |s| ==> S.Ordinary(s[i])
    ensures LagRun(S, b, s + t) ==
      var q := S.Add(b.p, s);
      if q.Err? then Err(q.error) else LagRun(S, Lag(q.value, More(b.run, |s|)), t)
    decreases |s|
  {
    assert (s + t)[1..] == s[1..] + t;
    var q := S.Add(b.p, [s[0]]);
    if |s| == 1 {
      assert s == [s[0]];
    } else if q.Ok? {
      LagOrdinary(S, Lag(q.value, More(b.run, 1)), s[1..], t);
      assert b.p.field + s == q.value.field + s[1..];
    }
  }

  /** On any line, from any parse, reading in batches is this automaton, errors included. */
  lemma {:induction false} BatchIsLagged(S: Setup, p: Parse, line: string, pos: nat)
    requires pos <= |line|
    ensures S.RunLine(p, line, pos) == Parsed(LagRun(S, Lag(p, 0), line[pos..]))
    decreases |line| - pos
  {
    if pos < |line| {
      if p.state != InField {
        assert line[pos..][1..] == line[pos + 1..];
        var r := S.Step(p, line[pos]);
        if r.Ok? {
          BatchIsLagged(S, r.value, line, pos + 1);
        }
      } else {
        ScanIsLagged(S, p, line, pos);
      }
    }
  }

  lemma {:induction false} ScanIsLagged(S: Setup, p: Parse, line: string, pos: nat)
    requires pos < |line| && p.state == InField
    ensures S.RunLine(p, line, pos) == Parsed(LagRun(S, Lag(p, 0), line[pos..]))
    decreases |line| - pos, 0
  {
    var k := S.Span(line, pos);
    var stop := pos + k;
    if k > 0 {
      LagOrdinary(S, Lag(p, 0), line[pos..stop], line[stop..]);
    }
    assert line[pos..] == line[pos..stop] + line[stop..];
    if stop < |line| {
      assert line[stop..][1..] == line[stop + 1..];
      if Some(line[stop]) == S.d.escapechar && !Newline(line[stop]) {
        EscapeIsLagged(S, p, line, pos);
      } else {
        var q := if k > 0 then S.Add(p, line[pos..stop]) else Ok(p);
        if q.Ok? {
          BatchIsLagged(S, S.Scan(p, line, pos).value.0, line, stop + 1);
        }
      }
    }
  }

  /** The three cases of a scan that stops at an escape character. */
  lemma {:induction false} EscapeIsLagged(S: Setup, p: Parse, line: string, pos: nat)
    requires pos < |line| && p.state == InField
    requires var stop := pos + S.Span(line, pos);
      stop < |line| && Some(line[stop]) == S.d.escapechar && !Newline(line[stop])
    ensures S.RunLine(p, line, pos) == Parsed(LagRun(S, Lag(p, 0), line[pos..]))
    decreases |line| - pos, -1
  {
    var k := S.Span(line, pos);
    var stop := pos + k;
    var escaped := p.(state := EscapedChar);
    if k > 0 {
      LagOrdinary(S, Lag(p, 0), line[pos..stop], line[stop..]);
    }
    assert line[pos..] == line[pos..stop] + line[stop..];
    assert line[stop..][1..] == line[stop + 1..];
    if k == 0 {
      BatchIsLagged(S, escaped, line, pos + 1);
    } else if k == 1 {
      assert line[pos..stop] == [line[pos]];
      var q := S.Add(escaped, [line[stop]]);
      if q.Ok? {
        BatchIsLagged(S, q.value.(state := InField), line, stop + 1);
      }
    } else {
      BackOne(S, p, line, pos);
      var q := S.Add(p, line[pos..stop]);
      if q.Ok? {
        BatchIsLagged(S, q.value, line, stop);
        AtEscape(S, q.value, line[stop..]);
      }
    }
  }

  /** After two ordinary characters or more, the last one is taken twice but added once. */
  lemma BackOne(S: Setup, p: Parse, line: string, pos: nat)
    requires pos < |line| && p.state == InField
    requires var k := S.Span(line, pos);
      1 < k && pos + k < |line| && Some(line[pos + k]) == S.d.escapechar && !Newline(line[pos + k])
    ensures var stop := pos + S.Span(line, pos);
      var q := S.Add(p, line[pos..stop]);
      S.RunLine(p, line, pos) == if q.Err? then q else S.RunLine(q.value, line, stop)
  {
    var stop := pos + S.Span(line, pos);
    TwoAdds(S, p, line[pos..stop - 1], line[stop - 1]);
    assert line[pos..stop] == line[pos..stop - 1] + [line[stop - 1]];
    var x := S.Scan(p, line, pos);
    if x.Ok? {
      assert S.RunLine(p, line, pos) == S.RunLine(x.value.0, line, stop - 1);
    }
  }

  /** Text added in two pieces, with the state set aside in between. */
  lemma TwoAdds(S: Setup, p: Parse, s: string, c: char)
    requires p.state == InField
    ensures var a := S.Add(p.(state := EscapedChar), s);
      S.Add(p, s + [c]) == if a.Err? then Err(a.error) else S.Step(a.value, c)
  {
    assert p.field + (s + [c]) == p.field + s + [c];
  }

  /** Two ordinary characters before an escape character are as good as none. */
  lemma AtEscape(S: Setup, p: Parse, s: string)
    requires p.state == InField && s != "" && Some(s[0]) == S.d.escapechar && !Newline(s[0])
    ensures LagRun(S, Lag(p, 2), s) == LagRun(S, Lag(p, 0), s)
  {
  }

  // Records.

  /** What becomes of a lag: it goes on, its record ends, or it has an error. */
  datatype Moved = Went(b: Lag) | Ended(fields: seq<string>) | Failed

  /** One character, and the end of the line with each `\n`. */
  function Move(S: Setup, b: Lag, c: char): Moved {
    var r := LagStep(S, b, c);
    if r.Err? then Failed
    else if c != '\n' then Went(r.value)
    else EndLine(S, r.value.p)
  }

  function EndLine(S: Setup, p: Parse): Moved {
    var e := S.Eol(p);
    if e.Err? then Failed
    else if e.value.state == StartRecord then Ended(e.value.fields)
    else Went(Lag(e.value, 0))
  }

  /** The record that this automaton completes at a `\n` of `text`, and the text behind it. */
  function LagRecordAt(S: Setup, b: Lag, text: string): Option<(seq<string>, string)>
    decreases |text|
  {
    if text == "" then None else
    match Move(S, b, text[0])
    case Failed => None
    case Ended(fields) => Some((fields, text[1..]))
    case Went(b') => LagRecordAt(S, b', text[1..])
  }

  function After(S: Setup, m: Moved, text: string): Option<(seq<string>, string)> {
    match m
    case Failed => None
    case Ended(fields) => Some((fields, text))
    case Went(b) => LagRecordAt(S, b, text)
  }

  lemma {:induction false} LagRecordInLine(S: Setup, b: Lag, line: string, text: string)
    requires line != "" && '\n' !in line[..|line| - 1] && line[|line| - 1] == '\n'
    ensures var r := LagRun(S, b, line);
      LagRecordAt(S, b, line + text) == if r.Err? then None else After(S, EndLine(S, r.value.p), text)
    decreases |line|
  {
    assert (line + text)[1..] == line[1..] + text;
    var r := LagStep(S, b, line[0]);
    if |line| == 1 {
      assert line[1..] == "" && line[1..] + text == text;
    } else {
      assert line[..|line| - 1][0] == line[0];
      assert forall i :: 0 <= i < |line| - 2 ==> line[1..][i] == line[..|line| - 1][i + 1];
      if r.Ok? {
        LagRecordInLine(S, r.value, line[1..], text);
      }
    }
  }

  /** On a file of whole lines, `next` returns just the records of this automaton. */
  lemma {:induction false} NextIsLagged(S: Setup, p: Parse, text: string)
    requires '\0' !in text && (text == "" || text[|text| - 1] == '\n')
    ensures var r := LagRecordAt(S, Lag(p, 0), text);
      if r.Some? then S.Next(p, SplitLines(text)) == (Row(r.value.0), SplitLines(r.value.1))
      else !S.Next(p, SplitLines(text)).0.Row?
    decreases |text|
  {
    if text != "" {
      var n := LineLength(text);
      var line, text' := text[..n], text[n..];
      assert text == line + text';
      assert line[..n - 1] == text[..n - 1] && line[n - 1] == text[n - 1];
      LagRecordInLine(S, Lag(p, 0), line, text');
      assert line[0..] == line;
      BatchIsLagged(S, p, line, 0);
      var r := S.RunLine(p, line, 0);
      if r.Ok? && S.Eol(r.value).Ok? && S.Eol(r.value).value.state != StartRecord {
        NextIsLagged(S, S.Eol(r.value).value, text');
      }
    }
  }

  lemma RecordMove(S: Setup, b: Lag, c: char, text: string)
    ensures LagRecordAt(S, b, [c] + text) == After(S, Move(S, b, c), text)
  {
    assert ([c] + text)[1..] == text;
  }

  // Records that have something else than `f` as their field `i`.

  /** The field without the character that an escape character would still replace. */
  function Settled(b: Lag): string {
    if b.p.state == InField && b.run == 1 && b.p.field != "" then b.p.field[..|b.p.field| - 1] else b.p.field
  }

  /** Field `i` differs from `f` already, whatever follows. */
  predicate Wrong(b: Lag, i: nat, f: string) {
    || (i < |b.p.fields| && b.p.fields[i] != f)
    || (i == |b.p.fields| && !(Settled(b) <= f))
  }

  predicate Has(fields: seq<string>, i: nat, f: string) {
    i < |fields| && fields[i] == f
  }

  predicate Misreads(S: Setup, b: Lag, text: string, i: nat, f: string) {
    var r := LagRecordAt(S, b, text);
    r.Some? ==> !Has(r.value.0, i, f)
  }

  predicate Spoiled(m: Moved, i: nat, f: string) {
    match m
    case Failed => true
    case Ended(fields) => !Has(fields, i, f)
    case Went(b) => Wrong(b, i, f)
  }

  lemma WrongStays(S: Setup, b: Lag, c: char, i: nat, f: string)
    requires Wrong(b, i, f) && LagStep(S, b, c).Ok?
    ensures Wrong(LagStep(S, b, c).value, i, f)
  {
    var b' := LagStep(S, b, c).value;
    assert Settled(b) <= b.p.field;
    if i == |b.p.fields| && b'.p.fields == b.p.fields {
      assert Settled(b) <= Settled(b');
    }
  }

  lemma WrongAtEol(S: Setup, b: Lag, i: nat, f: string)
    requires Wrong(b, i, f)
    ensures Spoiled(EndLine(S, b.p), i, f)
  {
    assert Settled(b) <= b.p.field;
  }

  lemma {:induction false} WrongMisreads(S: Setup, b: Lag, text: string, i: nat, f: string)
    requires Wrong(b, i, f)
    ensures Misreads(S, b, text, i, f)
    decreases |text|
  {
    if text != "" && LagStep(S, b, text[0]).Ok? {
      var b' := LagStep(S, b, text[0]).value;
      WrongStays(S, b, text[0], i, f);
      WrongAtEol(S, b', i, f);
      match Move(S, b, text[0])
      case Went(b'') => WrongMisreads(S, b'', text[1..], i, f);
      case _ =>
    }
  }

  /** A move after which the field is wrong, or will be. */
  lemma MisreadsBy(S: Setup, b: Lag, c: char, text: string, i: nat, f: string)
    requires var m := Move(S, b, c);
      Spoiled(m, i, f) || (m.Went? && Misreads(S, m.b, text, i, f))
    ensures Misreads(S, b, [c] + text, i, f)
  {
    RecordMove(S, b, c, text);
    var m := Move(S, b, c);
    if m.Went? && Wrong(m.b, i, f) {
      WrongMisreads(S, m.b, text, i, f);
    }
  }
}
