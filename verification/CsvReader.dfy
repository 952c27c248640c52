/** The dialect of lib_pypy/_csv.py, without QUOTE_NONNUMERIC. */
module CsvDialects {
  import opened Wrappers

  datatype Quoting = QuoteMinimal | QuoteAll | QuoteNone

  datatype Dialect = Dialect(
    delimiter: char,
    quotechar: Option<char>,
    escapechar: Option<char>,
    doublequote: bool,
    skipinitialspace: bool,
    lineterminator: string,
    quoting: Quoting,
    strict: bool)
  {
    /** What the source's `Dialect` constructor accepts. */
    predicate Valid() {
      (quoting != QuoteNone ==> quotechar.Some?) && lineterminator != ""
    }

    /** `c` opens, closes or doubles a quote. */
    predicate Quotes(c: char) {
      Some(c) == quotechar && quoting != QuoteNone
    }
  }

  datatype Error =
    | FieldTooLarge
    | NullByte
    | NewlineInUnquotedField
    | DelimiterExpected
    | NewlineInsideString
    | NoEscapechar
    | EmptyFieldMustBeQuoted

  predicate Newline(c: char) {
    c == '\n' || c == '\r'
  }
}

/** The reader of lib_pypy/_csv.py: its automaton, one character at a time and in batches. */
module CsvReaders {
  import opened Wrappers
  import opened CsvDialects

  datatype State =
    | StartRecord
    | StartField
    | EscapedChar
    | InField
    | InQuotedField
    | EscapeInQuotedField
    | QuoteInQuotedField
    | EatCrnl

  /** What the reader has parsed of a record. */
  datatype Parse = Parse(state: State, field: string, fields: seq<string>)

  const INITIAL: Parse := Parse(StartRecord, "", [])

  /** A field limit and a dialect: what parsing depends on. */
  datatype Setup = Setup(d: Dialect, limit: int)
  {
    function Add(p: Parse, s: string): Result<Parse, Error> {
      if |p.field| + |s| > limit then Err(FieldTooLarge) else Ok(p.(field := p.field + s))
    }

    function Save(p: Parse): Parse {
      p.(field := "", fields := p.fields + [p.field])
    }

    /** `c` belongs to an unquoted field as it stands. */
    predicate Ordinary(c: char) {
      !Newline(c) && Some(c) != d.escapechar && c != d.delimiter
    }

    function StepInField(p: Parse, c: char): Result<Parse, Error> {
      if Newline(c) then Ok(Save(p).(state := EatCrnl))
      else if Some(c) == d.escapechar then Ok(p.(state := EscapedChar))
      else if c == d.delimiter then Ok(Save(p).(state := StartField))
      else Add(p, [c])
    }

    function StepStartField(p: Parse, c: char): Result<Parse, Error> {
      if Newline(c) then Ok(Save(p).(state := EatCrnl))
      else if d.Quotes(c) then Ok(p.(state := InQuotedField))
      else if Some(c) == d.escapechar then Ok(p.(state := EscapedChar))
      else if c == ' ' && d.skipinitialspace then Ok(p)
      else if c == d.delimiter then Ok(Save(p))
      else Add(p.(state := InField), [c])
    }

    function StepInQuotedField(p: Parse, c: char): Result<Parse, Error> {
      if Some(c) == d.escapechar then Ok(p.(state := EscapeInQuotedField))
      else if d.Quotes(c) then Ok(p.(state := if d.doublequote then QuoteInQuotedField else InField))
      else Add(p, [c])
    }

    function StepQuoteInQuotedField(p: Parse, c: char): Result<Parse, Error> {
      if d.Quotes(c) then Add(p.(state := InQuotedField), [c])
      else if c == d.delimiter then Ok(Save(p).(state := StartField))
      else if Newline(c) then Ok(Save(p).(state := EatCrnl))
      else if !d.strict then Add(p.(state := InField), [c])
      else Err(DelimiterExpected)
    }

    /** The automaton on one character. */
    function Step(p: Parse, c: char): Result<Parse, Error> {
      match p.state
      case InField => StepInField(p, c)
      case StartRecord =>
        if Newline(c) then Ok(p.(state := EatCrnl)) else StepStartField(p.(state := StartField), c)
      case StartField => StepStartField(p, c)
      case EscapedChar => Add(p.(state := InField), [c])
      case InQuotedField => StepInQuotedField(p, c)
      case EscapeInQuotedField => Add(p.(state := InQuotedField), [c])
      case QuoteInQuotedField => StepQuoteInQuotedField(p, c)
      case EatCrnl => if Newline(c) then Ok(p) else Err(NewlineInUnquotedField)
    }

    /** The automaton on a text, character by character. */
    function Run(p: Parse, s: string): Result<Parse, Error>
      decreases |s|
    {
      if s == "" then Ok(p) else
      var r := Step(p, s[0]);
      if r.Err? then r else Run(r.value, s[1..])
    }

    /** The automaton at the end of a line. */
    function Eol(p: Parse): Result<Parse, Error> {
      match p.state
      case EatCrnl => Ok(p.(state := StartRecord))
      case StartRecord => Ok(p)
      case InField => Ok(Save(p).(state := StartRecord))
      case StartField => Ok(Save(p).(state := StartRecord))
      case EscapedChar => Add(p.(state := InField), "\n")
      case InQuotedField => Ok(p)
      case EscapeInQuotedField => Add(p.(state := InQuotedField), "\n")
      case QuoteInQuotedField => Ok(Save(p).(state := StartRecord))
    }

    /** How many ordinary characters there are from `pos` on. */
    function Span(line: string, pos: nat): (k: nat)
      requires pos <= |line|
      ensures pos + k <= |line|
      ensures forall i :: pos <= i < pos + k ==> Ordinary(line[i])
      ensures pos + k < |line| ==> !Ordinary(line[pos + k])
      decreases |line| - pos
    {
      if pos < |line| && Ordinary(line[pos]) then 1 + Span(line, pos + 1) else 0
    }

    /** One scan of an unquoted field: the new parse and the position to go on from. */
    function Scan(p: Parse, line: string, pos: nat): (r: Result<(Parse, nat), Error>)
      requires pos < |line|
      ensures r.Ok? ==> pos < r.value.1 <= |line|
    {
      var k := Span(line, pos);
      var stop := pos + k;
      if stop == |line| then
        var q := Add(p, line[pos..stop]);
        if q.Err? then Err(q.error) else Ok((q.value, stop))
      else if Some(line[stop]) == d.escapechar && !Newline(line[stop]) then
        // the source steps back by one here, so that a lone ordinary character is skipped
        var q := if k > 1 then Add(p.(state := EscapedChar), line[pos..stop - 1])
                 else Ok(p.(state := EscapedChar));
        if q.Err? then Err(q.error) else Ok((q.value, if k > 1 then stop - 1 else pos + 1))
      else
        var q := if k > 0 then Add(p, line[pos..stop]) else Ok(p);
        if q.Err? then Err(q.error)
        else Ok((Save(q.value).(state := if Newline(line[stop]) then EatCrnl else StartField), stop + 1))
    }

    /** One call of the source's character processing. */
    function Process(p: Parse, line: string, pos: nat): (r: Result<(Parse, nat), Error>)
      requires pos < |line|
      ensures r.Ok? ==> pos < r.value.1 <= |line|
    {
      if p.state == InField then Scan(p, line, pos)
      else
        var q := Step(p, line[pos]);
        if q.Err? then Err(q.error) else Ok((q.value, pos + 1))
    }

    /** The source's loop over a line. */
    function RunLine(p: Parse, line: string, pos: nat): Result<Parse, Error>
      requires pos <= |line|
      decreases |line| - pos
    {
      if pos == |line| then Ok(p) else
      var r := Process(p, line, pos);
      if r.Err? then Err(r.error) else RunLine(r.value.0, line, r.value.1)
    }

    /** What `next` makes of the lines still to be read, and the lines it leaves. */
    function Next(p: Parse, lines: seq<string>): (r: (Item, seq<string>))
      ensures if lines == [] then r.1 == [] && !r.0.Row? else |r.1| < |lines|
      decreases |lines|
    {
      if lines == [] then (if p.field != "" then Bad(NewlineInsideString) else Stop, [])
      else if '\0' in lines[0] then (Bad(NullByte), lines[1..])
      else
        var r := RunLine(p, lines[0], 0);
        if r.Err? then (Bad(r.error), lines[1..]) else
        var e := Eol(r.value);
        if e.Err? then (Bad(e.error), lines[1..])
        else if e.value.state == StartRecord then (Row(e.value.fields), lines[1..])
        else Next(e.value, lines[1..])
    }

    /** All rows up to the end of input, or the error met on the way. */
    function ReadAll(lines: seq<string>): Result<seq<seq<string>>, Error>
      decreases |lines|
    {
      var (item, rest) := Next(INITIAL, lines);
      match item
      case Stop => Ok([])
      case Bad(e) => Err(e)
      case Row(fields) =>
        Prepend([fields], ReadAll(rest))
    }
  }

  /** `rows` followed by the rows of `r`. */
  function Prepend(rows: seq<seq<string>>, r: Result<seq<seq<string>>, Error>): Result<seq<seq<string>>, Error> {
    if r.Err? then r else Ok(rows + r.value)
  }

  lemma PrependPrepend(a: seq<seq<string>>, b: seq<seq<string>>, r: Result<seq<seq<string>>, Error>)
    ensures Prepend(a, Prepend(b, r)) == Prepend(a + b, r)
    ensures Prepend([], r) == r
    ensures Prepend(a, Ok([])) == Ok(a)
  {
    if r.Ok? {
      assert a + (b + r.value) == a + b + r.value;
      assert [] + r.value == r.value;
    }
    assert a + [] == a;
  }

  /** What one call of `next` yields. */
  datatype Item = Row(fields: seq<string>) | Stop | Bad(error: Error)

  /** The reader object, over the lines its iterator still has to yield. */
  class Reader {
    const setup: Setup
    var input: seq<string>
    var lineNum: nat
    var field: string
    var fields: seq<string>
    var state: State

    ghost function View(): Parse
      reads this
    {
      Parse(state, field, fields)
    }

    constructor (setup: Setup, lines: seq<string>)
      ensures this.setup == setup && input == lines && lineNum == 0 && View() == INITIAL
    {
      this.setup := setup;
      input := lines;
      lineNum := 0;
      field, fields, state := "", [], StartRecord;
    }

    method ParseReset()
      modifies `field, `fields, `state
      ensures View() == INITIAL
    {
      field, fields, state := "", [], StartRecord;
    }

    method ParseSaveField()
      modifies `field, `fields
      ensures View() == setup.Save(old(View()))
    {
      fields := fields + [field];
      field := "";
    }

    method ParseAddChar(s: string) returns (r: Result<(), Error>)
      modifies `field
      ensures setup.Add(old(View()), s) == if r.Err? then Err(r.error) else Ok(View())
      ensures r.Err? ==> field == old(field)
    {
      if |field| + |s| > setup.limit {
        return Err(FieldTooLarge);
      }
      field := field + s;
      return Ok(());
    }

    /** The branch of the character processing for a field without quotes. */
    method ScanField(line: string, start: nat) returns (r: Result<nat, Error>)
      requires start < |line| && state == InField
      modifies `field, `fields, `state
      ensures setup.Scan(old(View()), line, start) == if r.Err? then Err(r.error) else Ok((View(), r.value))
    {
      var pos: int := start;
      var pos2: int := start;
      var c := line[pos];
      while setup.Ordinary(c)
        invariant start <= pos2 < |line| && c == line[pos2]
        invariant setup.Span(line, start) == pos2 - start + setup.Span(line, pos2)
        decreases |line| - pos2
      {
        pos2 := pos2 + 1;
        if pos2 == |line| {
          break;
        }
        c := line[pos2];
      }
      ghost var k := setup.Span(line, start);
      assert pos2 == start + k;
      if pos2 == |line| {
      } else if Newline(c) {
        if pos2 > pos {
          var a := ParseAddChar(line[pos..pos2]);
          if a.Err? {
            return Err(a.error);
          }
          pos := pos2;
        }
        ParseSaveField();
        state := EatCrnl;
      } else if Some(c) == setup.d.escapechar {
        pos2 := pos2 - 1;
        state := EscapedChar;
      } else {
        if pos2 > pos {
          var a := ParseAddChar(line[pos..pos2]);
          if a.Err? {
            return Err(a.error);
          }
          pos := pos2;
        }
        ParseSaveField();
        state := StartField;
      }
      if pos2 > pos {
        var a := ParseAddChar(line[pos..pos2]);
        if a.Err? {
          return Err(a.error);
        }
        pos := pos2 - 1;
      }
      return Ok(pos + 1);
    }

    method ParseProcessChar(line: string, pos: nat) returns (r: Result<nat, Error>)
      requires pos < |line|
      modifies `field, `fields, `state
      ensures setup.Process(old(View()), line, pos) == if r.Err? then Err(r.error) else Ok((View(), r.value))
      decreases state == StartRecord
    {
      var c := line[pos];
      var a := Ok(());
      match state {
        case InField =>
          r := ScanField(line, pos);
          return;
        case StartRecord =>
          if Newline(c) {
            state := EatCrnl;
          } else {
            state := StartField;
            // restart
            r := ParseProcessChar(line, pos);
            return;
          }
        case StartField =>
          if Newline(c) {
            ParseSaveField();
            state := EatCrnl;
          } else if setup.d.Quotes(c) {
            state := InQuotedField;
          } else if Some(c) == setup.d.escapechar {
            state := EscapedChar;
          } else if c == ' ' && setup.d.skipinitialspace {
          } else if c == setup.d.delimiter {
            ParseSaveField();
          } else {
            a := ParseAddChar([c]);
            state := InField;
          }
        case EscapedChar =>
          a := ParseAddChar([c]);
          state := InField;
        case InQuotedField =>
          if Some(c) == setup.d.escapechar {
            state := EscapeInQuotedField;
          } else if setup.d.Quotes(c) {
            state := if setup.d.doublequote then QuoteInQuotedField else InField;
          } else {
            a := ParseAddChar([c]);
          }
        case EscapeInQuotedField =>
          a := ParseAddChar([c]);
          state := InQuotedField;
        case QuoteInQuotedField =>
          if setup.d.Quotes(c) {
            a := ParseAddChar([c]);
            state := InQuotedField;
          } else if c == setup.d.delimiter {
            ParseSaveField();
            state := StartField;
          } else if Newline(c) {
            ParseSaveField();
            state := EatCrnl;
          } else if !setup.d.strict {
            a := ParseAddChar([c]);
            state := InField;
          } else {
            return Err(DelimiterExpected);
          }
        case EatCrnl =>
          if !Newline(c) {
            return Err(NewlineInUnquotedField);
          }
      }
      if a.Err? {
        return Err(a.error);
      }
      return Ok(pos + 1);
    }

    method ParseEol() returns (r: Result<(), Error>)
      modifies `field, `fields, `state
      ensures setup.Eol(old(View())) == if r.Err? then Err(r.error) else Ok(View())
    {
      r := Ok(());
      match state {
        case EatCrnl =>
          state := StartRecord;
        case StartRecord =>
        case InField =>
          ParseSaveField();
          state := StartRecord;
        case StartField =>
          ParseSaveField();
          state := StartRecord;
        case EscapedChar =>
          r := ParseAddChar("\n");
          state := InField;
        case InQuotedField =>
        case EscapeInQuotedField =>
          r := ParseAddChar("\n");
          state := InQuotedField;
        case QuoteInQuotedField =>
          ParseSaveField();
          state := StartRecord;
      }
    }

    /** The source's loop over the characters of a line. */
    method ParseLine(line: string) returns (r: Result<(), Error>)
      modifies `field, `fields, `state
      ensures setup.RunLine(old(View()), line, 0) == if r.Err? then Err(r.error) else Ok(View())
    {
      var pos := 0;
      while pos < |line|
        invariant 0 <= pos <= |line|
        invariant setup.RunLine(old(View()), line, 0) == setup.RunLine(View(), line, pos)
      {
        var a := ParseProcessChar(line, pos);
        if a.Err? {
          return Err(a.error);
        }
        pos := a.value;
      }
      return Ok(());
    }

    /** `next`: the next row, the end of the input, or an error. */
    method Next() returns (item: Item)
      modifies this
      ensures setup.Next(INITIAL, old(input)) == (item, input)
      ensures lineNum == old(lineNum) + |old(input)| - |input|
    {
      ParseReset();
      while true
        invariant setup.Next(INITIAL, old(input)) == setup.Next(View(), input)
        invariant lineNum == old(lineNum) + |old(input)| - |input|
        decreases |input|
      {
        if input == [] {
          return if |field| > 0 then Bad(NewlineInsideString) else Stop;
        }
        var line := input[0];
        input := input[1..];
        lineNum := lineNum + 1;
        if '\0' in line {
          return Bad(NullByte);
        }
        var a := ParseLine(line);
        if a.Err? {
          return Bad(a.error);
        }
        a := ParseEol();
        if a.Err? {
          return Bad(a.error);
        }
        if state == StartRecord {
          break;
        }
      }
      item := Row(fields);
      fields := [];
    }
  }

  /** Iterating over a reader until it stops or fails. */
  method ReadRows(setup: Setup, lines: seq<string>) returns (r: Result<seq<seq<string>>, Error>)
    ensures r == setup.ReadAll(lines)
  {
    var reader := new Reader(setup, lines);
    var rows := [];
    PrependPrepend([], [], setup.ReadAll(lines));
    while true
      invariant reader.setup == setup
      invariant setup.ReadAll(lines) == Prepend(rows, setup.ReadAll(reader.input))
      decreases |reader.input|
    {
      var item := reader.Next();
      match item {
        case Stop =>
          PrependPrepend(rows, [], Ok([]));
          return Ok(rows);
        case Bad(e) => return Err(e);
        case Row(fields) =>
          PrependPrepend(rows, [fields], setup.ReadAll(reader.input));
          rows := rows + [fields];
      }
    }
  }
}
