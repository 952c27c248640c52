/** The writer of lib_pypy/_csv.py. */
module CsvWriters {
  import opened Wrappers
  import opened CsvDialects

  /** A field handed to the writer: text, or None, which is written as the empty text. */
  datatype Cell = Text(s: string) | Nothing

  function Value(c: Cell): string {
    if c.Text? then c.s else ""
  }

  /** `s` with every `c` replaced by `r`. */
  function Replace(s: string, c: char, r: string): string {
    if s == "" then "" else (if s[0] == c then r else [s[0]]) + Replace(s[1..], c, r)
  }

  /** `s` with every character of `cs` that occurs in it escaped, one character after the other. */
  function Escape(s: string, cs: seq<char>, escapechar: Option<char>): Result<string, Error>
    decreases |cs|
  {
    if cs == [] then Ok(s)
    else if cs[0] !in s then Escape(s, cs[1..], escapechar)
    else if escapechar.None? then Err(NoEscapechar)
    else Escape(Replace(s, cs[0], [escapechar.value, cs[0]]), cs[1..], escapechar)
  }

  function OptionSeq(o: Option<char>): seq<char> {
    if o.Some? then [o.value] else []
  }

  /** The characters that QUOTE_NONE escapes. */
  function EscapedInPlain(d: Dialect): seq<char> {
    d.lineterminator + OptionSeq(d.escapechar) + [d.delimiter] + OptionSeq(d.quotechar)
  }

  /** A field needs quotes for one of its characters. */
  predicate Special(d: Dialect, field: string) {
    exists i :: 0 <= i < |field| &&
      (field[i] in d.lineterminator || field[i] == d.delimiter || Some(field[i]) == d.escapechar)
  }

  /** What the writer makes of one field, separators apart. */
  function FieldText(d: Dialect, field: string, quoted: bool, quoteEmpty: bool): Result<string, Error>
    requires d.Valid() && (quoted ==> d.quoting != QuoteNone)
  {
    if d.quoting == QuoteNone then
      var e := Escape(field, EscapedInPlain(d), d.escapechar);
      if e.Ok? && e.value == "" && quoteEmpty then Err(EmptyFieldMustBeQuoted) else e
    else
      var q := d.quotechar.value;
      var doubled := q in field && d.doublequote;
      var e := if doubled then Ok(Replace(field, q, [q, q]))
               else Escape(field, if q in field then [q] else [], d.escapechar);
      if e.Err? then e
      else if quoted || Special(d, field) || doubled || (e.value == "" && quoteEmpty) then
        Ok([q] + e.value + [q])
      else e
  }

  /** The fields `row`, each preceded by a delimiter unless it is the first of its row. */
  function JoinedFrom(d: Dialect, row: seq<Cell>, first: bool, quoteEmpty: bool): Result<string, Error>
    requires d.Valid()
    decreases |row|
  {
    if row == [] then Ok("") else
    var e := FieldText(d, Value(row[0]), d.quoting == QuoteAll, quoteEmpty);
    if e.Err? then e else
    var rest := JoinedFrom(d, row[1..], false, quoteEmpty);
    if rest.Err? then rest else
    Ok((if first then "" else [d.delimiter]) + e.value + rest.value)
  }

  function RowText(d: Dialect, row: seq<Cell>): Result<string, Error>
    requires d.Valid()
  {
    var e := JoinedFrom(d, row, true, |row| == 1);
    if e.Err? then e else Ok(e.value + d.lineterminator)
  }

  /** The rows' text up to the first row that cannot be written, and that row's error if any. */
  function RowsText(d: Dialect, rows: seq<seq<Cell>>): (string, Result<(), Error>)
    requires d.Valid()
    decreases |rows|
  {
    if rows == [] then ("", Ok(())) else
    var e := RowText(d, rows[0]);
    if e.Err? then ("", Err(e.error)) else
    var (text, r) := RowsText(d, rows[1..]);
    (e.value + text, r)
  }

  function Concat(ss: seq<string>): string {
    if ss == [] then "" else ss[0] + Concat(ss[1..])
  }

  lemma {:induction false} ConcatSnoc(ss: seq<string>, s: string)
    ensures Concat(ss + [s]) == Concat(ss) + s
  {
    if ss == [] {
      assert Concat([s]) == s + "" == s;
    } else {
      assert (ss + [s])[1..] == ss[1..] + [s];
      ConcatSnoc(ss[1..], s);
      assert ss[0] + (Concat(ss[1..]) + s) == Concat(ss) + s;
    }
  }

  /** The writer object; `written` is what its file has received. */
  class Writer {
    const d: Dialect
    var rec: seq<string>
    var numFields: nat
    var written: string

    constructor (d: Dialect)
      ensures this.d == d && written == ""
    {
      this.d := d;
      rec, numFields, written := [], 0, "";
    }

    method JoinReset()
      modifies `rec, `numFields
      ensures rec == [] && numFields == 0
    {
      rec, numFields := [], 0;
    }

    /** One more part of the record. */
    method AddPart(s: string)
      modifies `rec
      ensures Concat(rec) == Concat(old(rec)) + s
    {
      ConcatSnoc(rec, s);
      rec := rec + [s];
    }

    /** The loop of the source over the characters to be escaped. */
    method EscapeAll(field0: string, needEscape: seq<char>) returns (r: Result<string, Error>)
      ensures r == Escape(field0, needEscape, d.escapechar)
    {
      var field := field0;
      for i := 0 to |needEscape|
        invariant Escape(field0, needEscape, d.escapechar) == Escape(field, needEscape[i..], d.escapechar)
      {
        var c := needEscape[i];
        if c in field {
          if d.escapechar.None? {
            return Err(NoEscapechar);
          }
          field := Replace(field, c, [d.escapechar.value, c]);
        }
      }
      return Ok(field);
    }

    /** What `_join_append` makes of a field, and whether it goes in quotes. */
    method Prepared(field0: string, quoted0: bool, quoteEmpty: bool)
      returns (r: Result<string, Error>, quoted: bool)
      requires d.Valid() && (quoted0 ==> d.quoting != QuoteNone)
      ensures quoted ==> d.quotechar.Some?
      ensures FieldText(d, field0, quoted0, quoteEmpty) ==
              if r.Err? || !quoted then r else Ok([d.quotechar.value] + r.value + [d.quotechar.value])
    {
      var field := field0;
      quoted := quoted0;
      var needEscape: seq<char> := [];
      if d.quoting == QuoteNone {
        needEscape := EscapedInPlain(d);
      } else {
        if Special(d, field) {
          quoted := true;
        }
        var q := d.quotechar.value;
        if q in field {
          if d.doublequote {
            field := Replace(field, q, [q, q]);
            quoted := true;
          } else {
            needEscape := [q];
          }
        }
      }
      r := EscapeAll(field, needEscape);
      if r.Err? {
        return;
      }
      if r.value == "" && quoteEmpty {
        if d.quoting == QuoteNone {
          r := Err(EmptyFieldMustBeQuoted);
          return;
        }
        quoted := true;
      }
    }

    method JoinAppend(field0: string, quoted0: bool, quoteEmpty: bool) returns (r: Result<(), Error>)
      requires d.Valid() && (quoted0 ==> d.quoting != QuoteNone)
      modifies `rec, `numFields
      ensures var e := FieldText(d, field0, quoted0, quoteEmpty);
        if e.Err? then r == Err(e.error)
        else && r == Ok(())
             && Concat(rec) == Concat(old(rec)) + (if old(numFields) > 0 then [d.delimiter] else "") + e.value
             && numFields == old(numFields) + 1
    {
      if numFields > 0 {
        AddPart([d.delimiter]);
      }
      var field, quoted := Prepared(field0, quoted0, quoteEmpty);
      if field.Err? {
        return Err(field.error);
      }
      AddField(field.value, quoted);
      return Ok(());
    }

    /** The end of `_join_append`. */
    method AddField(field: string, quoted: bool)
      requires quoted ==> d.quotechar.Some?
      modifies `rec, `numFields
      ensures numFields == old(numFields) + 1
      ensures Concat(rec) == Concat(old(rec)) +
                if quoted then [d.quotechar.value] + field + [d.quotechar.value] else field
    {
      AddPart(if quoted then [d.quotechar.value] + field + [d.quotechar.value] else field);
      numFields := numFields + 1;
    }

    /** Writes a row in one piece, or fails and writes nothing. */
    method WriteRow(row: seq<Cell>) returns (r: Result<(), Error>)
      requires d.Valid()
      modifies this
      ensures var e := RowText(d, row);
        if e.Err? then r == Err(e.error) && written == old(written)
        else r == Ok(()) && written == old(written) + e.value
    {
      JoinReset();
      AppendNothing(JoinedFrom(d, row, true, |row| == 1));
      for i := 0 to |row|
        invariant written == old(written)
        invariant numFields == i
        invariant JoinedFrom(d, row, true, |row| == 1) ==
          Append(Concat(rec), JoinedFrom(d, row[i..], i == 0, |row| == 1))
      {
        ghost var before := Concat(rec);
        r := JoinAppend(Value(row[i]), d.quoting == QuoteAll, |row| == 1);
        if r.Err? {
          return;
        }
        JoinedStep(d, row, i, |row| == 1, before);
      }
      AddPart(d.lineterminator);
      written := written + Concat(rec);
      return Ok(());
    }

    /** Writes rows until one fails. */
    method WriteRows(rows: seq<seq<Cell>>) returns (r: Result<(), Error>)
      requires d.Valid()
      modifies this
      ensures (written, r) == After(old(written), RowsText(d, rows))
    {
      for i := 0 to |rows|
        invariant After(old(written), RowsText(d, rows)) == After(written, RowsText(d, rows[i..]))
      {
        RowsStep(d, rows, i, written);
        r := WriteRow(rows[i]);
        if r.Err? {
          return;
        }
      }
      assert written + "" == written;
      return Ok(());
    }
  }

  function After(s: string, t: (string, Result<(), Error>)): (string, Result<(), Error>) {
    (s + t.0, t.1)
  }

  lemma RowsStep(d: Dialect, rows: seq<seq<Cell>>, i: nat, before: string)
    requires d.Valid() && i < |rows|
    ensures var e := RowText(d, rows[i]);
      After(before, RowsText(d, rows[i..])) ==
      if e.Err? then (before, Err(e.error)) else After(before + e.value, RowsText(d, rows[i + 1..]))
  {
    assert rows[i..][1..] == rows[i + 1..];
    var e := RowText(d, rows[i]);
    if e.Ok? {
      assert before + (e.value + RowsText(d, rows[i + 1..]).0) == before + e.value + RowsText(d, rows[i + 1..]).0;
    } else {
      assert before + "" == before;
    }
  }

  lemma AppendNothing(r: Result<string, Error>)
    ensures Append("", r) == r
  {
    if r.Ok? { assert "" + r.value == r.value; }
  }

  function Append(s: string, r: Result<string, Error>): Result<string, Error> {
    if r.Err? then r else Ok(s + r.value)
  }

  /** One more field joined on to the text `before` of those already joined. */
  lemma JoinedStep(d: Dialect, row: seq<Cell>, i: nat, quoteEmpty: bool, before: string)
    requires d.Valid() && i < |row|
    requires FieldText(d, Value(row[i]), d.quoting == QuoteAll, quoteEmpty).Ok?
    ensures var e := FieldText(d, Value(row[i]), d.quoting == QuoteAll, quoteEmpty).value;
      Append(before, JoinedFrom(d, row[i..], i == 0, quoteEmpty)) ==
      Append(before + (if i > 0 then [d.delimiter] else "") + e, JoinedFrom(d, row[i + 1..], false, quoteEmpty))
  {
    var e := FieldText(d, Value(row[i]), d.quoting == QuoteAll, quoteEmpty).value;
    var sep := if i > 0 then [d.delimiter] else "";
    assert row[i..][1..] == row[i + 1..];
    var rest := JoinedFrom(d, row[i + 1..], false, quoteEmpty);
    if rest.Ok? {
      assert before + (sep + e + rest.value) == before + sep + e + rest.value;
    }
  }
}
