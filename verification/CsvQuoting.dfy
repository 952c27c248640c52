/** When the writer puts a field in quotes, and what it escapes, said character by character. */
module CsvQuotings {
  import opened Wrappers
  import opened CsvDialects
  import opened CsvLines
  import opened CsvReaders
  import opened CsvWriters
  import CsvEscapes
  import CsvRoundTrips
  import CsvSplits

  lemma {:induction false} ReplaceGrows(s: string, c: char, r: string)
    requires |r| > 1
    ensures |Replace(s, c, r)| >= |s|
    ensures c in s ==> |Replace(s, c, r)| > |s|
  {
    if s != "" {
      ReplaceGrows(s[1..], c, r);
      assert s == [s[0]] + s[1..];
    }
  }

  /** The field with quotes doubled, or with the escape character before them. */
  function Inner(d: Dialect, s: string): string
    requires d.Valid() && d.quoting != QuoteNone && (d.quotechar.value in s && !d.doublequote ==> d.escapechar.Some?)
  {
    var q := d.quotechar.value;
    if q !in s then s else Replace(s, q, [if d.doublequote then q else d.escapechar.value, q])
  }

  /** For one of its characters the field needs quotes, whatever its quotes need. */
  predicate NeedsQuotes(d: Dialect, s: string) {
    (exists c :: c in s && c in d.lineterminator) || d.delimiter in s || (d.escapechar.Some? && d.escapechar.value in s)
  }

  /**
    * What is written for a field, unless quoting is off: in quotes if all fields are, if it has the delimiter,
    * the escape character or a character of the line terminator, if quotes in it are doubled, or if it is the
    * only field of its row and empty. It fails exactly if a quote can be neither doubled nor escaped.
    */
  lemma QuotedExactly(d: Dialect, s: string, quoted: bool, quoteEmpty: bool)
    requires d.Valid() && d.quoting != QuoteNone
    ensures var (q, r) := (d.quotechar.value, FieldText(d, s, quoted, quoteEmpty));
      if q in s && !d.doublequote && d.escapechar.None? then r == Err(NoEscapechar)
      else if quoted || NeedsQuotes(d, s) || (q in s && d.doublequote) || (s == "" && quoteEmpty) then
        r == Ok([q] + Inner(d, s) + [q])
      else r == Ok(Inner(d, s))
  {
    var q := d.quotechar.value;
    assert Special(d, s) <==> NeedsQuotes(d, s);
    if q in s {
      ReplaceGrows(s, q, [q, q]);
      EscapeOne(s, q, d.escapechar);
    }
  }

  lemma EscapeOne(s: string, c: char, escapechar: Option<char>)
    requires c in s
    ensures Escape(s, [c], escapechar) ==
      if escapechar.None? then Err(NoEscapechar) else Ok(Replace(s, c, [escapechar.value, c]))
    ensures escapechar.Some? ==> |Replace(s, c, [escapechar.value, c])| > |s|
  {
    assert [c][1..] == [];
    if escapechar.Some? {
      ReplaceGrows(s, c, [escapechar.value, c]);
    }
  }

  /** Nothing in the field means anything to the reader. */
  predicate Harmless(d: Dialect, s: string) {
    forall i :: 0 <= i < |s| ==>
      && s[i] !in d.lineterminator && s[i] != d.delimiter
      && Some(s[i]) != d.escapechar && Some(s[i]) != d.quotechar
  }

  /** QUOTE_MINIMAL leaves a field as it is exactly if it has no special character. */
  lemma MinimalIff(d: Dialect, s: string)
    requires d.Valid() && d.quoting == QuoteMinimal
    ensures FieldText(d, s, false, false) == Ok(s) <==>
      forall i :: 0 <= i < |s| ==>
        && s[i] !in d.lineterminator && s[i] != d.delimiter
        && Some(s[i]) != d.escapechar && Some(s[i]) != d.quotechar
  {
    var q := d.quotechar.value;
    QuotedExactly(d, s, false, false);
    if q in s {
      ReplaceGrows(s, q, [q, q]);
      if d.escapechar.Some? {
        ReplaceGrows(s, q, [d.escapechar.value, q]);
      }
    }
    assert Harmless(d, s) <==> !NeedsQuotes(d, s) && q !in s;
  }

  // QUOTE_NONE.

  function Copies(e: char, n: nat): string {
    if n == 0 then "" else [e] + Copies(e, n - 1)
  }

  lemma {:induction false} CopiesSnoc(e: char, n: nat)
    ensures Copies(e, n) + [e] == Copies(e, n + 1)
  {
    if n > 0 {
      CopiesSnoc(e, n - 1);
      assert [e] + Copies(e, n - 1) + [e] == [e] + (Copies(e, n - 1) + [e]);
    }
  }

  /** The characters that QUOTE_NONE puts the escape character before. */
  predicate Marked(d: Dialect, c: char) {
    c in d.lineterminator || c == d.delimiter || Some(c) == d.escapechar || Some(c) == d.quotechar
  }

  lemma MarkedIff(d: Dialect, c: char)
    ensures c in EscapedInPlain(d) <==> Marked(d, c)
  {
  }

  /** The characters are escaped each on its own, whatever stands beside them. */
  lemma {:induction false} EscapeBoth(s: string, t: string, cs: seq<char>, e: char)
    ensures Escape(s, cs, Some(e)).Ok? && Escape(t, cs, Some(e)).Ok?
    ensures Escape(s + t, cs, Some(e)) == Ok(Escape(s, cs, Some(e)).value + Escape(t, cs, Some(e)).value)
    decreases |cs|
  {
    if cs != [] {
      var (c, r) := (cs[0], [e, cs[0]]);
      CsvEscapes.ReplaceOf(s, t, c, r);
      Skips(s, c, r);
      Skips(t, c, r);
      Skips(s + t, c, r);
      EscapeBoth(Replace(s, c, r), Replace(t, c, r), cs[1..], e);
    }
  }

  lemma Skips(s: string, c: char, r: string)
    ensures c !in s ==> Replace(s, c, r) == s
  {
    if c !in s {
      CsvRoundTrips.ReplaceAbsent(s, c, r);
    }
  }

  /** The escaped character with the escape characters in front of it, one more escaping later. */
  lemma {:induction false} EscapedAgain(c: char, x: char, e: char, n: nat) returns (m: nat)
    ensures Replace(Copies(e, n) + [c], x, [e, x]) == Copies(e, m) + [c]
    ensures m == if x == e then (if c == e then 2 * n + 1 else 2 * n) else if x == c then n + 1 else n
    decreases n
  {
    if n == 0 {
      m := if x == c then 1 else 0;
      assert Copies(e, 0) + [c] == [c] && Replace([c], x, [e, x]) == (if c == x then [e, x] else [c]) + "";
      assert Copies(e, 1) + [c] == [e, c];
    } else {
      var k := EscapedAgain(c, x, e, n - 1);
      var s := Copies(e, n - 1) + [c];
      assert Copies(e, n) + [c] == [e] + s && ([e] + s)[1..] == s;
      if x == e {
        m := k + 2;
        assert [e, e] + (Copies(e, k) + [c]) == [e] + ([e] + Copies(e, k)) + [c];
        assert Copies(e, k + 2) == [e] + Copies(e, k + 1) && Copies(e, k + 1) == [e] + Copies(e, k);
      } else {
        m := k + 1;
        assert [e] + (Copies(e, k) + [c]) == [e] + Copies(e, k) + [c];
      }
    }
  }

  /** The first of the two is escaped before the other one. */
  predicate Earlier(cs: seq<char>, c: char, e: char) {
    cs != [] && cs[0] != e && (cs[0] == c || Earlier(cs[1..], c, e))
  }

  predicate Distinct(cs: seq<char>) {
    forall i, j :: 0 <= i < j < |cs| ==> cs[i] != cs[j]
  }

  /** Once for the character itself, and twice as often if the escape character is escaped after it. */
  function TimesOf(c: char, cs: seq<char>, e: char, n: nat): nat {
    if e !in cs then (if c in cs then n + 1 else n)
    else if c != e && c !in cs then 2 * n
    else if c != e && Earlier(cs, c, e) then 2 * n + 2
    else 2 * n + 1
  }

  /** How often the escape character stands before a character in the end, when it did `n` times before. */
  lemma {:induction false} EscapedTimes(c: char, cs: seq<char>, e: char, n: nat) returns (m: nat)
    ensures Escape(Copies(e, n) + [c], cs, Some(e)) == Ok(Copies(e, m) + [c])
    ensures m >= n && (c in cs ==> m > n) && (c !in cs && n == 0 ==> m == 0)
    ensures Distinct(cs) ==> m == TimesOf(c, cs, e, n)
    decreases |cs|
  {
    if cs == [] {
      m := n;
    } else {
      var s := Copies(e, n) + [c];
      var k := EscapedAgain(c, cs[0], e, n);
      Skips(s, cs[0], [e, cs[0]]);
      m := EscapedTimes(c, cs[1..], e, k);
      assert cs == [cs[0]] + cs[1..];
    }
  }

  lemma FirstEscaped(s: string, i: nat, cs: seq<char>, e: char) returns (u: string, m: nat, v: string)
    requires i < |s|
    ensures Escape(s, cs, Some(e)) == Ok(u + Copies(e, m) + [s[i]] + v)
    ensures Escape(s[..i], cs, Some(e)) == Ok(u) && Escape(s[i + 1..], cs, Some(e)) == Ok(v)
    ensures m > 0 <==> s[i] in cs
    ensures Distinct(cs) ==> m == TimesOf(s[i], cs, e, 0)
  {
    EscapeBoth(s[..i], [s[i]], cs, e);
    EscapeBoth(s[..i] + [s[i]], s[i + 1..], cs, e);
    assert s == s[..i] + [s[i]] + s[i + 1..] && Copies(e, 0) + [s[i]] == [s[i]];
    m := EscapedTimes(s[i], cs, e, 0);
    u, v := Escape(s[..i], cs, Some(e)).value, Escape(s[i + 1..], cs, Some(e)).value;
    assert u + (Copies(e, m) + [s[i]]) + v == u + Copies(e, m) + [s[i]] + v;
  }

  /**
    * With QUOTE_NONE, each character of a field that means something has the escape character before it, the
    * others stand as they are, and all of it in order. A character of the line terminator has it twice, since
    * the escape character is escaped after it.
    */
  lemma PlainEscapes(d: Dialect, s: string, i: nat) returns (u: string, m: nat, v: string)
    requires d.Valid() && d.quoting == QuoteNone && d.escapechar.Some? && i < |s|
    ensures FieldText(d, s, false, false) == Ok(u + Copies(d.escapechar.value, m) + [s[i]] + v)
    ensures FieldText(d, s[..i], false, false) == Ok(u) && FieldText(d, s[i + 1..], false, false) == Ok(v)
    ensures m > 0 <==>
      s[i] in d.lineterminator || s[i] == d.delimiter || Some(s[i]) == d.escapechar || Some(s[i]) == d.quotechar
    ensures Distinct(EscapedInPlain(d)) && m > 0 ==> m == if s[i] in d.lineterminator then 2 else 1
  {
    var cs, e := EscapedInPlain(d), d.escapechar.value;
    u, m, v := FirstEscaped(s, i, cs, e);
    MarkedIff(d, s[i]);
    if Distinct(cs) && m > 0 && s[i] != e {
      TerminatorFirst(d, s[i]);
    } else if Distinct(cs) && m > 0 {
      EscapeLater(d);
    }
  }

  lemma TerminatorFirst(d: Dialect, c: char)
    requires d.escapechar.Some? && Distinct(EscapedInPlain(d)) && c in EscapedInPlain(d) && Some(c) != d.escapechar
    ensures Earlier(EscapedInPlain(d), c, d.escapechar.value) <==> c in d.lineterminator
  {
    var e := d.escapechar.value;
    var after := [d.delimiter] + OptionSeq(d.quotechar);
    assert EscapedInPlain(d) == d.lineterminator + [e] + after;
    EscapeLater(d);
    EarlierThan(d.lineterminator, after, c, e);
  }

  lemma EscapeLater(d: Dialect)
    requires d.escapechar.Some? && Distinct(EscapedInPlain(d))
    ensures d.escapechar.value !in d.lineterminator && d.escapechar.value in EscapedInPlain(d)
  {
    var cs, k := EscapedInPlain(d), |d.lineterminator|;
    assert cs[k] == d.escapechar.value && forall i :: 0 <= i < k ==> cs[i] == d.lineterminator[i];
  }

  lemma {:induction false} EarlierThan(before: seq<char>, after: seq<char>, c: char, e: char)
    requires e !in before && c != e
    ensures Earlier(before + [e] + after, c, e) <==> c in before
  {
    var cs := before + [e] + after;
    if before != [] {
      assert cs[1..] == before[1..] + [e] + after && before == [before[0]] + before[1..];
      EarlierThan(before[1..], after, c, e);
    }
  }

  /** Without an escape character, a field that has such a character cannot be written with QUOTE_NONE. */
  lemma PlainFails(d: Dialect, s: string)
    requires d.Valid() && d.quoting == QuoteNone && d.escapechar.None?
    ensures FieldText(d, s, false, false) ==
      if exists i :: 0 <= i < |s| && Marked(d, s[i]) then Err(NoEscapechar) else Ok(s)
  {
    EscapeFails(s, EscapedInPlain(d));
    forall i | 0 <= i < |s|
      ensures s[i] in EscapedInPlain(d) <==> Marked(d, s[i])
    {
      MarkedIff(d, s[i]);
    }
  }

  lemma {:induction false} EscapeFails(s: string, cs: seq<char>)
    ensures Escape(s, cs, None) == if exists i :: 0 <= i < |s| && s[i] in cs then Err(NoEscapechar) else Ok(s)
    decreases |cs|
  {
    if cs != [] {
      EscapeFails(s, cs[1..]);
      assert cs == [cs[0]] + cs[1..];
      assert forall i :: 0 <= i < |s| ==> (s[i] in cs <==> s[i] == cs[0] || s[i] in cs[1..]);
    }
  }

  /**
    * So a newline of the line terminator is not protected: what is escaped in the text is the escape
    * character, and the newline ends the record.
    */
  lemma TerminatorUnprotected(su: Setup, c: char, rest: seq<string>)
    requires su.d.Valid() && su.d.quoting == QuoteNone && Distinct(EscapedInPlain(su.d)) && su.limit >= 1
    requires su.d.escapechar.Some? && CsvSplits.Escapes(su.d, su.d.escapechar.value)
    requires su.d.escapechar.value != '\0' && Newline(c) && c in su.d.lineterminator
    requires su.d.skipinitialspace ==> su.d.delimiter != ' '
    ensures var e := su.d.escapechar.value;
      && FieldText(su.d, [c], false, false) == Ok([e, e, c])
      && su.Next(INITIAL, [[e, e, c]] + rest) == (Row([[e]]), rest)
  {
    var e := su.d.escapechar.value;
    var u, m, v := PlainEscapes(su.d, [c], 0);
    assert [c][..0] == "" && [c][1..] == "";
    EscapeBoth("", "", EscapedInPlain(su.d), e);
    EscapedNothing(EscapedInPlain(su.d), e);
    assert Copies(e, 2) == [e] + ([e] + Copies(e, 0));
    assert u + Copies(e, 2) + [c] + v == [e, e, c];
    CsvSplits.EscapedStart(su, e, e, "", [c], rest);
    CsvSplits.EmptyText(su, [e], "");
    assert [e, e] + "" + [c] == [e, e, c] && [e] + "" == [e];
  }

  lemma {:induction false} EscapedNothing(cs: seq<char>, e: char)
    ensures Escape("", cs, Some(e)) == Ok("")
    decreases |cs|
  {
    if cs != [] {
      EscapedNothing(cs[1..], e);
    }
  }

  // Rows.

  /** The texts of the fields of a row. */
  predicate Texts(d: Dialect, row: seq<Cell>, quoteEmpty: bool, texts: seq<string>)
    requires d.Valid()
  {
    && |texts| == |row|
    && forall i :: 0 <= i < |row| ==>
         FieldText(d, Value(row[i]), d.quoting == QuoteAll, quoteEmpty) == Ok(texts[i])
  }

  lemma {:induction false} JoinedTexts(d: Dialect, row: seq<Cell>, first: bool, quoteEmpty: bool, texts: seq<string>)
    requires d.Valid() && Texts(d, row, quoteEmpty, texts)
    ensures var joined := CsvSplits.Join(texts, d.delimiter);
      JoinedFrom(d, row, first, quoteEmpty) == Ok(if first || row == [] then joined else [d.delimiter] + joined)
    decreases |row|
  {
    if row != [] {
      assert FieldText(d, Value(row[0]), d.quoting == QuoteAll, quoteEmpty) == Ok(texts[0]);
      JoinedTexts(d, row[1..], false, quoteEmpty, texts[1..]);
      JoinedStrings(texts, d.delimiter, if first then "" else [d.delimiter]);
    }
  }

  lemma JoinedStrings(texts: seq<string>, c: char, sep: string)
    requires texts != []
    ensures sep + CsvSplits.Join(texts, c) ==
      sep + texts[0] + if |texts| == 1 then "" else [c] + CsvSplits.Join(texts[1..], c)
    ensures "" + CsvSplits.Join(texts, c) == CsvSplits.Join(texts, c)
  {
    var rest := CsvSplits.Join(texts[1..], c);
    assert sep + texts[0] + ([c] + rest) == sep + (texts[0] + [c] + rest);
    assert sep + texts[0] + "" == sep + texts[0];
  }

  /** A row is its fields with delimiters between them, and the line terminator. */
  lemma RowIsJoined(d: Dialect, row: seq<Cell>, texts: seq<string>)
    requires d.Valid() && Texts(d, row, |row| == 1, texts)
    ensures RowText(d, row) == Ok(CsvSplits.Join(texts, d.delimiter) + d.lineterminator)
  {
    JoinedTexts(d, row, true, |row| == 1, texts);
  }

  /** Fields that the writer leaves as they are and that mean nothing to the reader. */
  predicate PlainRow(d: Dialect, vs: seq<string>) {
    vs != [] && vs != [""] && forall i :: 0 <= i < |vs| ==> Harmless(d, vs[i]) && CsvSplits.Simple(d, vs[i])
  }

  function Cells(vs: seq<string>): (r: seq<Cell>)
    ensures |r| == |vs| && forall i :: 0 <= i < |r| ==> r[i] == Text(vs[i])
  {
    seq(|vs|, i requires 0 <= i < |vs| => Text(vs[i]))
  }

  /**
    * With QUOTE_MINIMAL in any dialect, a row of such fields is written as it stands, with delimiters between
    * the fields, and the reader splits the line there again.
    */
  lemma PlainRowBack(su: Setup, vs: seq<string>, rest: seq<string>)
    requires su.d.Valid() && su.d.quoting == QuoteMinimal && !su.d.skipinitialspace
    requires PlainRow(su.d, vs) && CsvSplits.AllFit(su, vs) && CsvSplits.Simple(su.d, [su.d.delimiter])
    requires CsvSplits.LineEnd(su.d, su.d.lineterminator) && AllNewlines(su.d.lineterminator)
    ensures RowText(su.d, Cells(vs)) == Ok(CsvSplits.Join(vs, su.d.delimiter) + su.d.lineterminator)
    ensures su.Next(INITIAL, [RowText(su.d, Cells(vs)).value] + rest) == (Row(vs), rest)
  {
    PlainTexts(su.d, vs);
    RowIsJoined(su.d, Cells(vs), vs);
    assert forall i :: 0 <= i < |vs| ==> Harmless(su.d, vs[i]) && CsvSplits.Simple(su.d, vs[i]);
    CsvSplits.SplitOfJoin(vs, su.d.delimiter);
    CsvSplits.JoinIsSimple(su.d, vs);
    CsvSplits.ValuesSame(su.d, vs);
    CsvSplits.NextIsSplit(su, CsvSplits.Join(vs, su.d.delimiter), su.d.lineterminator, rest);
  }

  lemma PlainTexts(d: Dialect, vs: seq<string>)
    requires d.Valid() && d.quoting == QuoteMinimal && PlainRow(d, vs)
    ensures Texts(d, Cells(vs), |Cells(vs)| == 1, vs)
  {
    forall i | 0 <= i < |vs|
      ensures FieldText(d, Value(Cells(vs)[i]), false, |vs| == 1) == Ok(vs[i])
    {
      assert Harmless(d, vs[i]);
      MinimalIff(d, vs[i]);
      assert vs[i] == "" ==> |vs| > 1;
    }
  }
}
