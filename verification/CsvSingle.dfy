/**
  * Reading back what was written without doublequote: quotes are escaped, and the escape character is not.
  */
module CsvSingles {
  import opened Wrappers
  import opened CsvDialects
  import opened CsvReaders
  import opened CsvWriters
  import opened CsvRoundTrips
  import opened CsvLags
  import CsvEscapes

  /** Dialects with an escape character that are faithful but for doublequote. */
  predicate FaithfulSingle(d: Dialect, e: char) {
    !d.doublequote && CsvEscapes.FaithfulBut(d.(doublequote := true), e)
  }

  /** Nothing but quotes from `k` on. */
  predicate QuotesFrom(f: string, q: char, k: nat) {
    forall j :: k <= j < |f| ==> f[j] == q
  }

  /** The first escape character has one quote or more behind it and nothing else. */
  predicate EscapeBeforeQuotes(f: string, e: char, q: char) {
    exists k :: 0 <= k < |f| - 1 && f[k] == e && e !in f[..k] && QuotesFrom(f, q, k + 1)
  }

  /** The quote at `j` has one character before it that is no quote, and not the field's first. */
  predicate LoneAt(f: string, q: char, j: nat)
    requires j < |f|
  {
    2 <= j && f[j] == q && f[j - 1] != q && (j == 2 || f[j - 2] == q)
  }

  /** The field is written in quotes whether or not it has the escape character. */
  predicate InQuotes(d: Dialect, f: string) {
    d.quoting == QuoteAll || exists i :: 0 <= i < |f| && (f[i] == d.delimiter || Newline(f[i]))
  }

  /** The fields that are read back. */
  predicate Kept(d: Dialect, e: char, f: string)
    requires d.quotechar.Some?
  {
    if e in f then EscapeBeforeQuotes(f, e, d.quotechar.value)
    else InQuotes(d, f) || forall j :: 0 <= j < |f| ==> !LoneAt(f, d.quotechar.value, j)
  }

  // The text that is written.

  /** `w` with its quotes escaped, and then `tail`. */
  function Written(S: Setup, e: char, w: string, tail: string): string
    requires S.d.quotechar.Some?
  {
    if w == "" then tail
    else if w[0] == S.d.quotechar.value then [e] + ([S.d.quotechar.value] + Written(S, e, w[1..], tail))
    else [w[0]] + Written(S, e, w[1..], tail)
  }

  lemma {:induction false} WrittenIs(S: Setup, e: char, w: string, tail: string)
    requires S.d.quotechar.Some?
    ensures var q := S.d.quotechar.value; Written(S, e, w, tail) == Replace(w, q, [e, q]) + tail
  {
    var q := S.d.quotechar.value;
    if w == "" {
      assert "" + tail == tail;
    } else {
      WrittenIs(S, e, w[1..], tail);
      var rest := Replace(w[1..], q, [e, q]);
      assert [e] + ([q] + (rest + tail)) == [e, q] + rest + tail;
      assert [w[0]] + (rest + tail) == [w[0]] + rest + tail;
    }
  }

  lemma {:induction false} WrittenOf(S: Setup, e: char, v: string, w: string, tail: string)
    requires S.d.quotechar.Some?
    ensures Written(S, e, v + w, tail) == Written(S, e, v, Written(S, e, w, tail))
  {
    if v == "" {
      assert v + w == w;
    } else {
      assert (v + w)[1..] == v[1..] + w;
      WrittenOf(S, e, v[1..], w, tail);
    }
  }

  lemma WrittenAt(S: Setup, e: char, f: string, k: nat, tail: string)
    requires S.d.quotechar.Some? && k < |f|
    ensures var q, rest := S.d.quotechar.value, Written(S, e, f[k + 1..], tail);
      Written(S, e, f[k..], tail) == if f[k] == q then [e] + ([q] + rest) else [f[k]] + rest
  {
    assert f[k..][1..] == f[k + 1..];
  }

  /** The field is in quotes: it is forced to, needs them, or is empty and alone. */
  predicate Quoted(d: Dialect, f: string, quoted: bool, quoteEmpty: bool) {
    quoted || Special(d, f) || (f == "" && quoteEmpty)
  }

  lemma FieldSingle(S: Setup, e: char, f: string, quoted: bool, quoteEmpty: bool)
    requires FaithfulSingle(S.d, e)
    ensures var t := FieldText(S.d, f, quoted, quoteEmpty);
      var q := S.d.quotechar.value;
      var r := Replace(f, q, [e, q]);
      t == Ok(if Quoted(S.d, f, quoted, quoteEmpty) then [q] + r + [q] else r)
  {
    var q := S.d.quotechar.value;
    if q in f {
      assert [q][1..] == [];
      assert f != "" && Replace(f, q, [e, q]) != "";
      assert Escape(f, [q], S.d.escapechar) == Escape(Replace(f, q, [e, q]), [], S.d.escapechar);
    } else {
      ReplaceAbsent(f, q, [e, q]);
    }
  }

  /** What can stand behind a field. */
  predicate Ends(S: Setup, after: string) {
    after != "" && (after[0] == S.d.delimiter || after[0] == '\r')
  }

  ghost predicate Open(S: Setup, e: char, f: string, after: string) {
    FaithfulSingle(S.d, e) && |f| <= S.limit && Ends(S, after)
  }

  // A field without the escape character, in quotes.

  lemma {:induction false} InsideQuotes(S: Setup, e: char, g: string, s: string, fs: seq<string>, tail: string)
    requires FaithfulSingle(S.d, e) && e !in s && |g| + |s| <= S.limit
    ensures LagRecordAt(S, Lag(Parse(InQuotedField, g, fs), 0), Written(S, e, s, tail)) ==
      LagRecordAt(S, Lag(Parse(InQuotedField, g + s, fs), 0), tail)
    decreases |s|
  {
    if s == "" {
      assert g + s == g;
    } else {
      QuotedMove(S, e, g, s, fs, tail);
      assert g + [s[0]] + s[1..] == g + s;
      InsideQuotes(S, e, g + [s[0]], s[1..], fs, tail);
    }
  }

  lemma QuotedMove(S: Setup, e: char, g: string, s: string, fs: seq<string>, tail: string)
    requires FaithfulSingle(S.d, e) && s != "" && e != s[0] && |g| + 1 <= S.limit
    ensures LagRecordAt(S, Lag(Parse(InQuotedField, g, fs), 0), Written(S, e, s, tail)) ==
      LagRecordAt(S, Lag(Parse(InQuotedField, g + [s[0]], fs), 0), Written(S, e, s[1..], tail))
  {
    var q, c := S.d.quotechar.value, s[0];
    var b := Lag(Parse(InQuotedField, g, fs), 0);
    var rest := Written(S, e, s[1..], tail);
    if c == q {
      RecordMove(S, b, e, [q] + rest);
      RecordMove(S, Lag(b.p.(state := EscapeInQuotedField), 0), q, rest);
    } else {
      RecordMove(S, b, c, rest);
    }
  }

  // A field without the escape character and without quotes.

  /** How many ordinary characters the scan has passed at position `k` of the field. */
  function RunAt(f: string, q: char, k: nat): nat
    requires k <= |f|
  {
    if k <= 1 || f[k - 1] == q then 0 else if k == 2 || f[k - 2] == q then 1 else 2
  }

  /** The reader at position `k` of an unquoted field. */
  function At(S: Setup, f: string, k: nat, fs: seq<string>): Lag
    requires S.d.quotechar.Some? && k <= |f|
  {
    Lag(Parse(InField, f[..k], fs), RunAt(f, S.d.quotechar.value, k))
  }

  lemma PlainMove(S: Setup, e: char, f: string, k: nat, fs: seq<string>, rest: string)
    requires FaithfulSingle(S.d, e) && |f| <= S.limit && 1 <= k < |f|
    requires e !in f && !Special(S.d, f) && !LoneAt(f, S.d.quotechar.value, k)
    ensures var q := S.d.quotechar.value;
      LagRecordAt(S, At(S, f, k, fs), if f[k] == q then [e] + ([q] + rest) else [f[k]] + rest) ==
      LagRecordAt(S, At(S, f, k + 1, fs), rest)
  {
    var q, b := S.d.quotechar.value, At(S, f, k, fs);
    NotSpecialAt(S.d, f, k);
    assert f[..k] + [f[k]] == f[..k + 1];
    if f[k] == q {
      RecordMove(S, b, e, [q] + rest);
      RecordMove(S, Lag(b.p.(state := EscapedChar), 0), q, rest);
    } else {
      RecordMove(S, b, f[k], rest);
    }
  }

  lemma NotSpecialAt(d: Dialect, f: string, k: nat)
    requires d.lineterminator == "\r\n" && k < |f| && !Special(d, f)
    ensures !Newline(f[k]) && f[k] != d.delimiter && Some(f[k]) != d.escapechar
  {
    assert "\r\n"[0] == '\r' && "\r\n"[1] == '\n';
  }

  lemma {:induction false} PlainUpTo(S: Setup, e: char, f: string, k: nat, m: nat, fs: seq<string>, after: string)
    requires FaithfulSingle(S.d, e) && |f| <= S.limit && 1 <= k <= m <= |f|
    requires e !in f && !Special(S.d, f) && forall j :: k <= j < m ==> !LoneAt(f, S.d.quotechar.value, j)
    ensures LagRecordAt(S, At(S, f, k, fs), Written(S, e, f[k..], after)) ==
      LagRecordAt(S, At(S, f, m, fs), Written(S, e, f[m..], after))
    decreases m - k
  {
    if k < m {
      PlainOne(S, e, f, k, fs, after);
      PlainUpTo(S, e, f, k + 1, m, fs, after);
    }
  }

  lemma PlainOne(S: Setup, e: char, f: string, k: nat, fs: seq<string>, after: string)
    requires FaithfulSingle(S.d, e) && |f| <= S.limit && 1 <= k < |f|
    requires e !in f && !Special(S.d, f) && !LoneAt(f, S.d.quotechar.value, k)
    ensures LagRecordAt(S, At(S, f, k, fs), Written(S, e, f[k..], after)) ==
      LagRecordAt(S, At(S, f, k + 1, fs), Written(S, e, f[k + 1..], after))
  {
    WrittenAt(S, e, f, k, after);
    PlainMove(S, e, f, k, fs, Written(S, e, f[k + 1..], after));
  }

  /** The first character of an unquoted field. */
  lemma PlainStart(S: Setup, e: char, p: Parse, f: string, after: string)
    requires FaithfulSingle(S.d, e) && |f| <= S.limit && f != "" && e !in f && !Special(S.d, f)
    requires p.field == "" && (p.state == StartField || p.state == StartRecord)
    ensures LagRecordAt(S, Lag(p, 0), Written(S, e, f, after)) ==
      LagRecordAt(S, At(S, f, 1, p.fields), Written(S, e, f[1..], after))
  {
    var q, rest := S.d.quotechar.value, Written(S, e, f[1..], after);
    NotSpecialAt(S.d, f, 0);
    assert "" + [f[0]] == f[..1];
    if f[0] == q {
      RecordMove(S, Lag(p, 0), e, [q] + rest);
      RecordMove(S, Lag(p.(state := EscapedChar), 0), q, rest);
    } else {
      RecordMove(S, Lag(p, 0), f[0], rest);
    }
  }

  /** An escape that comes upon a lone character takes its place. */
  lemma PlainSpoilt(S: Setup, e: char, f: string, k: nat, j: nat, fs: seq<string>, after: string)
    requires FaithfulSingle(S.d, e) && |f| <= S.limit && 1 <= k <= j < |f|
    requires e !in f && !Special(S.d, f) && LoneAt(f, S.d.quotechar.value, j)
    ensures Misreads(S, At(S, f, k, fs), Written(S, e, f[k..], after), |fs|, f)
    decreases j
  {
    var q := S.d.quotechar.value;
    if i :| k <= i < j && LoneAt(f, q, i) {
      PlainSpoilt(S, e, f, k, i, fs, after);
    } else {
      PlainUpTo(S, e, f, k, j, fs, after);
      var b := At(S, f, j, fs);
      assert f[..j - 1] + [e] == f[..j][..j - 1] + [e];
      var wrong := b.p.(field := f[..j - 1] + [e]);
      assert Move(S, b, e) == Went(Lag(wrong, 0));
      assert (f[..j - 1] + [e])[j - 1] != f[j - 1];
      MisreadsBy(S, b, e, [q] + Written(S, e, f[j..][1..], after), |fs|, f);
    }
  }

  // A field with the escape character, which is in quotes.

  /** The closing quote of a field and what follows the field. */
  function Closing(S: Setup, after: string): string
    requires S.d.quotechar.Some?
  {
    [S.d.quotechar.value] + after
  }

  /** Behind an early closing quote only quotes are read as they were meant. */
  lemma {:induction false} QuotesAfterClose(S: Setup, e: char, g: string, w: string, fs: seq<string>, after: string)
    requires FaithfulSingle(S.d, e) && |g| + |w| + 1 <= S.limit && QuotesFrom(w, S.d.quotechar.value, 0)
    ensures var q := S.d.quotechar.value;
      LagRecordAt(S, Lag(Parse(InField, g, fs), 0), Written(S, e, w, Closing(S, after))) ==
      LagRecordAt(S, Lag(Parse(InField, g + [q] + w, fs), 1), after)
    decreases |w|
  {
    var q := S.d.quotechar.value;
    var b := Lag(Parse(InField, g, fs), 0);
    if w == "" {
      RecordMove(S, b, q, after);
      assert g + [q] + w == g + [q];
    } else {
      var rest := Written(S, e, w[1..], Closing(S, after));
      RecordMove(S, b, e, [q] + rest);
      RecordMove(S, Lag(b.p.(state := EscapedChar), 0), q, rest);
      QuotesAfterClose(S, e, g + [q], w[1..], fs, after);
      assert g + [q] + [q] + w[1..] == g + [q] + w;
    }
  }

  /** An open field that stays shorter than `f` with `n` more characters. */
  predicate Short(b: Lag, n: nat, i: nat, f: string) {
    b.p.state == InField && |b.p.fields| == i && |b.p.field| + n < |f|
  }

  lemma SavedShort(S: Setup, e: char, b: Lag, c: char, text: string, i: nat, f: string)
    requires FaithfulSingle(S.d, e) && Short(b, 0, i, f) && (c == S.d.delimiter || Newline(c))
    ensures Misreads(S, b, [c] + text, i, f)
  {
    MisreadsBy(S, b, c, text, i, f);
  }

  lemma EndsShort(S: Setup, e: char, b: Lag, after: string, i: nat, f: string)
    requires FaithfulSingle(S.d, e) && Short(b, 0, i, f) && Ends(S, after)
    ensures Misreads(S, b, after, i, f)
  {
    assert after == [after[0]] + after[1..];
    SavedShort(S, e, b, after[0], after[1..], i, f);
  }

  /** A field that was closed too early does not get long enough any more. */
  lemma {:induction false} StaysShort(S: Setup, e: char, b: Lag, w: string, after: string, i: nat, f: string)
    requires FaithfulSingle(S.d, e) && Short(b, |w| + 1, i, f) && Ends(S, after)
    ensures Misreads(S, b, Written(S, e, w, Closing(S, after)), i, f)
    decreases |w|, 0
  {
    var q := S.d.quotechar.value;
    if w == "" {
      var m := Move(S, b, q);
      if m.Went? {
        EndsShort(S, e, m.b, after, i, f);
      }
      MisreadsBy(S, b, q, after, i, f);
    } else {
      var rest := Written(S, e, w[1..], Closing(S, after));
      if w[0] == q {
        QuoteStaysShort(S, e, b, w, after, i, f);
      } else if w[0] == e && !Lone(S, b, e) {
        LiteralShort(S, e, b.p, w[1..], after, i, f);
        MisreadsBy(S, b, e, rest, i, f);
      } else if w[0] == S.d.delimiter || Newline(w[0]) {
        SavedShort(S, e, b, w[0], rest, i, f);
      } else {
        var m := Move(S, b, w[0]);
        if m.Went? {
          StaysShort(S, e, m.b, w[1..], after, i, f);
        }
        MisreadsBy(S, b, w[0], rest, i, f);
      }
    }
  }

  lemma {:induction false} QuoteStaysShort(S: Setup, e: char, b: Lag, w: string, after: string, i: nat, f: string)
    requires FaithfulSingle(S.d, e) && w != "" && w[0] == S.d.quotechar.value
    requires Short(b, |w| + 1, i, f) && Ends(S, after)
    ensures Misreads(S, b, Written(S, e, w, Closing(S, after)), i, f)
    decreases |w|, -1
  {
    var q, rest := w[0], Written(S, e, w[1..], Closing(S, after));
    var m := Move(S, b, e);
    var m' := Move(S, m.b, q);
    if m'.Went? {
      StaysShort(S, e, m'.b, w[1..], after, i, f);
    }
    MisreadsBy(S, m.b, q, rest, i, f);
    MisreadsBy(S, b, e, [q] + rest, i, f);
  }

  /** The same behind an escape character. */
  lemma {:induction false} LiteralShort(S: Setup, e: char, p: Parse, w: string, after: string, i: nat, f: string)
    requires FaithfulSingle(S.d, e) && Short(Lag(p, 0), |w| + 2, i, f) && Ends(S, after)
    ensures Misreads(S, Lag(p.(state := EscapedChar), 0), Written(S, e, w, Closing(S, after)), i, f)
    decreases |w|, 1
  {
    var q, b := S.d.quotechar.value, Lag(p.(state := EscapedChar), 0);
    if w == "" {
      var m := Move(S, b, q);
      if m.Went? {
        EndsShort(S, e, m.b, after, i, f);
      }
      MisreadsBy(S, b, q, after, i, f);
    } else {
      var rest := Written(S, e, w[1..], Closing(S, after));
      var c := if w[0] == q then e else w[0];
      var m := Move(S, b, c);
      if m.Went? {
        if w[0] == q {
          var m' := Move(S, m.b, q);
          if m'.Went? {
            StaysShort(S, e, m'.b, w[1..], after, i, f);
          }
          MisreadsBy(S, m.b, q, rest, i, f);
        } else {
          StaysShort(S, e, m.b, w[1..], after, i, f);
        }
      }
      MisreadsBy(S, b, c, if w[0] == q then [q] + rest else rest, i, f);
    }
  }

  lemma WrittenFirst(S: Setup, e: char, w: string, after: string)
    requires S.d.quotechar.Some?
    ensures var text := Written(S, e, w, Closing(S, after));
      var q := S.d.quotechar.value;
      && text != "" && text == [text[0]] + text[1..]
      && text[0] == (if w == "" then q else if w[0] == q then e else w[0])
      && (w == "" ==> text[1..] == after)
  {
  }

  /** Anything else behind an early closing quote shows. */
  lemma {:induction false} OtherAfterClose(S: Setup, e: char, g: string, w: string, fs: seq<string>, after: string)
    requires FaithfulSingle(S.d, e) && |g| + |w| + 1 <= S.limit && !QuotesFrom(w, S.d.quotechar.value, 0)
    requires Ends(S, after)
    ensures Misreads(S, Lag(Parse(InField, g, fs), 0), Written(S, e, w, Closing(S, after)),
                     |fs|, g + [S.d.quotechar.value] + w)
    decreases |w|
  {
    var q := S.d.quotechar.value;
    var b, f, i := Lag(Parse(InField, g, fs), 0), g + [q] + w, |fs|;
    var rest := Written(S, e, w[1..], Closing(S, after));
    if w[0] == q {
      var b' := Lag(b.p.(state := EscapedChar), 0);
      var j :| 0 <= j < |w| && w[j] != q;
      assert w[1..][j - 1] != q;
      OtherAfterClose(S, e, g + [q], w[1..], fs, after);
      assert f == g + [q] + [q] + w[1..];
      MisreadsBy(S, b', q, rest, i, f);
      MisreadsBy(S, b, e, [q] + rest, i, f);
    } else if w[0] == S.d.delimiter || Newline(w[0]) {
      SavedShort(S, e, b, w[0], rest, i, f);
    } else if w[0] == e {
      EscapeAfterClose(S, e, g, w[1..], fs, after);
      MisreadsBy(S, b, e, rest, i, f);
    } else {
      LoneAfterClose(S, e, g, w, fs, after);
    }
  }

  lemma EscapeAfterClose(S: Setup, e: char, g: string, w: string, fs: seq<string>, after: string)
    requires FaithfulSingle(S.d, e) && Ends(S, after)
    ensures Misreads(S, Lag(Parse(EscapedChar, g, fs), 0), Written(S, e, w, Closing(S, after)),
                     |fs|, g + [S.d.quotechar.value] + ([e] + w))
  {
    var q := S.d.quotechar.value;
    var b, f, text := Lag(Parse(EscapedChar, g, fs), 0), g + [q] + ([e] + w), Written(S, e, w, Closing(S, after));
    WrittenFirst(S, e, w, after);
    var m := Move(S, b, text[0]);
    if w == "" {
      if m.Went? {
        EndsShort(S, e, m.b, after, |fs|, f);
      }
    } else if S.Add(b.p, [text[0]]).Ok? {
      DiffersAt(g, text[0], f, Lag(b.p.(state := InField, field := g + [text[0]]), 0));
      WrongAtEol(S, Lag(b.p.(state := InField, field := g + [text[0]]), 0), |fs|, f);
    }
    MisreadsBy(S, b, text[0], text[1..], |fs|, f);
  }

  lemma DiffersAt(g: string, c: char, f: string, b: Lag)
    requires |g| < |f| && f[|g|] != c && b.p.field == g + [c] && b.run == 0
    ensures Wrong(b, |b.p.fields|, f)
  {
    assert (g + [c])[|g|] == c;
  }

  lemma LoneAfterClose(S: Setup, e: char, g: string, w: string, fs: seq<string>, after: string)
    requires FaithfulSingle(S.d, e) && w != "" && S.Ordinary(w[0]) && w[0] != S.d.quotechar.value
    ensures Misreads(S, Lag(Parse(InField, g, fs), 0), Written(S, e, w, Closing(S, after)),
                     |fs|, g + [S.d.quotechar.value] + w)
  {
    var q, c := S.d.quotechar.value, w[0];
    var b, f, text := Lag(Parse(InField, g, fs), 0), g + [q] + w, Written(S, e, w[1..], Closing(S, after));
    WrittenFirst(S, e, w[1..], after);
    var m := Move(S, b, c);
    if m.Went? {
      assert m.b == Lag(Parse(InField, g + [c], fs), 1);
      NextShows(S, e, g, c, fs, text[0], f);
      MisreadsBy(S, m.b, text[0], text[1..], |fs|, f);
    }
    MisreadsBy(S, b, c, text, |fs|, f);
  }

  lemma NextShows(S: Setup, e: char, g: string, c: char, fs: seq<string>, next: char, f: string)
    requires FaithfulSingle(S.d, e) && |g| < |f| && f[|g|] == S.d.quotechar.value != c
    ensures Spoiled(Move(S, Lag(Parse(InField, g + [c], fs), 1), next), |fs|, f)
  {
    var b := Lag(Parse(InField, g + [c], fs), 1);
    assert (g + [c])[|g|] == c && (g + [c])[..|g|] == g;
    assert (g + [e])[|g|] == e && (g + [c] + [next])[|g|] == c;
  }

  /** All characters of `f` from `l` to `k` are the escape character. */
  predicate EscapesBetween(f: string, e: char, l: nat, k: nat) {
    l < k <= |f| && forall j :: l <= j < k ==> f[j] == e
  }

  /** An escape was met in quotes, and the field read so far is behind by those between `l` and `k`. */
  lemma {:induction false} BehindEscaped(S: Setup, e: char, f: string, l: nat, k: nat, fs: seq<string>, after: string)
    requires Open(S, e, f, after) && EscapesBetween(f, e, l, k)
    requires !(k == l + 1 && k < |f| && QuotesFrom(f, S.d.quotechar.value, k))
    ensures Misreads(S, Lag(Parse(EscapeInQuotedField, f[..l], fs), 0), Written(S, e, f[k..], Closing(S, after)),
                     |fs|, f)
    decreases |f| - k, 0
  {
    var q, w, i := S.d.quotechar.value, f[k..], |fs|;
    var b, text := Lag(Parse(EscapeInQuotedField, f[..l], fs), 0), Written(S, e, w, Closing(S, after));
    WrittenFirst(S, e, w, after);
    if w != "" && w[0] == q {
      EscapedQuoteBehind(S, e, f, l, k, fs, after);
    } else if w != "" && w[0] == e {
      assert f[..l] + [e] == f[..l + 1] && w[1..] == f[k + 1..];
      Behind(S, e, f, l + 1, k + 1, fs, after);
      MisreadsBy(S, b, e, text[1..], i, f);
    } else {
      var b' := Lag(Parse(InQuotedField, f[..l] + [text[0]], fs), 0);
      DiffersAt(f[..l], text[0], f, b');
      WrongAtEol(S, b', i, f);
      MisreadsBy(S, b, text[0], text[1..], i, f);
    }
  }

  /** The escape before a quote is taken for the text, and the quote closes the field. */
  lemma EscapedQuoteBehind(S: Setup, e: char, f: string, l: nat, k: nat, fs: seq<string>, after: string)
    requires Open(S, e, f, after) && EscapesBetween(f, e, l, k) && k < |f| && f[k] == S.d.quotechar.value
    requires !(k == l + 1 && QuotesFrom(f, S.d.quotechar.value, k))
    ensures Misreads(S, Lag(Parse(EscapeInQuotedField, f[..l], fs), 0), Written(S, e, f[k..], Closing(S, after)),
                     |fs|, f)
  {
    var q, w, i := f[k], f[k + 1..], |fs|;
    assert f[k..][1..] == w && f[..l] + [e] == f[..l + 1];
    var rest := Written(S, e, w, Closing(S, after));
    var b := Lag(Parse(EscapeInQuotedField, f[..l], fs), 0);
    var b' := Lag(Parse(InQuotedField, f[..l + 1], fs), 0);
    var b'' := Lag(Parse(InField, f[..l + 1], fs), 0);
    if k == l + 1 {
      assert f == f[..k] + [q] + w;
      assert !QuotesFrom(w, q, 0) by {
        var j :| k <= j < |f| && f[j] != q;
        assert w[j - k - 1] != q;
      }
      OtherAfterClose(S, e, f[..k], w, fs, after);
    } else {
      StaysShort(S, e, b'', w, after, i, f);
    }
    MisreadsBy(S, b', q, rest, i, f);
    MisreadsBy(S, b, e, [q] + rest, i, f);
  }

  /** The same with the next character not escaped. */
  lemma {:induction false} Behind(S: Setup, e: char, f: string, l: nat, k: nat, fs: seq<string>, after: string)
    requires Open(S, e, f, after) && EscapesBetween(f, e, l, k)
    ensures Misreads(S, Lag(Parse(InQuotedField, f[..l], fs), 0), Written(S, e, f[k..], Closing(S, after)), |fs|, f)
    decreases |f| - k, 1
  {
    var q, w, i := S.d.quotechar.value, f[k..], |fs|;
    var b, text := Lag(Parse(InQuotedField, f[..l], fs), 0), Written(S, e, w, Closing(S, after));
    WrittenFirst(S, e, w, after);
    if w == "" {
      EndsShort(S, e, Lag(Parse(InField, f[..l], fs), 0), after, i, f);
      MisreadsBy(S, b, q, after, i, f);
    } else if w[0] == q {
      var b', rest := Lag(Parse(EscapeInQuotedField, f[..l], fs), 0), Written(S, e, w[1..], Closing(S, after));
      DiffersAt(f[..l], q, f, Lag(Parse(InQuotedField, f[..l] + [q], fs), 0));
      MisreadsBy(S, b', q, rest, i, f);
      MisreadsBy(S, b, e, [q] + rest, i, f);
    } else if w[0] == e {
      assert w[1..] == f[k + 1..];
      BehindEscaped(S, e, f, l, k + 1, fs, after);
      MisreadsBy(S, b, e, text[1..], i, f);
    } else {
      var b' := Lag(Parse(InQuotedField, f[..l] + [w[0]], fs), 0);
      DiffersAt(f[..l], w[0], f, b');
      WrongAtEol(S, b', i, f);
      MisreadsBy(S, b, w[0], text[1..], i, f);
    }
  }

  // One field.

  /** The field `f` is complete but for the character that ends it. */
  predicate Complete(b: Lag, f: string, fs: seq<string>) {
    && b.p.field == f && b.p.fields == fs
    && (b.p.state == InField || (f == "" && (b.p.state == StartField || b.p.state == StartRecord)))
  }

  /** What stands between the opening quote of a field and what follows the field. */
  lemma QuotedText(S: Setup, e: char, f: string, after: string)
    requires FaithfulSingle(S.d, e)
    ensures var q := S.d.quotechar.value;
      [q] + Replace(f, q, [e, q]) + [q] + after == [q] + Written(S, e, f, Closing(S, after))
  {
    var q := S.d.quotechar.value;
    var r := Replace(f, q, [e, q]);
    WrittenIs(S, e, f, Closing(S, after));
    assert [q] + r + [q] + after == [q] + (r + ([q] + after));
  }

  /** A field in quotes with the escape character, up to the first one. */
  lemma UpToEscape(S: Setup, e: char, p: Parse, f: string, k: nat, after: string)
    requires Open(S, e, f, after) && k < |f| && f[k] == e && e !in f[..k]
    requires p.field == "" && (p.state == StartField || p.state == StartRecord)
    ensures LagRecordAt(S, Lag(p, 0), [S.d.quotechar.value] + Written(S, e, f, Closing(S, after))) ==
      LagRecordAt(S, Lag(Parse(EscapeInQuotedField, f[..k], p.fields), 0),
                  Written(S, e, f[k + 1..], Closing(S, after)))
  {
    var q, tail := S.d.quotechar.value, Closing(S, after);
    RecordMove(S, Lag(p, 0), q, Written(S, e, f, tail));
    assert f == f[..k] + f[k..] && f[k..][1..] == f[k + 1..];
    WrittenOf(S, e, f[..k], f[k..], tail);
    assert "" + f[..k] == f[..k];
    InsideQuotes(S, e, "", f[..k], p.fields, Written(S, e, f[k..], tail));
    RecordMove(S, Lag(Parse(InQuotedField, f[..k], p.fields), 0), e, Written(S, e, f[k + 1..], tail));
  }

  /** With nothing but quotes behind the escape character, one error makes up for the other. */
  lemma EscapeKept(S: Setup, e: char, p: Parse, f: string, after: string) returns (b: Lag)
    requires Open(S, e, f, after) && EscapeBeforeQuotes(f, e, S.d.quotechar.value)
    requires p.field == "" && (p.state == StartField || p.state == StartRecord)
    ensures Complete(b, f, p.fields) && b.p.state == InField
    ensures LagRecordAt(S, Lag(p, 0), [S.d.quotechar.value] + Written(S, e, f, Closing(S, after))) ==
      LagRecordAt(S, b, after)
  {
    var q, fs := S.d.quotechar.value, p.fields;
    var k :| 0 <= k < |f| - 1 && f[k] == e && e !in f[..k] && QuotesFrom(f, q, k + 1);
    UpToEscape(S, e, p, f, k, after);
    KeptFromEscape(S, e, f, k, fs, after);
    b := Lag(Parse(InField, f, fs), 1);
  }

  lemma KeptFromEscape(S: Setup, e: char, f: string, k: nat, fs: seq<string>, after: string)
    requires Open(S, e, f, after) && k + 1 < |f| && f[k] == e && QuotesFrom(f, S.d.quotechar.value, k + 1)
    ensures LagRecordAt(S, Lag(Parse(EscapeInQuotedField, f[..k], fs), 0), Written(S, e, f[k + 1..], Closing(S, after)))
      == LagRecordAt(S, Lag(Parse(InField, f, fs), 1), after)
  {
    var q, w := S.d.quotechar.value, f[k + 2..];
    var rest := Written(S, e, w, Closing(S, after));
    assert f[k + 1..] == [q] + w && f[..k] + [e] == f[..k + 1];
    assert ([q] + w)[1..] == w;
    RecordMove(S, Lag(Parse(EscapeInQuotedField, f[..k], fs), 0), e, [q] + rest);
    RecordMove(S, Lag(Parse(InQuotedField, f[..k + 1], fs), 0), q, rest);
    QuotesAfterClose(S, e, f[..k + 1], w, fs, after);
    assert f[..k + 1] + [q] + w == f;
  }

  lemma {:induction false} FirstAt(f: string, e: char) returns (k: nat)
    requires e in f
    ensures k < |f| && f[k] == e && e !in f[..k]
  {
    if f[0] == e {
      k := 0;
    } else {
      var k' := FirstAt(f[1..], e);
      k := k' + 1;
      assert f[..k] == [f[0]] + f[1..][..k'];
    }
  }

  lemma EscapeLost(S: Setup, e: char, p: Parse, f: string, after: string)
    requires Open(S, e, f, after) && e in f && !EscapeBeforeQuotes(f, e, S.d.quotechar.value)
    requires p.field == "" && (p.state == StartField || p.state == StartRecord)
    ensures Misreads(S, Lag(p, 0), [S.d.quotechar.value] + Written(S, e, f, Closing(S, after)), |p.fields|, f)
  {
    var k := FirstAt(f, e);
    UpToEscape(S, e, p, f, k, after);
    BehindEscaped(S, e, f, k, k + 1, p.fields, after);
  }

  lemma QuotedKept(S: Setup, e: char, p: Parse, f: string, after: string) returns (b: Lag)
    requires Open(S, e, f, after) && e !in f
    requires p.field == "" && (p.state == StartField || p.state == StartRecord)
    ensures Complete(b, f, p.fields) && b.p.state == InField
    ensures LagRecordAt(S, Lag(p, 0), [S.d.quotechar.value] + Written(S, e, f, Closing(S, after))) ==
      LagRecordAt(S, b, after)
  {
    var q := S.d.quotechar.value;
    RecordMove(S, Lag(p, 0), q, Written(S, e, f, Closing(S, after)));
    InsideQuotes(S, e, "", f, p.fields, Closing(S, after));
    assert "" + f == f;
    RecordMove(S, Lag(Parse(InQuotedField, f, p.fields), 0), q, after);
    b := Lag(Parse(InField, f, p.fields), 0);
  }

  lemma PlainKept(S: Setup, e: char, p: Parse, f: string, after: string) returns (b: Lag)
    requires Open(S, e, f, after) && e !in f && f != "" && !Special(S.d, f)
    requires forall j :: 0 <= j < |f| ==> !LoneAt(f, S.d.quotechar.value, j)
    requires p.field == "" && (p.state == StartField || p.state == StartRecord)
    ensures Complete(b, f, p.fields) && b.p.state == InField
    ensures LagRecordAt(S, Lag(p, 0), Written(S, e, f, after)) == LagRecordAt(S, b, after)
  {
    PlainStart(S, e, p, f, after);
    PlainUpTo(S, e, f, 1, |f|, p.fields, after);
    b := At(S, f, |f|, p.fields);
  }

  lemma NeedsQuotes(S: Setup, e: char, f: string)
    requires FaithfulSingle(S.d, e)
    ensures S.d.quoting == QuoteAll || Special(S.d, f) <==> InQuotes(S.d, f) || e in f
  {
    var end := S.d.lineterminator;
    assert end[0] == '\r' && end[1] == '\n' && forall c :: c in end <==> Newline(c);
  }

  /** What the writer makes of a field, before `after`. */
  lemma TextOfField(S: Setup, e: char, f: string, quoteEmpty: bool, after: string)
    requires FaithfulSingle(S.d, e)
    ensures var t := FieldText(S.d, f, S.d.quoting == QuoteAll, quoteEmpty);
      t.Ok? && t.value + after ==
      if InQuotes(S.d, f) || e in f || (f == "" && quoteEmpty)
      then [S.d.quotechar.value] + Written(S, e, f, Closing(S, after))
      else Written(S, e, f, after)
  {
    FieldSingle(S, e, f, S.d.quoting == QuoteAll, quoteEmpty);
    NeedsQuotes(S, e, f);
    QuotedText(S, e, f, after);
    WrittenIs(S, e, f, after);
  }

  lemma FieldKept(S: Setup, e: char, p: Parse, f: string, quoteEmpty: bool, after: string) returns (b: Lag)
    requires Open(S, e, f, after) && Kept(S.d, e, f)
    requires p.field == "" && (p.state == StartField || p.state == StartRecord)
    ensures Complete(b, f, p.fields) && (b.p.state == StartRecord ==> p.state == StartRecord && !quoteEmpty)
    ensures var t := FieldText(S.d, f, S.d.quoting == QuoteAll, quoteEmpty);
      t.Ok? && LagRecordAt(S, Lag(p, 0), t.value + after) == LagRecordAt(S, b, after)
  {
    TextOfField(S, e, f, quoteEmpty, after);
    if e in f {
      b := EscapeKept(S, e, p, f, after);
    } else if InQuotes(S.d, f) || (f == "" && quoteEmpty) {
      b := QuotedKept(S, e, p, f, after);
    } else if f == "" {
      b := Lag(p, 0);
    } else {
      NeedsQuotes(S, e, f);
      b := PlainKept(S, e, p, f, after);
    }
  }

  lemma FieldLost(S: Setup, e: char, p: Parse, f: string, quoteEmpty: bool, after: string)
    requires Open(S, e, f, after) && !Kept(S.d, e, f)
    requires p.field == "" && (p.state == StartField || p.state == StartRecord)
    ensures var t := FieldText(S.d, f, S.d.quoting == QuoteAll, quoteEmpty);
      t.Ok? && Misreads(S, Lag(p, 0), t.value + after, |p.fields|, f)
  {
    TextOfField(S, e, f, quoteEmpty, after);
    if e in f {
      EscapeLost(S, e, p, f, after);
    } else {
      NeedsQuotes(S, e, f);
      var j :| 0 <= j < |f| && LoneAt(f, S.d.quotechar.value, j);
      PlainStart(S, e, p, f, after);
      PlainSpoilt(S, e, f, 1, j, p.fields, after);
    }
  }

  // One row.

  predicate AllKept(d: Dialect, e: char, row: seq<Cell>)
    requires d.quotechar.Some?
  {
    forall i :: 0 <= i < |row| ==> Kept(d, e, Value(row[i]))
  }

  lemma RestKept(d: Dialect, e: char, row: seq<Cell>)
    requires d.quotechar.Some? && row != [] && Kept(d, e, Value(row[0]))
    ensures AllKept(d, e, row) <==> AllKept(d, e, row[1..])
  {
    assert forall i :: 0 < i < |row| ==> row[i] == row[1..][i - 1];
  }

  /** The record that is read is `fields`, with `rest` behind it, exactly if `kept`. */
  predicate ReadExactly(S: Setup, b: Lag, text: string, fields: seq<string>, rest: string, kept: bool) {
    var r := LagRecordAt(S, b, text);
    if kept then r == Some((fields, rest)) else r.Some? ==> r.value.0 != fields
  }

  lemma RowEnds(S: Setup, e: char, b: Lag, f: string, fs: seq<string>, text: string)
    requires FaithfulSingle(S.d, e) && Complete(b, f, fs) && b.p.state != StartRecord
    ensures LagRecordAt(S, b, "\r\n" + text) == Some((fs + [f], text))
  {
    assert "\r\n" + text == ['\r'] + (['\n'] + text);
    RecordMove(S, b, '\r', ['\n'] + text);
    RecordMove(S, Lag(Parse(EatCrnl, "", fs + [f]), 0), '\n', text);
  }

  lemma NextField(S: Setup, e: char, b: Lag, f: string, fs: seq<string>, text: string)
    requires FaithfulSingle(S.d, e) && Complete(b, f, fs)
    ensures LagRecordAt(S, b, [S.d.delimiter] + text) == LagRecordAt(S, Lag(Parse(StartField, "", fs + [f]), 0), text)
  {
    RecordMove(S, b, S.d.delimiter, text);
  }

  /** What is written of the fields `row` of a row after its first ones, and what follows it. */
  function RowTail(d: Dialect, row: seq<Cell>, text: string): string
    requires d.Valid()
  {
    if row == [] then "\r\n" + text else
    var t := FieldText(d, Value(row[0]), d.quoting == QuoteAll, false);
    [d.delimiter] + ((if t.Ok? then t.value else "") + RowTail(d, row[1..], text))
  }

  lemma Regroup(a: string, b: string, c: string, d: string)
    ensures a + (b + (c + d)) == a + b + c + d
  {
  }

  lemma JoinedMore(d: Dialect, row: seq<Cell>, first: bool, quoteEmpty: bool, t: string, rest: string)
    requires d.Valid() && row != []
    requires FieldText(d, Value(row[0]), d.quoting == QuoteAll, quoteEmpty) == Ok(t)
    requires JoinedFrom(d, row[1..], false, quoteEmpty) == Ok(rest)
    ensures JoinedFrom(d, row, first, quoteEmpty) == Ok((if first then "" else [d.delimiter]) + t + rest)
  {
  }

  lemma {:induction false} RowTailIs(S: Setup, e: char, row: seq<Cell>, text: string)
    requires FaithfulSingle(S.d, e)
    ensures var j := JoinedFrom(S.d, row, false, false);
      j.Ok? && RowTail(S.d, row, text) == j.value + ("\r\n" + text)
    ensures Ends(S, RowTail(S.d, row, text))
  {
    if row == [] {
      assert "" + ("\r\n" + text) == "\r\n" + text;
    } else {
      FieldSingle(S, e, Value(row[0]), S.d.quoting == QuoteAll, false);
      RowTailIs(S, e, row[1..], text);
      var t := FieldText(S.d, Value(row[0]), S.d.quoting == QuoteAll, false).value;
      var rest := JoinedFrom(S.d, row[1..], false, false).value;
      JoinedMore(S.d, row, false, false, t, rest);
      Regroup([S.d.delimiter], t, rest, "\r\n" + text);
    }
  }

  /** The rest of a row, once a field is complete. */
  lemma {:induction false} TailExact(S: Setup, e: char, b: Lag, f: string, fs: seq<string>,
                                     row: seq<Cell>, text: string)
    requires FaithfulSingle(S.d, e) && Complete(b, f, fs) && (row == [] ==> b.p.state != StartRecord)
    requires forall i :: 0 <= i < |row| ==> Readable(S.limit, row[i])
    ensures ReadExactly(S, b, RowTail(S.d, row, text), fs + [f] + Values(row), text, AllKept(S.d, e, row))
    decreases |row|, 0
  {
    if row == [] {
      assert fs + [f] + Values(row) == fs + [f];
      RowEnds(S, e, b, f, fs, text);
    } else {
      FieldSingle(S, e, Value(row[0]), S.d.quoting == QuoteAll, false);
      var t := FieldText(S.d, Value(row[0]), S.d.quoting == QuoteAll, false).value;
      NextField(S, e, b, f, fs, t + RowTail(S.d, row[1..], text));
      FieldExact(S, e, Parse(StartField, "", fs + [f]), row, false, text);
    }
  }

  /** The first of some fields, and the rest of the row. */
  lemma {:induction false} FieldExact(S: Setup, e: char, p: Parse, row: seq<Cell>, quoteEmpty: bool, text: string)
    requires FaithfulSingle(S.d, e) && row != [] && (|row| == 1 ==> quoteEmpty || p.state == StartField)
    requires forall i :: 0 <= i < |row| ==> Readable(S.limit, row[i])
    requires p.field == "" && (p.state == StartField || p.state == StartRecord)
    ensures var t := FieldText(S.d, Value(row[0]), S.d.quoting == QuoteAll, quoteEmpty);
      t.Ok? && ReadExactly(S, Lag(p, 0), t.value + RowTail(S.d, row[1..], text), p.fields + Values(row), text,
                           AllKept(S.d, e, row))
    decreases |row|, -1
  {
    var f, after := Value(row[0]), RowTail(S.d, row[1..], text);
    RowTailIs(S, e, row[1..], text);
    assert (p.fields + Values(row))[|p.fields|] == f;
    if Kept(S.d, e, f) {
      var b := FieldKept(S, e, p, f, quoteEmpty, after);
      TailExact(S, e, b, f, p.fields, row[1..], text);
      ValuesCons(p.fields, row);
      RestKept(S.d, e, row);
    } else {
      FieldLost(S, e, p, f, quoteEmpty, after);
    }
  }

  /** A written row is the next record exactly if all its fields are kept. */
  lemma RowExact(S: Setup, e: char, row: seq<Cell>, text: string)
    requires FaithfulSingle(S.d, e)
    requires forall i :: 0 <= i < |row| ==> Readable(S.limit, row[i])
    ensures var t := RowText(S.d, row);
      t.Ok? && ReadExactly(S, Lag(INITIAL, 0), t.value + text, Values(row), text, AllKept(S.d, e, row))
  {
    if row == [] {
      assert "" + S.d.lineterminator + text == ['\r'] + (['\n'] + text);
      RecordMove(S, Lag(INITIAL, 0), '\r', ['\n'] + text);
      RecordMove(S, Lag(Parse(EatCrnl, "", []), 0), '\n', text);
    } else {
      FieldExact(S, e, INITIAL, row, |row| == 1, text);
      RowTextIs(S, e, row, text);
      assert [] + Values(row) == Values(row);
    }
  }

  lemma RowTextIs(S: Setup, e: char, row: seq<Cell>, text: string)
    requires FaithfulSingle(S.d, e) && row != []
    ensures var t := FieldText(S.d, Value(row[0]), S.d.quoting == QuoteAll, |row| == 1);
      var j := RowText(S.d, row);
      t.Ok? && j.Ok? && j.value + text == t.value + RowTail(S.d, row[1..], text)
  {
    var s, one := Value(row[0]), |row| == 1;
    FieldSingle(S, e, s, S.d.quoting == QuoteAll, one);
    RowTailIs(S, e, row[1..], text);
    var t := FieldText(S.d, s, S.d.quoting == QuoteAll, one).value;
    var rest := JoinedFrom(S.d, row[1..], false, false).value;
    assert JoinedFrom(S.d, row[1..], false, one) == Ok(rest);
    JoinedMore(S.d, row, true, one, t, rest);
    assert "" + t == t;
    Regroup(t, rest, "\r\n", text);
  }

  // Whole files.

  lemma {:induction false} NoNulSingle(S: Setup, e: char, row: seq<Cell>, first: bool, quoteEmpty: bool)
    requires FaithfulSingle(S.d, e)
    requires forall i :: 0 <= i < |row| ==> Readable(S.limit, row[i])
    ensures var j := JoinedFrom(S.d, row, first, quoteEmpty); j.Ok? && '\0' !in j.value
    decreases |row|
  {
    if row != [] {
      var s, q := Value(row[0]), S.d.quotechar.value;
      FieldSingle(S, e, s, S.d.quoting == QuoteAll, quoteEmpty);
      NoNulReplaced(s, q, [e, q]);
      NoNulSingle(S, e, row[1..], false, quoteEmpty);
    }
  }

  lemma {:induction false} NoNulReplaced(s: string, q: char, r: string)
    requires '\0' !in s && '\0' !in r
    ensures '\0' !in Replace(s, q, r)
  {
    if s != "" {
      assert forall i :: 0 <= i < |s| - 1 ==> s[1..][i] == s[i + 1];
      NoNulReplaced(s[1..], q, r);
    }
  }

  /** The rows' text is whole lines without NUL. */
  lemma {:induction false} RowsAreLines(S: Setup, e: char, rows: seq<seq<Cell>>)
    requires FaithfulSingle(S.d, e) && AllReadable(S.limit, rows)
    ensures var (text, r) := RowsText(S.d, rows);
      r == Ok(()) && '\0' !in text && (rows == [] || (text != "" && text[|text| - 1] == '\n'))
    decreases |rows|
  {
    if rows != [] {
      assert AllReadable(S.limit, rows[1..]) by {
        assert forall i :: 0 <= i < |rows| - 1 ==> rows[1..][i] == rows[i + 1];
      }
      NoNulSingle(S, e, rows[0], true, |rows[0]| == 1);
      CsvEscapes.LastIsNewline(JoinedFrom(S.d, rows[0], true, |rows[0]| == 1).value);
      RowsAreLines(S, e, rows[1..]);
      assert '\0' !in "\r\n";
    }
  }

  /**
    * Without doublequote, what is written is read back exactly if every field is kept. Others are lost because
    * the reader takes an escape character of the field for an escape, which it is not, or because its scan
    * puts the escape written before a quote in the place of the character before it.
    */
  lemma {:induction false} RoundTripExactSingle(S: Setup, e: char, rows: seq<seq<Cell>>)
    requires FaithfulSingle(S.d, e) && AllReadable(S.limit, rows)
    ensures var (text, r) := RowsText(S.d, rows);
      && r == Ok(())
      && (S.ReadAll(SplitLines(text)) == Ok(AllValues(rows)) <==>
          forall i :: 0 <= i < |rows| ==> AllKept(S.d, e, rows[i]))
    decreases |rows|
  {
    RowsAreLines(S, e, rows);
    if rows == [] {
      assert AllValues(rows) == [];
    } else {
      var row, rest := rows[0], rows[1..];
      assert forall i :: 0 <= i < |rest| ==> rest[i] == rows[i + 1];
      assert AllReadable(S.limit, rest);
      RoundTripExactSingle(S, e, rest);
      FirstRowExact(S, e, rows);
    }
  }

  /** The first row against the first record, and the other rows against what is left. */
  lemma FirstRowExact(S: Setup, e: char, rows: seq<seq<Cell>>)
    requires FaithfulSingle(S.d, e) && AllReadable(S.limit, rows) && rows != []
    requires RowsText(S.d, rows).1 == Ok(())
    ensures S.ReadAll(SplitLines(RowsText(S.d, rows).0)) == Ok(AllValues(rows)) <==>
      AllKept(S.d, e, rows[0]) && S.ReadAll(SplitLines(RowsText(S.d, rows[1..]).0)) == Ok(AllValues(rows[1..]))
  {
    var row, rest := rows[0], rows[1..];
    var text, more := RowsText(S.d, rows).0, RowsText(S.d, rest).0;
    RowExact(S, e, row, more);
    assert text == RowText(S.d, row).value + more;
    RowsAreLines(S, e, rows);
    NextIsLagged(S, INITIAL, text);
    AllValuesCons(rows);
    if AllKept(S.d, e, row) {
      PrependExact(Values(row), AllValues(rest), S.ReadAll(SplitLines(more)));
    }
  }

  lemma PrependExact(fields: seq<string>, rows: seq<seq<string>>, r: Result<seq<seq<string>>, Error>)
    ensures Prepend([fields], r) == Ok([fields] + rows) <==> r == Ok(rows)
  {
    if r.Ok? {
      assert ([fields] + r.value)[1..] == r.value && ([fields] + rows)[1..] == rows;
    }
  }

  // Two fields.

  const BACKSLASH: Dialect := Dialect(',', Some('"'), Some('\\'), false, false, "\r\n", QuoteMinimal, false)

  /** The field ab"c is written as ab\"c, and the scan at lib_pypy/_csv.py:266 makes a\"c of that. */
  lemma EscapedQuoteLost(limit: int)
    requires 4 <= limit
    ensures var S := Setup(BACKSLASH, limit);
      var text := RowsText(S.d, [[Text(['a', 'b', '"', 'c'])]]).0;
      && S.ReadAll(SplitLines(text)) == Ok([[['a', '\\', '"', 'c']]])
      && S.ReadAll(SplitLines(text)) != Ok(AllValues([[Text(['a', 'b', '"', 'c'])]]))
  {
    var S := Setup(BACKSLASH, limit);
    EscapedQuoteText(S);
    EscapedQuoteRead(S, ['a', 'b', '\\', '"', 'c', '\r', '\n']);
    EscapedQuoteNotKept(S, ['a', 'b', '"', 'c']);
  }

  lemma EscapedQuoteNotKept(S: Setup, f: string)
    requires S.d == BACKSLASH && 4 <= S.limit && f == ['a', 'b', '"', 'c']
    ensures S.ReadAll(SplitLines(RowsText(S.d, [[Text(f)]]).0)) != Ok(AllValues([[Text(f)]]))
  {
    assert LoneAt(f, '"', 2) && '\\' !in f;
    assert !Kept(S.d, '\\', Value([Text(f)][0]));
    assert !AllKept(S.d, '\\', [[Text(f)]][0]);
    RoundTripExactSingle(S, '\\', [[Text(f)]]);
  }

  lemma EscapedQuoteRead(S: Setup, text: string)
    requires S.d == BACKSLASH && 4 <= S.limit && text == ['a', 'b', '\\', '"', 'c', '\r', '\n']
    ensures S.ReadAll(SplitLines(text)) == Ok([[['a', '\\', '"', 'c']]])
  {
    EscapedQuoteRecord(S, text);
    NextIsLagged(S, INITIAL, text);
    assert SplitLines("") == [];
    assert S.ReadAll([]) == Ok([]);
    var row: seq<string> := [['a', '\\', '"', 'c']];
    PrependExact(row, [], Ok([]));
    assert [row] + [] == [row];
  }

  lemma MoveAt(S: Setup, b: Lag, text: string, i: nat, b': Lag)
    requires i < |text| && Move(S, b, text[i]) == Went(b')
    ensures LagRecordAt(S, b, text[i..]) == LagRecordAt(S, b', text[i + 1..])
  {
    assert text[i..][1..] == text[i + 1..];
  }

  lemma EscapedQuoteRecord(S: Setup, text: string)
    requires S.d == BACKSLASH && 4 <= S.limit && text == ['a', 'b', '\\', '"', 'c', '\r', '\n']
    ensures LagRecordAt(S, Lag(INITIAL, 0), text) == Some(([['a', '\\', '"', 'c']], ""))
  {
    assert text == text[0..];
    MoveAt(S, Lag(INITIAL, 0), text, 0, Lag(Parse(InField, ['a'], []), 0));
    MoveAt(S, Lag(Parse(InField, ['a'], []), 0), text, 1, Lag(Parse(InField, ['a', 'b'], []), 1));
    EscapedQuoteRest(S, text);
  }

  lemma EscapedQuoteRest(S: Setup, text: string)
    requires S.d == BACKSLASH && 4 <= S.limit && text == ['a', 'b', '\\', '"', 'c', '\r', '\n']
    ensures LagRecordAt(S, Lag(Parse(InField, ['a', 'b'], []), 1), text[2..]) == Some(([['a', '\\', '"', 'c']], ""))
  {
    var c, d := Lag(Parse(InField, ['a', '\\'], []), 0), Lag(Parse(InField, ['a', '\\', '"'], []), 1);
    MoveAt(S, Lag(Parse(InField, ['a', 'b'], []), 1), text, 2, c);
    MoveAt(S, c, text, 3, d);
    EscapedQuoteEnd(S, text, d);
  }

  lemma EscapedQuoteEnd(S: Setup, text: string, d: Lag)
    requires S.d == BACKSLASH && 4 <= S.limit && text == ['a', 'b', '\\', '"', 'c', '\r', '\n']
    requires d == Lag(Parse(InField, ['a', '\\', '"'], []), 1)
    ensures LagRecordAt(S, d, text[4..]) == Some(([['a', '\\', '"', 'c']], ""))
  {
    var f := Lag(Parse(InField, ['a', '\\', '"', 'c'], []), 2);
    MoveAt(S, d, text, 4, f);
    assert text[5..] == "\r\n" + "";
    RowEnds(S, '\\', f, f.p.field, [], "");
    assert [] + [f.p.field] == [f.p.field];
  }

  lemma EscapedQuoteText(S: Setup)
    requires S.d == BACKSLASH
    ensures RowsText(S.d, [[Text(['a', 'b', '"', 'c'])]]).0 == ['a', 'b', '\\', '"', 'c', '\r', '\n']
  {
    var f, row := ['a', 'b', '"', 'c'], [Text(['a', 'b', '"', 'c'])];
    assert f[1..] == ['b', '"', 'c'] && f[1..][1..] == ['"', 'c'] && f[1..][1..][1..] == ['c'];
    assert Replace(['c'], '"', ['\\', '"']) == ['c'];
    assert Replace(f, '"', ['\\', '"']) == ['a', 'b', '\\', '"', 'c'];
    FieldSingle(S, '\\', f, false, true);
    NeedsQuotes(S, '\\', f);
    assert row[1..] == [];
    JoinedMore(S.d, row, true, true, ['a', 'b', '\\', '"', 'c'], "");
    assert [row][1..] == [];
  }

  /** The field of an escape character and a quote is read back, although it has the escape character. */
  lemma EscapeAndQuoteKept(limit: int)
    requires 2 <= limit
    ensures var S, f := Setup(BACKSLASH, limit), ['\\', '"'];
      S.ReadAll(SplitLines(RowsText(S.d, [[Text(f)]]).0)) == Ok(AllValues([[Text(f)]]))
  {
    var S, f := Setup(BACKSLASH, limit), ['\\', '"'];
    assert f[0] == '\\' && QuotesFrom(f, '"', 1);
    assert EscapeBeforeQuotes(f, '\\', '"');
    RoundTripExactSingle(S, '\\', [[Text(f)]]);
  }
}
