/** The records that plain text and text in quotes stand for: the fields are what the delimiters separate. */
module CsvSplits {
  import opened Wrappers
  import opened CsvDialects
  import opened CsvReaders
  import opened CsvLines

  /** The pieces of `s` that the character separates. */
  function Split(s: string, c: char): (r: seq<string>)
    ensures |r| > 0
  {
    if s == "" then [""]
    else
      var r := Split(s[1..], c);
      if s[0] == c then [""] + r else [[s[0]] + r[0]] + r[1..]
  }

  function Join(ss: seq<string>, c: char): string {
    if ss == [] then "" else if |ss| == 1 then ss[0] else ss[0] + [c] + Join(ss[1..], c)
  }

  function Occurrences(s: string, c: char): nat {
    if s == "" then 0 else (if s[0] == c then 1 else 0) + Occurrences(s[1..], c)
  }

  /** The pieces make up the text, and there is one more of them than there are separators, which are in none. */
  lemma {:induction false} SplitJoins(s: string, c: char)
    ensures Join(Split(s, c), c) == s && |Split(s, c)| == Occurrences(s, c) + 1
    ensures forall i :: 0 <= i < |Split(s, c)| ==> c !in Split(s, c)[i]
  {
    if s != "" {
      SplitJoins(s[1..], c);
      var r := Split(s[1..], c);
      if s[0] == c {
        assert ([""] + r)[1..] == r;
        assert s == "" + [c] + s[1..];
      } else {
        var first := [s[0]] + r[0];
        assert ([first] + r[1..])[1..] == r[1..];
        assert s == [s[0]] + s[1..];
        if |r| > 1 {
          assert first + [c] + Join(r[1..], c) == [s[0]] + (r[0] + [c] + Join(r[1..], c));
        }
      }
    }
  }

  /** No other pieces without the separator make up the text. */
  lemma {:induction false} SplitOfJoin(ss: seq<string>, c: char)
    requires ss != [] && forall i :: 0 <= i < |ss| ==> c !in ss[i]
    ensures Split(Join(ss, c), c) == ss && (ss != [""] ==> Join(ss, c) != "")
    decreases |ss|
  {
    if |ss| == 1 {
      SplitBefore(ss[0], "", c);
      assert ss[0] + "" == ss[0];
    } else {
      SplitOfJoin(ss[1..], c);
      SplitBefore(ss[0], [c] + Join(ss[1..], c), c);
      assert ss[0] + ([c] + Join(ss[1..], c)) == ss[0] + [c] + Join(ss[1..], c);
      assert ([c] + Join(ss[1..], c))[1..] == Join(ss[1..], c);
      assert ss[0] + "" == ss[0] && ss == [ss[0]] + ss[1..];
    }
  }

  lemma {:induction false} SplitBefore(a: string, s: string, c: char)
    requires c !in a
    ensures Split(a + s, c) == [a + Split(s, c)[0]] + Split(s, c)[1..]
  {
    if a == "" {
      assert a + s == s && "" + Split(s, c)[0] == Split(s, c)[0];
    } else {
      assert (a + s)[1..] == a[1..] + s;
      SplitBefore(a[1..], s, c);
      assert [a[0]] + (a[1..] + Split(s, c)[0]) == a + Split(s, c)[0];
    }
  }

  /** Characters that mean nothing to the reader, the delimiter and spaces apart. */
  predicate Simple(d: Dialect, t: string) {
    forall i :: 0 <= i < |t| ==> !Newline(t[i]) && t[i] != '\0' && Some(t[i]) != d.escapechar && !d.Quotes(t[i])
  }

  /** The value of an unquoted field. */
  function Value(d: Dialect, piece: string): string {
    if d.skipinitialspace then Stripped(piece) else piece
  }

  function Values(d: Dialect, pieces: seq<string>): (r: seq<string>)
    ensures |r| == |pieces| && forall i :: 0 <= i < |r| ==> r[i] == Value(d, pieces[i])
  {
    if pieces == [] then [] else [Value(d, pieces[0])] + Values(d, pieces[1..])
  }

  lemma {:induction false} ValuesSame(d: Dialect, pieces: seq<string>)
    requires !d.skipinitialspace
    ensures Values(d, pieces) == pieces
  {
    if pieces != [] {
      ValuesSame(d, pieces[1..]);
    }
  }

  lemma {:induction false} JoinIsSimple(d: Dialect, ss: seq<string>)
    requires Simple(d, [d.delimiter]) && forall i :: 0 <= i < |ss| ==> Simple(d, ss[i])
    ensures Simple(d, Join(ss, d.delimiter))
  {
    if |ss| > 1 {
      JoinIsSimple(d, ss[1..]);
      var rest := Join(ss[1..], d.delimiter);
      assert Simple(d, ss[0]) && [d.delimiter][0] == d.delimiter;
      forall i | 0 <= i < |Join(ss, d.delimiter)|
        ensures Simple(d, [Join(ss, d.delimiter)[i]])
      {
        var c := Join(ss, d.delimiter)[i];
        assert c == if i < |ss[0]| then ss[0][i] else if i == |ss[0]| then d.delimiter else rest[i - |ss[0]| - 1];
      }
      assert forall i :: 0 <= i < |Join(ss, d.delimiter)| ==> [Join(ss, d.delimiter)[i]][0] == Join(ss, d.delimiter)[i];
    }
  }

  predicate Fits(su: Setup, f: string) {
    f == "" || |f| <= su.limit
  }

  predicate AllFit(su: Setup, fs: seq<string>) {
    forall i :: 0 <= i < |fs| ==> Fits(su, fs[i])
  }

  /** What follows a field. */
  predicate Ends(d: Dialect, w: string) {
    w == "" || Newline(w[0]) || (w[0] == d.delimiter && !d.Quotes(w[0]))
  }

  lemma {:induction false} PieceLength(d: Dialect, t: string, w: string)
    requires Simple(d, t) && d.delimiter !in t && Ends(d, w)
    ensures Length(d, t + w) == |t|
  {
    if t == "" {
      assert t + w == w;
    } else {
      assert (t + w)[1..] == t[1..] + w;
      PieceLength(d, t[1..], w);
    }
  }

  lemma {:induction false} StrippedBefore(t: string, w: string)
    requires w == "" || w[0] != ' '
    ensures Stripped(t + w) == Stripped(t) + w
  {
    if t == "" {
      assert t + w == w;
    } else if t[0] == ' ' {
      assert (t + w)[1..] == t[1..] + w;
      StrippedBefore(t[1..], w);
    }
  }

  lemma {:induction false} StrippedRest(t: string) returns (k: nat)
    ensures k <= |t| && Stripped(t) == t[k..]
  {
    if t != "" && t[0] == ' ' {
      k := StrippedRest(t[1..]);
      assert t[1..][k..] == t[k + 1..];
      k := k + 1;
    } else {
      k := 0;
    }
  }

  /** A piece of plain text outside of quotes adds to its field. */
  lemma PieceIsAdded(su: Setup, a: string, t: string, w: string)
    requires Simple(su.d, t) && su.d.delimiter !in t && Ends(su.d, w)
    ensures Plain(su, a, t + w) ==
      if t == "" || |a + t| <= su.limit then AtEnd(su, a + t, w) else Wrong(FieldTooLarge)
  {
    PieceLength(su.d, t, w);
    assert (t + w)[..|t|] == t && (t + w)[|t|..] == w;
  }

  /** A piece of plain text is a field, without the spaces at its start if those are skipped. */
  lemma PieceIsField(su: Setup, t: string, w: string)
    requires Simple(su.d, t) && su.d.delimiter !in t && Ends(su.d, w)
    requires su.d.skipinitialspace ==> su.d.delimiter != ' '
    ensures FromStart(su, t + w) ==
      if Fits(su, Value(su.d, t)) then AtEnd(su, Value(su.d, t), w) else Wrong(FieldTooLarge)
  {
    var v := Value(su.d, t);
    if su.d.skipinitialspace {
      StrippedBefore(t, w);
      var k := StrippedRest(t);
      if su.d.Quotes(' ') {
        NothingToStrip(t);
      }
    }
    assert "" + v == v;
    PieceIsAdded(su, "", v, w);
  }

  lemma NothingToStrip(t: string)
    requires ' ' !in t
    ensures Stripped(t) == t
  {
  }

  /** The pieces of a text are what is in front of the first delimiter and the pieces of the rest. */
  lemma {:induction false} FirstPiece(d: Dialect, t: string, k: nat)
    requires Simple(d, t) && k == Length(d, t)
    ensures d.delimiter !in t[..k]
    ensures k == |t| ==> Split(t, d.delimiter) == [t]
    ensures k < |t| ==> t[k] == d.delimiter && Split(t, d.delimiter) == [t[..k]] + Split(t[k + 1..], d.delimiter)
  {
    if k > 0 {
      FirstPiece(d, t[1..], k - 1);
      assert t[..k] == [t[0]] + t[1..][..k - 1];
      assert t == [t[0]] + t[1..];
      assert k < |t| ==> t[1..][k..] == t[k + 1..];
    }
  }

  /** The record, or the rest of it, behind the fields of a text. */
  function AfterText(su: Setup, vs: seq<string>, w: string): Reading {
    if w == "" then Fields(vs)
    else if Newline(w[0]) then if AllNewlines(w) then Fields(vs) else Wrong(NewlineInUnquotedField)
    else Behind(vs, FromStart(su, w[1..]))
  }

  predicate Plainly(su: Setup, t: string, w: string) {
    Simple(su.d, t) && Ends(su.d, w) && (su.d.skipinitialspace ==> su.d.delimiter != ' ')
  }

  /** The fields of a plain text are what its delimiters separate, whatever follows it. */
  lemma {:induction false} TextIsSplit(su: Setup, t: string, w: string)
    requires Plainly(su, t, w)
    ensures var vs := Values(su.d, Split(t, su.d.delimiter));
      FromStart(su, t + w) == if AllFit(su, vs) then AfterText(su, vs, w) else Wrong(FieldTooLarge)
    decreases |t|
  {
    var k := Length(su.d, t);
    FirstPiece(su.d, t, k);
    if k == |t| {
      OnePiece(su, t, w);
    } else {
      TextIsSplit(su, t[k + 1..], w);
      MorePieces(su, t, k, w, Split(t[k + 1..], su.d.delimiter));
    }
  }

  lemma OnePiece(su: Setup, t: string, w: string)
    requires Plainly(su, t, w) && su.d.delimiter !in t
    ensures var vs := Values(su.d, [t]);
      FromStart(su, t + w) == if AllFit(su, vs) then AfterText(su, vs, w) else Wrong(FieldTooLarge)
  {
    PieceIsField(su, t, w);
    OneField(su, Value(su.d, t), w);
    MoreFit(su, Value(su.d, t), []);
    assert [Value(su.d, t)] + [] == [Value(su.d, t)];
  }

  lemma MorePieces(su: Setup, t: string, k: nat, w: string, pieces: seq<string>)
    requires Plainly(su, t, w) && k < |t| && t[k] == su.d.delimiter && su.d.delimiter !in t[..k]
    requires var vs := Values(su.d, pieces);
      FromStart(su, t[k + 1..] + w) == if AllFit(su, vs) then AfterText(su, vs, w) else Wrong(FieldTooLarge)
    ensures var vs := Values(su.d, [t[..k]] + pieces);
      FromStart(su, t + w) == if AllFit(su, vs) then AfterText(su, vs, w) else Wrong(FieldTooLarge)
  {
    var v, vs := Value(su.d, t[..k]), Values(su.d, pieces);
    var w' := CutAt(t, k, w);
    PieceIsField(su, t[..k], w');
    ValuesOfMore(su.d, t[..k], pieces);
    MoreFit(su, v, vs);
    FieldsOfMore(su, v, vs, w);
  }

  lemma CutAt(t: string, k: nat, w: string) returns (w': string)
    requires k < |t|
    ensures t + w == t[..k] + w' && w' != "" && w'[0] == t[k] && w'[1..] == t[k + 1..] + w
  {
    w' := t[k..] + w;
  }

  lemma OneField(su: Setup, v: string, w: string)
    ensures AtEnd(su, v, w) == AfterText(su, [v], w)
  {
  }

  lemma ValuesOfMore(d: Dialect, first: string, pieces: seq<string>)
    ensures Values(d, [first] + pieces) == [Value(d, first)] + Values(d, pieces)
  {
  }

  lemma MoreFit(su: Setup, f: string, fs: seq<string>)
    ensures AllFit(su, [f] + fs) <==> Fits(su, f) && AllFit(su, fs)
  {
    assert ([f] + fs)[0] == f;
    assert forall i :: 0 <= i < |fs| ==> ([f] + fs)[i + 1] == fs[i];
  }

  lemma FieldsOfMore(su: Setup, v: string, vs: seq<string>, w: string)
    ensures Behind([v], AfterText(su, vs, w)) == AfterText(su, [v] + vs, w)
  {
    if w != "" && !Newline(w[0]) {
      BehindBehind([v], vs, FromStart(su, w[1..]));
    }
  }

  /** The fields of a text that goes on with a field of which `a` is read. */
  function ValuesFrom(d: Dialect, a: string, t: string): seq<string> {
    var pieces := Split(t, d.delimiter);
    [a + pieces[0]] + Values(d, pieces[1..])
  }

  lemma TextIsAdded(su: Setup, a: string, t: string, w: string)
    requires Plainly(su, t, w) && Fits(su, a)
    ensures var vs := ValuesFrom(su.d, a, t);
      Plain(su, a, t + w) == if AllFit(su, vs) then AfterText(su, vs, w) else Wrong(FieldTooLarge)
  {
    var k := Length(su.d, t);
    FirstPiece(su.d, t, k);
    if k == |t| {
      AddedPiece(su, a, t, w);
    } else {
      TextIsSplit(su, t[k + 1..], w);
      AddedPieces(su, a, t, k, w, Split(t[k + 1..], su.d.delimiter));
      assert ([t[..k]] + Split(t[k + 1..], su.d.delimiter))[1..] == Split(t[k + 1..], su.d.delimiter);
    }
  }

  lemma AddedPiece(su: Setup, a: string, t: string, w: string)
    requires Plainly(su, t, w) && su.d.delimiter !in t && Fits(su, a)
    ensures var vs := [a + t] + Values(su.d, []);
      Plain(su, a, t + w) == if AllFit(su, vs) then AfterText(su, vs, w) else Wrong(FieldTooLarge)
  {
    PieceIsAdded(su, a, t, w);
    OneField(su, a + t, w);
    MoreFit(su, a + t, []);
    assert [a + t] + [] == [a + t];
    if t == "" {
      assert a + t == a;
    }
  }

  lemma AddedPieces(su: Setup, a: string, t: string, k: nat, w: string, pieces: seq<string>)
    requires Plainly(su, t, w) && k < |t| && t[k] == su.d.delimiter && su.d.delimiter !in t[..k] && Fits(su, a)
    requires var vs := Values(su.d, pieces);
      FromStart(su, t[k + 1..] + w) == if AllFit(su, vs) then AfterText(su, vs, w) else Wrong(FieldTooLarge)
    ensures var vs := [a + t[..k]] + Values(su.d, pieces);
      Plain(su, a, t + w) == if AllFit(su, vs) then AfterText(su, vs, w) else Wrong(FieldTooLarge)
  {
    var vs := Values(su.d, pieces);
    var w' := CutAt(t, k, w);
    PieceIsAdded(su, a, t[..k], w');
    MoreFit(su, a + t[..k], vs);
    FieldsOfMore(su, a + t[..k], vs, w);
    if k == 0 {
      assert a + t[..k] == a;
    }
  }

  // Quotes.

  /** A text as it is written inside quotes. */
  function Within(d: Dialect, q: char, a: string): string {
    if a == "" then ""
    else (if a[0] == q && d.doublequote then [q, q] else [a[0]]) + Within(d, q, a[1..])
  }

  predicate InsideOk(d: Dialect, q: char, a: string) {
    d.Quotes(q) && !Newline(q) && !Newline(d.delimiter) && (q in a ==> d.doublequote)
  }

  lemma {:induction false} InsideQuotes(su: Setup, q: char, x: string, a: string, z: string)
    requires InsideOk(su.d, q, a)
    ensures InQuotes(su, x, Within(su.d, q, a) + z) ==
      if a == "" || |x + a| <= su.limit then InQuotes(su, x + a, z) else Wrong(FieldTooLarge)
    decreases |a|
  {
    if a == "" {
      assert x + a == x && Within(su.d, q, a) + z == z;
    } else {
      var first := if a[0] == q then [q, q] else [a[0]];
      var u := Within(su.d, q, a[1..]) + z;
      assert Within(su.d, q, a) + z == first + u;
      assert (first + u)[|first|..] == u;
      assert a[0] == q ==> (first + u)[1..][0] == q;
      assert x + [a[0]] + a[1..] == x + a;
      if |x| + 1 <= su.limit {
        InsideQuotes(su, q, x + [a[0]], a[1..], z);
        assert InQuotes(su, x, first + u) == InQuotes(su, x + [a[0]], u);
      }
    }
  }

  /** What is known behind a closing quote: text may follow, unless the dialect is strict and doubles quotes. */
  lemma ClosedQuotes(su: Setup, q: char, a: string, t: string, w: string)
    requires InsideOk(su.d, q, "") && Plainly(su, t, w) && Fits(su, a)
    ensures var vs := ValuesFrom(su.d, a, t);
      InQuotes(su, a, [q] + t + w) ==
        if su.d.strict && su.d.doublequote && t != "" && t[0] != su.d.delimiter then Wrong(DelimiterExpected)
        else if AllFit(su, vs) then AfterText(su, vs, w)
        else Wrong(FieldTooLarge)
  {
    var v := t + w;
    assert [q] + t + w == [q] + v;
    assert if t == "" then v == w else v[1..] == t[1..] + w;
    AfterQuote(su, q, a, v);
    if t == "" {
      EmptyText(su, a, w);
    } else if su.d.doublequote && t[0] == su.d.delimiter {
      StartsWithDelimiter(su, a, t, w);
    } else if MayFollow(su.d, t + w) {
      TextIsAdded(su, a, t, w);
    }
  }

  lemma AfterQuote(su: Setup, q: char, a: string, v: string)
    requires su.d.Quotes(q) && !OpensQuotes(su.d, v)
    ensures InQuotes(su, a, [q] + v) ==
      if su.d.doublequote && Starts(v, su.d.delimiter) then Behind([a], FromStart(su, v[1..]))
      else if MayFollow(su.d, v) then Plain(su, a, v)
      else Wrong(DelimiterExpected)
  {
    var u := [q] + v;
    assert u[1..] == v;
    if v != "" {
      assert u[2..] == v[1..];
    }
  }

  lemma EmptyText(su: Setup, a: string, w: string)
    requires Ends(su.d, w) && Fits(su, a)
    ensures AllFit(su, ValuesFrom(su.d, a, "")) && ValuesFrom(su.d, a, "") == [a]
    ensures Plain(su, a, w) == AfterText(su, [a], w)
  {
    assert a + "" == a && [a] + [] == [a];
    assert a + w[..0] == a && w[0..] == w;
    OneField(su, a, w);
  }

  lemma StartsWithDelimiter(su: Setup, a: string, t: string, w: string)
    requires Plainly(su, t, w) && Fits(su, a) && t != "" && t[0] == su.d.delimiter
    ensures var vs := ValuesFrom(su.d, a, t);
      Behind([a], FromStart(su, t[1..] + w)) == if AllFit(su, vs) then AfterText(su, vs, w) else Wrong(FieldTooLarge)
  {
    var pieces := Split(t[1..], su.d.delimiter);
    var vs := Values(su.d, pieces);
    TextIsSplit(su, t[1..], w);
    assert a + "" == a && ([""] + pieces)[1..] == pieces;
    MoreFit(su, a, vs);
    FieldsOfMore(su, a, vs, w);
  }

  /** The text of a field in quotes, with other text behind it. */
  function InQuotesAndMore(d: Dialect, q: char, a: string, t: string): string {
    [q] + Within(d, q, a) + [q] + t
  }

  lemma QuotesAndMore(su: Setup, q: char, a: string, t: string, w: string)
    requires InsideOk(su.d, q, a) && Plainly(su, t, w)
    ensures var vs := ValuesFrom(su.d, a, t);
      FromStart(su, InQuotesAndMore(su.d, q, a, t) + w) ==
        if !Fits(su, a) then Wrong(FieldTooLarge)
        else if su.d.strict && su.d.doublequote && t != "" && t[0] != su.d.delimiter then Wrong(DelimiterExpected)
        else if AllFit(su, vs) then AfterText(su, vs, w)
        else Wrong(FieldTooLarge)
  {
    var line, z := InQuotesAndMore(su.d, q, a, t) + w, [q] + t + w;
    assert line[0] == q && line[1..] == Within(su.d, q, a) + z;
    InsideQuotes(su, q, "", a, z);
    assert "" + a == a;
    if Fits(su, a) {
      ClosedQuotes(su, q, a, t, w);
    }
  }

  // Whole lines.

  /** What `next` returns for a line. */
  function ItemOf(r: Reading): Item {
    match r
    case Fields(fs) => Row(fs)
    case Wrong(e) => Bad(e)
    case Open(_, _) => Stop
  }

  predicate Readable(d: Dialect, line: string) {
    NoEscapes(d, line, 0) && '\0' !in line
  }

  lemma FirstLine(su: Setup, line: string, rest: seq<string>)
    requires Readable(su.d, line) && !FromLine(su, line).Open?
    ensures su.Next(INITIAL, [line] + rest) == (ItemOf(FromLine(su, line)), rest)
  {
    LineRead(su, line);
    assert ([line] + rest)[1..] == rest;
  }

  /** The end of a line, or a newline in the middle of it. */
  predicate LineEnd(d: Dialect, w: string) {
    Readable(d, w) && (w == "" || Newline(w[0]))
  }

  /** What the fields `vs` become if the line ends with `w`. */
  function Record(su: Setup, vs: seq<string>, w: string): Item {
    if !AllFit(su, vs) then Bad(FieldTooLarge)
    else if AllNewlines(w) then Row(vs)
    else Bad(NewlineInUnquotedField)
  }

  /**
    * A line of plain text, with any newlines behind it or none, is the record of what its delimiters
    * separate, without the spaces at the start of each field if those are skipped.
    */
  lemma NextIsSplit(su: Setup, t: string, w: string, rest: seq<string>)
    requires t != "" && Simple(su.d, t) && LineEnd(su.d, w)
    requires su.d.skipinitialspace ==> su.d.delimiter != ' '
    ensures su.Next(INITIAL, [t + w] + rest) == (Record(su, Values(su.d, Split(t, su.d.delimiter)), w), rest)
  {
    TextIsSplit(su, t, w);
    assert !Newline((t + w)[0]);
    FirstLine(su, t + w, rest);
  }

  /** A line with nothing but newlines, or nothing at all, is a record without fields. */
  lemma EmptyLine(su: Setup, w: string, rest: seq<string>)
    requires LineEnd(su.d, w)
    ensures su.Next(INITIAL, [w] + rest) == (if AllNewlines(w) then Row([]) else Bad(NewlineInUnquotedField), rest)
  {
    FirstLine(su, w, rest);
  }

  /**
    * A line that starts with a field in quotes. Text behind the closing quote is added to the field, up to
    * the next delimiter; but if the dialect is strict and doubles quotes, there may be none.
    */
  lemma NextOfQuoted(su: Setup, q: char, a: string, t: string, w: string, rest: seq<string>)
    requires InsideOk(su.d, q, a) && Readable(su.d, [q] + a) && Simple(su.d, t) && LineEnd(su.d, w)
    requires su.d.skipinitialspace ==> su.d.delimiter != ' '
    ensures su.Next(INITIAL, [InQuotesAndMore(su.d, q, a, t) + w] + rest) ==
      (if Fits(su, a) && su.d.strict && su.d.doublequote && t != "" && t[0] != su.d.delimiter
       then Bad(DelimiterExpected)
       else if Fits(su, a) then Record(su, ValuesFrom(su.d, a, t), w)
       else Bad(FieldTooLarge), rest)
  {
    var line := InQuotesAndMore(su.d, q, a, t) + w;
    QuotesAndMore(su, q, a, t, w);
    WithinReadable(su.d, q, a);
    BothReadable(su.d, Within(su.d, q, a), [q]);
    BothReadable(su.d, [q], Within(su.d, q, a) + [q]);
    BothReadable(su.d, [q] + Within(su.d, q, a) + [q], t);
    BothReadable(su.d, InQuotesAndMore(su.d, q, a, t), w);
    assert [q] + (Within(su.d, q, a) + [q]) == [q] + Within(su.d, q, a) + [q];
    assert line[0] == q;
    FirstLine(su, line, rest);
  }

  lemma BothReadable(d: Dialect, s: string, t: string)
    requires Readable(d, s) && Readable(d, t)
    ensures Readable(d, s + t)
  {
  }

  /** The line has the characters of the text and quotes. */
  lemma {:induction false} WithinReadable(d: Dialect, q: char, a: string)
    requires Readable(d, [q] + a)
    ensures Readable(d, Within(d, q, a)) && Readable(d, [q])
  {
    assert ([q] + a)[0] == q;
    if a != "" {
      var first := if a[0] == q && d.doublequote then [q, q] else [a[0]];
      assert ([q] + a)[1] == a[0];
      assert forall i :: 0 < i <= |a[1..]| ==> ([q] + a[1..])[i] == ([q] + a)[i + 1];
      WithinReadable(d, q, a[1..]);
      BothReadable(d, first, Within(d, q, a[1..]));
    }
  }

  /** Quotes that are never closed: an error if there is anything inside them, and else the end of the input. */
  lemma Unclosed(su: Setup, q: char, a: string)
    requires InsideOk(su.d, q, a) && Readable(su.d, [q] + a)
    ensures su.Next(INITIAL, [[q] + Within(su.d, q, a)]) ==
      (if !Fits(su, a) then Bad(FieldTooLarge) else if a == "" then Stop else Bad(NewlineInsideString), [])
  {
    UnclosedLine(su, q, a);
    NextReads(su, None, [[q] + Within(su.d, q, a)]);
  }

  lemma UnclosedLine(su: Setup, q: char, a: string)
    requires InsideOk(su.d, q, a) && Readable(su.d, [q] + a)
    ensures Readable(su.d, [q] + Within(su.d, q, a))
    ensures FromLine(su, [q] + Within(su.d, q, a)) == if Fits(su, a) then Open([], a) else Wrong(FieldTooLarge)
  {
    var line := [q] + Within(su.d, q, a);
    WithinReadable(su.d, q, a);
    BothReadable(su.d, [q], Within(su.d, q, a));
    InsideQuotes(su, q, "", a, "");
    assert line[1..] == Within(su.d, q, a) + "" && "" + a == a;
    assert !Newline(line[0]);
  }

  // The escape character where a field starts and at the end of a line.

  predicate Escapes(d: Dialect, e: char) {
    d.escapechar == Some(e) && !Newline(e) && !d.Quotes(e)
  }

  /** An escaped character starts a field, whatever it is. */
  lemma EscapedStart(su: Setup, e: char, c: char, t: string, w: string, rest: seq<string>)
    requires Escapes(su.d, e) && '\0' !in [e, c] && 1 <= su.limit
    requires Simple(su.d, t) && LineEnd(su.d, w) && (su.d.skipinitialspace ==> su.d.delimiter != ' ')
    ensures su.Next(INITIAL, [[e, c] + t + w] + rest) == (Record(su, ValuesFrom(su.d, [c], t), w), rest)
  {
    var line := [e, c] + t + w;
    Stepping(su, StartRecord, "", [], line, 0);
    Stepping(su, EscapedChar, "", [], line, 1);
    assert "" + [c] == [c] && line[2..] == t + w;
    PlainRead(su, [c], [], line, 2);
    TextIsAdded(su, [c], t, w);
    BehindNothing(Plain(su, [c], t + w));
    assert ([line] + rest)[1..] == rest;
  }

  /** An escape character at the end of a line stands for a newline, and the field goes on in the next line. */
  lemma EscapedEnd(su: Setup, e: char, t: string, w: string, rest: seq<string>)
    requires Escapes(su.d, e) && e != '\0' && 1 <= su.limit
    requires Simple(su.d, t) && LineEnd(su.d, w) && (su.d.skipinitialspace ==> su.d.delimiter != ' ')
    ensures su.Next(INITIAL, [[e], t + w] + rest) == (Record(su, ValuesFrom(su.d, "\n", t), w), rest)
  {
    var p, line := Parse(EscapedChar, "", []), t + w;
    assert su.Step(INITIAL, e) == Ok(p);
    assert su.RunLine(p, [e], 1) == Ok(p);
    assert "" + "\n" == "\n";
    assert ([[e], line] + rest)[1..] == [line] + rest;
    FieldGoesOn(su, "\n", t, w, rest);
  }

  lemma FieldGoesOn(su: Setup, a: string, t: string, w: string, rest: seq<string>)
    requires Simple(su.d, t) && LineEnd(su.d, w) && (su.d.skipinitialspace ==> su.d.delimiter != ' ')
    requires Fits(su, a)
    ensures su.Next(Parse(InField, a, []), [t + w] + rest) == (Record(su, ValuesFrom(su.d, a, t), w), rest)
  {
    var line := t + w;
    assert line[0..] == line;
    PlainRead(su, a, [], line, 0);
    TextIsAdded(su, a, t, w);
    BehindNothing(Plain(su, a, line));
    assert ([line] + rest)[1..] == rest;
  }

  /** Inside quotes it does so as well. */
  lemma EscapedEndInQuotes(su: Setup, q: char, e: char, a: string, w: string, rest: seq<string>)
    requires InsideOk(su.d, q, a) && Readable(su.d, [q] + a) && Some(e) == su.d.escapechar && e != '\0'
    requires LineEnd(su.d, w) && |"\n" + a| <= su.limit
    ensures su.Next(INITIAL, [[q, e], Within(su.d, q, a) + [q] + w] + rest) == (Record(su, ["\n" + a], w), rest)
  {
    var p, line := Parse(EscapeInQuotedField, "", []), Within(su.d, q, a) + [q] + w;
    var z := [q] + w;
    OpensWithEscape(su, q, e);
    assert "" + "\n" == "\n" && line[0..] == line == Within(su.d, q, a) + z;
    WithinReadable(su.d, q, a);
    BothReadable(su.d, Within(su.d, q, a), [q]);
    BothReadable(su.d, Within(su.d, q, a) + [q], w);
    QuotedRead(su, "\n", [], line, 0);
    InsideQuotes(su, q, "\n", a, z);
    AfterQuote(su, q, "\n" + a, w);
    EmptyText(su, "\n" + a, w);
    BehindNothing(Plain(su, "\n" + a, w));
    assert ([[q, e], line] + rest)[1..] == [line] + rest && ([line] + rest)[1..] == rest;
  }

  lemma OpensWithEscape(su: Setup, q: char, e: char)
    requires InsideOk(su.d, q, "") && Some(e) == su.d.escapechar
    ensures su.RunLine(INITIAL, [q, e], 0) == Ok(Parse(EscapeInQuotedField, "", []))
  {
    var p := Parse(InQuotedField, "", []);
    assert su.Step(INITIAL, q) == Ok(p) && su.Step(p, e) == Ok(p.(state := EscapeInQuotedField));
    assert su.RunLine(p.(state := EscapeInQuotedField), [q, e], 2).Ok?;
    assert su.RunLine(p, [q, e], 1) == Ok(p.(state := EscapeInQuotedField));
  }
}
