/**
 The batched scan of unquoted fields against the automaton run one character at a time:
 they agree exactly when the scan never meets the escape character right after a single
 ordinary character.
 */
module CsvScans {
  import opened Wrappers
  import opened CsvDialects
  import opened CsvReaders

  /** The scan at `pos` stops at an escape character after exactly one ordinary one. */
  predicate SkipsOne(S: Setup, p: Parse, line: string, pos: nat)
    requires pos < |line|
  {
    && p.state == InField
    && S.Span(line, pos) == 1
    && pos + 1 < |line|
    && Some(line[pos + 1]) == S.d.escapechar
    && !Newline(line[pos + 1])
  }

  /** Reading the rest of the line comes upon such a scan. */
  predicate Skips(S: Setup, p: Parse, line: string, pos: nat)
    requires pos <= |line|
    decreases |line| - pos
  {
    pos < |line| &&
    (SkipsOne(S, p, line, pos) ||
     var r := S.Process(p, line, pos);
     r.Ok? && Skips(S, r.value.0, line, r.value.1))
  }

  /** Ordinary characters of an unquoted field can be added at once. */
  lemma {:induction false} RunOrdinary(S: Setup, p: Parse, s: string, t: string)
    requires p.state == InField && s != ""
    requires forall i :: 0 <= i < |s| ==> S.Ordinary(s[i])
    ensures S.Run(p, s + t) == var q := S.Add(p, s); if q.Err? then q else S.Run(q.value, t)
    decreases |s|
  {
    assert (s + t)[1..] == s[1..] + t;
    var q := S.Add(p, [s[0]]);
    if q.Ok? && |s| > 1 {
      RunOrdinary(S, q.value, s[1..], t);
      assert p.field + s == q.value.field + s[1..];
    } else if |s| == 1 {
      assert s == [s[0]];
    }
  }

  /** Character by character from `pos` on, against one batch step and character by character after it. */
  predicate StepwiseAt(S: Setup, p: Parse, line: string, pos: nat)
    requires pos < |line|
  {
    S.Run(p, line[pos..]) ==
      var r := S.Process(p, line, pos);
      if r.Err? then Err(r.error) else S.Run(r.value.0, line[r.value.1..])
  }

  lemma StepFaithful(S: Setup, p: Parse, line: string, pos: nat)
    requires pos < |line| && p.state != InField
    ensures StepwiseAt(S, p, line, pos)
  {
    assert line[pos..][1..] == line[pos + 1..];
  }

  lemma ScanFaithful(S: Setup, p: Parse, line: string, pos: nat)
    requires pos < |line| && p.state == InField && !SkipsOne(S, p, line, pos)
    ensures StepwiseAt(S, p, line, pos)
  {
    var k := S.Span(line, pos);
    var stop := pos + k;
    if stop == |line| {
      assert line[pos..] == line[pos..stop] + line[stop..];
      RunOrdinary(S, p, line[pos..stop], line[stop..]);
    } else if Some(line[stop]) == S.d.escapechar && !Newline(line[stop]) {
      if k > 1 {
        BackOneFaithful(S, p, line, pos);
      } else {
        assert line[pos..][1..] == line[pos + 1..];
      }
    } else {
      StopFaithful(S, p, line, pos);
    }
  }

  /** A scan that ends at a delimiter or a newline. */
  lemma StopFaithful(S: Setup, p: Parse, line: string, pos: nat)
    requires pos < |line| && p.state == InField
    requires var stop := pos + S.Span(line, pos);
      stop < |line| && !(Some(line[stop]) == S.d.escapechar && !Newline(line[stop]))
    ensures StepwiseAt(S, p, line, pos)
  {
    var k := S.Span(line, pos);
    var stop := pos + k;
    assert line[pos..] == line[pos..stop] + line[stop..];
    if k > 0 {
      RunOrdinary(S, p, line[pos..stop], line[stop..]);
    }
    assert line[stop..][1..] == line[stop + 1..];
  }

  /** Stepping back is harmless after two ordinary characters: the second is added again. */
  lemma BackOneFaithful(S: Setup, p: Parse, line: string, pos: nat)
    requires pos < |line| && p.state == InField
    requires var k := S.Span(line, pos);
      1 < k && pos + k < |line| && Some(line[pos + k]) == S.d.escapechar && !Newline(line[pos + k])
    ensures StepwiseAt(S, p, line, pos)
  {
    var back := pos + S.Span(line, pos) - 1;
    assert line[pos..] == line[pos..back] + line[back..];
    RunOrdinary(S, p, line[pos..back], line[back..]);
    var q := S.Add(p, line[pos..back]);
    if q.Ok? {
      var e := q.value.(state := EscapedChar);
      assert S.Add(p.(state := EscapedChar), line[pos..back]) == Ok(e);
      assert S.Step(e, line[back]) == S.Step(q.value, line[back]);
    }
  }

  /** Without a skipping scan, a line reads the same in batches and character by character. */
  lemma {:induction false} BatchIsCharwise(S: Setup, p: Parse, line: string, pos: nat)
    requires pos <= |line| && !Skips(S, p, line, pos)
    ensures S.RunLine(p, line, pos) == S.Run(p, line[pos..])
    decreases |line| - pos
  {
    if pos < |line| {
      if p.state == InField {
        ScanFaithful(S, p, line, pos);
      } else {
        StepFaithful(S, p, line, pos);
      }
      var r := S.Process(p, line, pos);
      if r.Ok? {
        BatchIsCharwise(S, r.value.0, line, r.value.1);
      }
    }
  }

  /** Without an escape character no scan skips anything. */
  lemma {:induction false} NoEscapeNoSkip(S: Setup, p: Parse, line: string, pos: nat)
    requires pos <= |line| && S.d.escapechar == None
    ensures !Skips(S, p, line, pos)
    decreases |line| - pos
  {
    if pos < |line| {
      var r := S.Process(p, line, pos);
      if r.Ok? {
        NoEscapeNoSkip(S, r.value.0, line, r.value.1);
      }
    }
  }

  /** All fields of a parse, the unfinished one last. */
  function Fields(p: Parse): seq<string> {
    p.fields + [p.field]
  }

  /** `q` has the finished fields of `p` and continues its unfinished one. */
  predicate Grows(p: Parse, q: Parse) {
    |p.fields| <= |q.fields| && p.fields <= q.fields && p.field <= Fields(q)[|p.fields|]
  }

  lemma GrowsTransitive(p: Parse, q: Parse, r: Parse)
    requires Grows(p, q) && Grows(q, r)
    ensures Grows(p, r)
  {
    if |p.fields| < |q.fields| {
      assert Fields(q)[|p.fields|] == q.fields[|p.fields|] == r.fields[|p.fields|];
    }
  }

  lemma StepGrows(S: Setup, p: Parse, c: char)
    requires S.Step(p, c).Ok?
    ensures Grows(p, S.Step(p, c).value)
  {
  }

  lemma {:induction false} RunGrows(S: Setup, p: Parse, s: string)
    requires S.Run(p, s).Ok?
    ensures Grows(p, S.Run(p, s).value)
    decreases |s|
  {
    if s != "" {
      var q := S.Step(p, s[0]).value;
      StepGrows(S, p, s[0]);
      RunGrows(S, q, s[1..]);
      GrowsTransitive(p, q, S.Run(p, s).value);
    }
  }

  lemma ScanGrows(S: Setup, p: Parse, line: string, pos: nat)
    requires pos < |line| && p.state == InField && S.Scan(p, line, pos).Ok?
    ensures Grows(p, S.Scan(p, line, pos).value.0)
  {
  }

  lemma {:induction false} RunLineGrows(S: Setup, p: Parse, line: string, pos: nat)
    requires pos <= |line| && S.RunLine(p, line, pos).Ok?
    ensures Grows(p, S.RunLine(p, line, pos).value)
    decreases |line| - pos
  {
    if pos < |line| {
      var (q, next) := S.Process(p, line, pos).value;
      if p.state == InField {
        ScanGrows(S, p, line, pos);
      } else {
        StepGrows(S, p, line[pos]);
      }
      RunLineGrows(S, q, line, next);
      GrowsTransitive(p, q, S.RunLine(p, line, pos).value);
    }
  }

  /** Parses whose unfinished fields differ somewhere never grow into the same one. */
  lemma GrowApart(p: Parse, p': Parse, q: Parse, i: nat)
    requires p.fields == p'.fields && i < |p.field| && i < |p'.field| && p.field[i] != p'.field[i]
    requires Grows(p, q)
    ensures !Grows(p', q)
  {
  }

  /** A skipped character shows in the outcome. */
  lemma SkippedShows(S: Setup, p: Parse, line: string, pos: nat)
    requires pos < |line| && SkipsOne(S, p, line, pos)
    requires S.Run(p, line[pos..]).Ok?
    ensures S.RunLine(p, line, pos) != S.Run(p, line[pos..])
  {
    var x, e := line[pos], line[pos + 1];
    assert line[pos..] == [x, e] + line[pos + 2..];
    assert ([x, e] + line[pos + 2..])[1..] == [e] + line[pos + 2..];
    assert ([e] + line[pos + 2..])[1..] == line[pos + 2..];
    var right := S.Add(p, [x]).value.(state := EscapedChar);
    assert S.Run(p, line[pos..]) == S.Run(right, line[pos + 2..]);
    RunGrows(S, right, line[pos + 2..]);
    var wrong := S.Add(p, [e]);
    assert S.Scan(p, line, pos) == Ok((p.(state := EscapedChar), pos + 1));
    if wrong.Ok? && S.RunLine(wrong.value, line, pos + 2).Ok? {
      RunLineGrows(S, wrong.value, line, pos + 2);
      GrowApart(right, wrong.value, S.Run(right, line[pos + 2..]).value, |p.field|);
    }
  }

  lemma {:induction false} SkippingShows(S: Setup, p: Parse, line: string, pos: nat)
    requires pos <= |line| && Skips(S, p, line, pos)
    requires S.Run(p, line[pos..]).Ok?
    ensures S.RunLine(p, line, pos) != S.Run(p, line[pos..])
    decreases |line| - pos
  {
    if SkipsOne(S, p, line, pos) {
      SkippedShows(S, p, line, pos);
    } else {
      if p.state == InField {
        ScanFaithful(S, p, line, pos);
      } else {
        StepFaithful(S, p, line, pos);
      }
      var r := S.Process(p, line, pos).value;
      SkippingShows(S, r.0, line, r.1);
    }
  }

  /** At `j` the automaton has an unquoted field open that it did not have open before. */
  predicate OpensAt(S: Setup, p: Parse, s: string, j: nat)
    requires j <= |s|
  {
    && S.Run(p, s[..j]).Ok? && S.Run(p, s[..j]).value.state == InField
    && (j == 0 || S.Run(p, s[..j - 1]).Err? || S.Run(p, s[..j - 1]).value.state != InField)
  }

  /** There, one ordinary character comes before an escape character. */
  predicate SkipsAt(S: Setup, p: Parse, s: string, j: nat)
    requires j <= |s|
  {
    j + 1 < |s| && OpensAt(S, p, s, j) && S.Ordinary(s[j]) && Some(s[j + 1]) == S.d.escapechar && !Newline(s[j + 1])
  }

  predicate SkipsSomewhere(S: Setup, p: Parse, s: string) {
    exists j :: 0 <= j <= |s| && SkipsAt(S, p, s, j)
  }

  lemma {:induction false} RunSplit(S: Setup, p: Parse, s: string, n: nat)
    requires n <= |s|
    ensures S.Run(p, s) == var r := S.Run(p, s[..n]); if r.Err? then r else S.Run(r.value, s[n..])
    decreases n
  {
    if n == 0 {
      assert s[n..] == s;
    } else {
      var r := S.Step(p, s[0]);
      if r.Ok? {
        RunSplit(S, r.value, s[1..], n - 1);
        assert s[1..][..n - 1] == s[..n][1..] && s[1..][n - 1..] == s[n..];
      }
    }
  }

  /** Behind the first `n` characters, the same seen from the parse that they lead to. */
  lemma SkipsLater(S: Setup, p: Parse, s: string, n: nat, j: nat)
    requires n < j <= |s|
    ensures var r := S.Run(p, s[..n]);
      SkipsAt(S, p, s, j) <==> r.Ok? && SkipsAt(S, r.value, s[n..], j - n)
  {
    RunSplit(S, p, s[..j], n);
    RunSplit(S, p, s[..j - 1], n);
    assert s[..j][..n] == s[..n] == s[..j - 1][..n];
    assert s[..j][n..] == s[n..][..j - n] && s[..j - 1][n..] == s[n..][..j - 1 - n];
    assert j + 1 < |s| ==> s[n..][j - n] == s[j] && s[n..][j - n + 1] == s[j + 1];
  }

  lemma SkipsSecond(S: Setup, p: Parse, s: string)
    requires s != "" && p.state != InField
    ensures var r := S.Step(p, s[0]);
      && S.Run(p, s[..1]) == r
      && (SkipsAt(S, p, s, 1) <==> r.Ok? && SkipsAt(S, r.value, s[1..], 0))
  {
    assert s[..0] == "" && s[1..][..0] == "" && s[..1][0] == s[0] && s[..1][1..] == "";
    assert 2 < |s| ==> s[1..][0] == s[1] && s[1..][1] == s[2];
  }

  /** One step outside an unquoted field. */
  lemma SkipsStep(S: Setup, p: Parse, s: string)
    requires s != "" && p.state != InField
    ensures var r := S.Step(p, s[0]);
      SkipsSomewhere(S, p, s) <==> r.Ok? && SkipsSomewhere(S, r.value, s[1..])
  {
    var r := S.Step(p, s[0]);
    assert s[..0] == "";
    SkipsSecond(S, p, s);
    if j :| 1 < j <= |s| && SkipsAt(S, p, s, j) {
      SkipsLater(S, p, s, 1, j);
    }
    if r.Ok? {
      if i :| 0 < i <= |s[1..]| && SkipsAt(S, r.value, s[1..], i) {
        SkipsLater(S, p, s, 1, i + 1);
      }
    }
  }

  /** Several steps that come upon no skip and do not end in an unquoted field. */
  lemma SkipsJump(S: Setup, p: Parse, s: string, n: nat)
    requires n <= |s| && forall j :: 0 <= j <= n ==> !SkipsAt(S, p, s, j)
    requires S.Run(p, s[..n]).Ok? ==> S.Run(p, s[..n]).value.state != InField
    ensures var r := S.Run(p, s[..n]);
      SkipsSomewhere(S, p, s) <==> r.Ok? && SkipsSomewhere(S, r.value, s[n..])
  {
    var r := S.Run(p, s[..n]);
    if j :| n < j <= |s| && SkipsAt(S, p, s, j) {
      SkipsLater(S, p, s, n, j);
    }
    if r.Ok? {
      assert s[n..][..0] == "";
      if i :| 0 < i <= |s[n..]| && SkipsAt(S, r.value, s[n..], i) {
        SkipsLater(S, p, s, n, i + n);
      }
    }
  }

  lemma NoSkipInside(S: Setup, p: Parse, s: string, k: nat, j: nat)
    requires p.state == InField && k <= |s| && forall i :: 0 <= i < k ==> S.Ordinary(s[i])
    requires 1 <= j <= k
    ensures !SkipsAt(S, p, s, j)
  {
    assert s[..j] + "" == s[..j];
    RunOrdinary(S, p, s[..j], "");
    if j > 1 {
      assert s[..j - 1] + "" == s[..j - 1];
      RunOrdinary(S, p, s[..j - 1], "");
    }
  }

  /** An open field, up to and with what stops its scan. */
  lemma RunToStop(S: Setup, p: Parse, s: string, k: nat)
    requires p.state == InField && k < |s| && !S.Ordinary(s[k]) && forall i :: 0 <= i < k ==> S.Ordinary(s[i])
    ensures S.Run(p, s[..k + 1]) == var q := if k > 0 then S.Add(p, s[..k]) else Ok(p);
      if q.Err? then q else S.StepInField(q.value, s[k])
    ensures S.Run(p, s[..k + 1]).Ok? ==> S.Run(p, s[..k + 1]).value.state != InField
  {
    assert s[..k + 1] == s[..k] + [s[k]] && [s[k]][1..] == "";
    if k > 0 {
      RunOrdinary(S, p, s[..k], [s[k]]);
    }
  }

  lemma SkipsScan(S: Setup, p: Parse, line: string, pos: nat)
    requires pos < |line| && p.state == InField && !SkipsOne(S, p, line, pos)
    ensures var s, k := line[pos..], S.Span(line, pos);
      Skips(S, p, line, pos) <==>
      k < |s| && S.Run(p, s[..k + 1]).Ok? && Skips(S, S.Run(p, s[..k + 1]).value, line, pos + k + 1)
  {
    var k := S.Span(line, pos);
    var stop := pos + k;
    if stop < |line| {
      assert line[pos..][..k] == line[pos..stop];
      RunToStop(S, p, line[pos..], k);
      if k > 1 && Some(line[stop]) == S.d.escapechar && !Newline(line[stop]) {
        SkipsBackOne(S, p, line, pos);
      }
    }
  }

  lemma SkipsBackOne(S: Setup, p: Parse, line: string, pos: nat)
    requires pos < |line| && p.state == InField
    requires var k := S.Span(line, pos);
      1 < k && pos + k < |line| && Some(line[pos + k]) == S.d.escapechar && !Newline(line[pos + k])
    ensures var stop := pos + S.Span(line, pos);
      var q := S.Add(p, line[pos..stop]);
      Skips(S, p, line, pos) <==> q.Ok? && Skips(S, q.value.(state := EscapedChar), line, stop + 1)
  {
    var stop := pos + S.Span(line, pos);
    assert line[pos..stop] == line[pos..stop - 1] + [line[stop - 1]];
    assert p.field + line[pos..stop] == p.field + line[pos..stop - 1] + [line[stop - 1]];
    var x := S.Add(p.(state := EscapedChar), line[pos..stop - 1]);
    if x.Ok? {
      assert Skips(S, p, line, pos) <==> Skips(S, x.value, line, stop - 1);
      var q := S.Step(x.value, line[stop - 1]);
      assert q == S.Add(p, line[pos..stop]);
      if q.Ok? {
        assert S.Span(line, stop) == 0;
        assert Skips(S, x.value, line, stop - 1) <==> Skips(S, q.value, line, stop);
      }
    }
  }

  /** Reading in batches comes upon a skip exactly if the text has one. */
  lemma {:induction false} SkipsInText(S: Setup, p: Parse, line: string, pos: nat)
    requires pos <= |line|
    ensures Skips(S, p, line, pos) <==> SkipsSomewhere(S, p, line[pos..])
    decreases |line| - pos
  {
    if pos < |line| {
      var s := line[pos..];
      if p.state != InField {
        assert s[1..] == line[pos + 1..];
        SkipsStep(S, p, s);
        var r := S.Step(p, s[0]);
        if r.Ok? {
          SkipsInText(S, r.value, line, pos + 1);
        }
      } else {
        SkipsInField(S, p, line, pos);
      }
    }
  }

  lemma {:induction false} SkipsInField(S: Setup, p: Parse, line: string, pos: nat)
    requires pos < |line| && p.state == InField
    ensures Skips(S, p, line, pos) <==> SkipsSomewhere(S, p, line[pos..])
    decreases |line| - pos, 0
  {
    var s, k := line[pos..], S.Span(line, pos);
    SkipsAtStart(S, p, line, pos);
    if !SkipsOne(S, p, line, pos) {
      SkipsScan(S, p, line, pos);
      SkipsAfterStop(S, p, s, k);
      if k < |s| {
        assert s[k + 1..] == line[pos + k + 1..];
        var r := S.Run(p, s[..k + 1]);
        if r.Ok? {
          SkipsInText(S, r.value, line, pos + k + 1);
        }
      }
    }
  }

  /** An open field without a skip at its start, up to what stops its scan. */
  lemma SkipsAfterStop(S: Setup, p: Parse, s: string, k: nat)
    requires p.state == InField && k <= |s| && forall i :: 0 <= i < k ==> S.Ordinary(s[i])
    requires k < |s| ==> !S.Ordinary(s[k])
    requires !SkipsAt(S, p, s, 0)
    ensures SkipsSomewhere(S, p, s) <==>
      k < |s| && S.Run(p, s[..k + 1]).Ok? && SkipsSomewhere(S, S.Run(p, s[..k + 1]).value, s[k + 1..])
  {
    NoSkipBeforeStop(S, p, s, k);
    if k < |s| {
      SkipsJump(S, p, s, k + 1);
    }
  }

  lemma SkipsAtStart(S: Setup, p: Parse, line: string, pos: nat)
    requires pos < |line| && p.state == InField
    ensures SkipsOne(S, p, line, pos) <==> SkipsAt(S, p, line[pos..], 0)
  {
    var s := line[pos..];
    assert s[..0] == "";
    if pos + 1 < |line| {
      assert s[0] == line[pos] && s[1] == line[pos + 1];
      if Some(line[pos + 1]) == S.d.escapechar {
        assert S.Span(line, pos + 1) == 0;
      }
    }
  }

  /** In an open field there is no skip but one at the start, before its scan stops. */
  lemma NoSkipBeforeStop(S: Setup, p: Parse, s: string, k: nat)
    requires p.state == InField && k <= |s| && forall i :: 0 <= i < k ==> S.Ordinary(s[i])
    requires k < |s| ==> !S.Ordinary(s[k])
    requires !SkipsAt(S, p, s, 0)
    ensures forall j :: 0 <= j <= k ==> !SkipsAt(S, p, s, j)
    ensures k < |s| ==> !SkipsAt(S, p, s, k + 1)
    ensures k < |s| ==> S.Run(p, s[..k + 1]).Ok? ==> S.Run(p, s[..k + 1]).value.state != InField
  {
    forall j | 0 < j <= k ensures !SkipsAt(S, p, s, j) { NoSkipInside(S, p, s, k, j); }
    if k < |s| {
      RunToStop(S, p, s, k);
    }
  }

  /**
   Reading a line in batches gives what the automaton gives exactly when nowhere an unquoted
   field is opened and then has one ordinary character followed by an escape character.
   */
  lemma BatchExact(S: Setup, p: Parse, line: string)
    requires S.Run(p, line).Ok?
    ensures S.RunLine(p, line, 0) == S.Run(p, line) <==> !SkipsSomewhere(S, p, line)
  {
    assert line[0..] == line;
    SkipsInText(S, p, line, 0);
    if Skips(S, p, line, 0) {
      SkippingShows(S, p, line, 0);
    } else {
      BatchIsCharwise(S, p, line, 0);
    }
  }

  /** The escape in `ab\,` is taken for the text and the character before it is lost. */
  lemma SkipExample(limit: int)
    requires 4 <= limit
    ensures var S := Setup(Dialect(',', Some('"'), Some('\\'), true, false, "\r\n", QuoteMinimal, false), limit);
      && S.Run(INITIAL, ['a', 'b', '\\', ',']) == Ok(Parse(InField, "ab,", []))
      && S.RunLine(INITIAL, ['a', 'b', '\\', ','], 0) == Ok(Parse(StartField, "", ["a\\"]))
  {
    var S := Setup(Dialect(',', Some('"'), Some('\\'), true, false, "\r\n", QuoteMinimal, false), limit);
    var line := ['a', 'b', '\\', ','];
    SkipExampleRun(S, line);
    var a, b := Parse(InField, "a", []), Parse(InField, "a\\", []);
    assert "" + ['a'] == "a" && "a" + ['\\'] == "a\\" && [] + ["a\\"] == ["a\\"];
    assert S.Process(INITIAL, line, 0) == Ok((a, 1));
    assert S.Span(line, 2) == 0 && S.Span(line, 1) == 1 && S.Span(line, 3) == 0;
    assert S.Process(a, line, 1) == Ok((a.(state := EscapedChar), 2));
    assert S.Process(a.(state := EscapedChar), line, 2) == Ok((b, 3));
    assert S.Process(b, line, 3) == Ok((Parse(StartField, "", ["a\\"]), 4));
    assert S.RunLine(b, line, 3) == Ok(Parse(StartField, "", ["a\\"]));
    assert S.RunLine(a, line, 1) == S.RunLine(b, line, 3);
  }

  lemma SkipExampleRun(S: Setup, line: string)
    requires S.d == Dialect(',', Some('"'), Some('\\'), true, false, "\r\n", QuoteMinimal, false) && 4 <= S.limit
    requires line == ['a', 'b', '\\', ',']
    ensures S.Run(INITIAL, line) == Ok(Parse(InField, "ab,", []))
  {
    assert "" + ['a'] == "a" && "a" + ['b'] == "ab" && "ab" + [','] == "ab,";
    assert line[1..] == ['b', '\\', ','] && line[1..][1..] == ['\\', ','] && line[1..][1..][1..] == [','];
    assert S.Run(Parse(InField, "ab", []), line[1..][1..]) == Ok(Parse(InField, "ab,", [])) by {
      assert [','][1..] == "";
    }
  }
}
