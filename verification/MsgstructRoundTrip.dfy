/** What `decodemessage` makes of what `message` made. */
module MsgstructRoundTrip {
  import opened Arithmetic
  import opened Wrappers
  import opened Msgstruct

  lemma {:induction false} ReadDigits(n: nat, rest: seq<Byte>)
    ensures ReadNumber(Decimal(n) + rest, 0) == ReadNumber(rest, n)
  {
    var d: Byte := 48 + n % 10;
    if n >= 10 {
      ReadDigits(n / 10, [d] + rest);
      assert Decimal(n) + rest == Decimal(n / 10) + ([d] + rest);
      assert ([d] + rest)[1..] == rest;
    } else {
      assert Decimal(n) == [d] && ([d] + rest)[1..] == rest;
    }
  }

  lemma ParseCode(c: Code, rest: seq<Byte>)
    ensures Parse(CodeText(c) + rest) == Prepend(c, Parse(rest))
  {
    match c
    case S(n) =>
      var fmt := CodeText(c) + rest;
      assert fmt == Decimal(n) + ([CODE_S] + rest);
      ReadDigits(n, [CODE_S] + rest);
      assert ([CODE_S] + rest)[1..] == rest;
      assert fmt[0] == Decimal(n)[0];
    case _ =>
      assert (CodeText(c) + rest)[1..] == rest;
  }

  lemma {:induction false} ParseTypeCodes(vs: seq<Value>)
    ensures Parse(TypeCodes(vs)) == Some(CodesOf(vs))
  {
    if vs != [] {
      ParseTypeCodes(vs[1..]);
      ParseCode(CodeOf(vs[0]), TypeCodes(vs[1..]));
    }
  }

  ghost function Pow256(k: nat): nat {
    if k == 0 then 1 else 256 * Pow256(k - 1)
  }

  lemma {:induction false} BigEndianRead(n: nat, k: nat)
    requires n < Pow256(k)
    ensures Number(BigEndian(n, k)) == n
  {
    if k > 0 {
      BigEndianRead(n / 256, k - 1);
      assert BigEndian(n, k)[..k - 1] == BigEndian(n / 256, k - 1);
    }
  }

  lemma Pow256Values()
    ensures Pow256(4) == TWO32 && Pow256(8) == TWO64
  {
    assert Pow256(2) == 256 * Pow256(1) && Pow256(3) == 256 * Pow256(2);
    assert Pow256(4) == 256 * Pow256(3) && Pow256(5) == 256 * Pow256(4);
    assert Pow256(6) == 256 * Pow256(5) && Pow256(7) == 256 * Pow256(6);
  }

  lemma FieldRead(c: Code, v: Value)
    requires Fits(c, v)
    ensures FromField(c, Field(c, v)) == v
  {
    Pow256Values();
    match c
    case L => BigEndianRead(if v.n < 0 then v.n + TWO32 else v.n, 4);
    case Q => BigEndianRead(if v.n < 0 then v.n + TWO64 else v.n, 8);
    case _ =>
  }

  lemma {:induction false} UnpackPack(vs: seq<Value>)
    requires Packable(vs)
    ensures |Pack(vs)| == Size(CodesOf(vs))
    ensures Unpack(CodesOf(vs), Pack(vs)) == vs
  {
    if vs != [] {
      UnpackPack(vs[1..]);
      var c, field := CodeOf(vs[0]), Field(CodeOf(vs[0]), vs[0]);
      FieldRead(c, vs[0]);
      assert CodesOf(vs)[1..] == CodesOf(vs[1..]);
      assert Pack(vs)[..|field|] == field && Pack(vs)[|field|..] == Pack(vs[1..]);
    }
  }

  /** The parts of a buffer that starts with a plain message. */
  lemma PlainParts(tp: Byte, vs: seq<Value>, rest: seq<Byte>)
    requires Packable(vs) && |TypeCodes(vs)| < 256
    ensures var (data, k, n) := (Plain(tp, vs) + rest, |TypeCodes(vs)|, |Pack(vs)|);
      && |data| == k + 2 + n + |rest| && data[0] == k && data[1..k + 1] == TypeCodes(vs)
      && data[k + 1] == tp && data[k + 2..k + 2 + n] == Pack(vs) && data[k + 2 + n..] == rest
  {
  }

  lemma DecodePlain(tp: Byte, vs: seq<Value>, rest: seq<Byte>)
    requires Packable(vs) && |TypeCodes(vs)| < 256
    ensures Decode(Plain(tp, vs) + rest) == Opened(tp, vs, rest)
  {
    PlainParts(tp, vs, rest);
    ParseTypeCodes(vs);
    UnpackPack(vs);
    DecodeBuffer(Plain(tp, vs) + rest, |TypeCodes(vs)|, CodesOf(vs));
  }

  /** The branch of `decodemessage` for a buffer that holds a whole message. */
  lemma DecodeBuffer(data: seq<Byte>, k: nat, cs: seq<Code>)
    requires |data| >= k + 2 + Size(cs) && data[0] == k && Parse(data[1..k + 1]) == Some(cs)
    ensures Decode(data)
         == Opened(data[k + 1], Unpack(cs, data[k + 2..k + 2 + Size(cs)]), data[k + 2 + Size(cs)..])
  {
  }

  lemma OpenedWrapped(tp: Byte, vs: seq<Value>, rest: seq<Byte>)
    requires Packable(vs)
    ensures Opened(NUL, Wrapped(tp, vs), rest) == Msg(tp, vs, rest)
  {
    ParseTypeCodes(vs);
    UnpackPack(vs);
    assert ([tp] + Pack(vs))[1..] == Pack(vs);
  }

  lemma {:induction false} UnpackedFits(cs: seq<Code>, data: seq<Byte>, i: nat)
    requires |data| == Size(cs) && i < |cs| && Unpack(cs, data)[i].Str?
    ensures |Unpack(cs, data)[i].s| <= |data|
  {
    if i > 0 {
      UnpackedFits(cs[1..], data[CodeSize(cs[0])..], i - 1);
    }
  }

  /** A plain message with type NUL is taken for the wrapping of another one. */
  lemma NulIsOpened(vs: seq<Value>, rest: seq<Byte>)
    ensures Opened(NUL, vs, rest) != Msg(NUL, vs, rest)
  {
    if |vs| >= 2 && vs[0].Str? && vs[1].Str? && Parse(vs[0].s).Some? {
      var cs := Parse(vs[0].s).value;
      if |vs[1].s| == 1 + Size(cs) && |cs| >= 2 {
        var us := Unpack(cs, vs[1].s[1..]);
        if us[1].Str? {
          UnpackedFits(cs, vs[1].s[1..], 1);
        }
      }
    }
  }

  /**
    * Decoding a message gives it back, together with all that follows it, exactly if its type is not
    * NUL or it is so long that it is wrapped.
    */
  lemma RoundTrip(tp: Byte, vs: seq<Value>, rest: seq<Byte>)
    requires Sized(vs) && Packable(vs)
    ensures Message(tp, vs).Encoded?
    ensures Decode(Message(tp, vs).data + rest) == Msg(tp, vs, rest) <==> tp != NUL || |TypeCodes(vs)| >= 256
  {
    if |TypeCodes(vs)| < 256 {
      DecodePlain(tp, vs, rest);
      NulIsOpened(vs, rest);
    } else {
      WrappedShort(tp, vs);
      DecodePlain(NUL, Wrapped(tp, vs), rest);
      OpenedWrapped(tp, vs, rest);
    }
  }

  lemma PlainPrefix(tp: Byte, vs: seq<Value>, p: seq<Byte>)
    requires Packable(vs) && |TypeCodes(vs)| < 256
    requires p <= Plain(tp, vs) && p != Plain(tp, vs)
    ensures Decode(p) == More
  {
    PlainHead(tp, vs);
    DecodePrefix(p, Plain(tp, vs), |TypeCodes(vs)|, CodesOf(vs));
  }

  lemma PlainHead(tp: Byte, vs: seq<Value>)
    requires Packable(vs) && |TypeCodes(vs)| < 256
    ensures var (data, k) := (Plain(tp, vs), |TypeCodes(vs)|);
      |data| == k + 2 + Size(CodesOf(vs)) && data[0] == k && Parse(data[1..k + 1]) == Some(CodesOf(vs))
  {
    PlainParts(tp, vs, []);
    ParseTypeCodes(vs);
    UnpackPack(vs);
    assert Plain(tp, vs) + [] == Plain(tp, vs);
  }

  lemma DecodePrefix(p: seq<Byte>, data: seq<Byte>, k: nat, cs: seq<Code>)
    requires |data| == k + 2 + Size(cs) && data[0] == k && Parse(data[1..k + 1]) == Some(cs)
    requires p <= data && |p| < |data|
    ensures Decode(p) == More
  {
    if |p| > k {
      assert p[1..k + 1] == data[1..k + 1];
      DecodeShortBuffer(p, k, cs);
    }
  }

  lemma DecodeShortBuffer(p: seq<Byte>, k: nat, cs: seq<Code>)
    requires k < |p| < k + 2 + Size(cs) && p[0] == k && Parse(p[1..k + 1]) == Some(cs)
    ensures Decode(p) == More
  {
  }

  /** A part of a message is not taken for a message. */
  lemma PrefixWaits(tp: Byte, vs: seq<Value>, p: seq<Byte>)
    requires Sized(vs) && Packable(vs) && p <= Message(tp, vs).data && p != Message(tp, vs).data
    ensures Decode(p) == More
  {
    if |TypeCodes(vs)| < 256 {
      PlainPrefix(tp, vs, p);
    } else {
      WrappedShort(tp, vs);
      PlainPrefix(NUL, Wrapped(tp, vs), p);
    }
  }

  /** What follows the bytes that decide, in any buffer, well-formed or not, does not change the decision. */
  lemma DecodeMonotone(data: seq<Byte>, more: seq<Byte>)
    ensures Decode(data).Malformed? ==> Decode(data + more).Malformed?
    ensures Decode(data).Msg? ==>
              Decode(data + more) == Msg(Decode(data).tp, Decode(data).values, Decode(data).rest + more)
  {
    if data != [] && |data| > data[0] as int {
      var limit := data[0] as int + 1;
      assert (data + more)[1..limit] == data[1..limit];
      if Parse(data[1..limit]).Some? {
        var end := limit + 1 + Size(Parse(data[1..limit]).value);
        if |data| >= end {
          assert (data + more)[limit + 1..end] == data[limit + 1..end];
          assert (data + more)[end..] == data[end..] + more;
        }
      }
    }
  }

  // What stands on the wire.

  /** Integers are sent in network order: the first byte is the most significant one. */
  lemma {:induction false} NetworkOrder(n: nat, k: nat, i: nat)
    requires i < k
    ensures Pow256(k - 1 - i) > 0 && BigEndian(n, k)[i] == n / Pow256(k - 1 - i) % 256
  {
    if i < k - 1 {
      NetworkOrder(n / 256, k - 1, i);
      DivTwice(n, Pow256(k - 2 - i));
    }
  }

  lemma DivTwice(n: nat, m: nat)
    requires m > 0
    ensures 256 * m > 0 && n / 256 / m == n / (256 * m)
  {
    var q := n / 256;
    var a, b := q / m, q % m;
    var c := n % 256;
    assert n == 256 * m * a + (256 * b + c);
    assert 0 <= 256 * b + c < 256 * m;
    ModUnique(n, 256 * m, a, 256 * b + c);
  }

  /** Of the codes that can hold an integer, the one that is sent takes the fewest bytes. */
  lemma SmallestCode(c: Code, n: int)
    requires Fits(c, Int(n))
    ensures Fits(CodeOf(Int(n)), Int(n)) && CodeSize(CodeOf(Int(n))) <= CodeSize(c)
  {
  }

  /** The type codes of a message are the letters of the module `struct`, and then come its type and its values. */
  lemma KnownMessage(s: seq<Byte>)
    requires |s| == 2
    ensures var (vs, codes: seq<Byte>) := ([Str(s), Int(5), Int(-2)], ['2' as int, 's' as int, 'B' as int, 'l' as int]);
      && Packable(vs) && TypeCodes(vs) == codes
      && Message(MSG_ERROR, vs) == Encoded([4] + codes + ['E' as int] + s + [5] + [255, 255, 255, 254])
  {
    var vs := [Str(s), Int(5), Int(-2)];
    assert vs[1..] == [Int(5), Int(-2)] && vs[1..][1..] == [Int(-2)] && vs[1..][1..][1..] == [];
    assert Decimal(2) == ['2' as int];
    var n: nat := 4294967294;
    assert BigEndian(n, 4) == [255, 255, 255, 254] by {
      assert BigEndian(n / 256 / 256 / 256, 1) == [255];
      assert BigEndian(n / 256 / 256, 2) == [255, 255];
      assert BigEndian(n / 256, 3) == [255, 255, 255];
    }
    assert Pack(vs[1..][1..]) == [255, 255, 255, 254];
    assert Pack(vs[1..]) == [5] + [255, 255, 255, 254];
    assert Pack(vs) == s + [5] + [255, 255, 255, 254];
    assert TypeCodes(vs[1..][1..]) == [CODE_L];
    assert TypeCodes(vs[1..]) == [CODE_B] + [CODE_L];
    assert TypeCodes(vs) == ['2' as int, 's' as int, 'B' as int, 'l' as int];
  }
}
