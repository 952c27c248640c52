/** The message encoding of dotviewer/msgstruct.py, for byte strings and integers. */
module Msgstruct {
  import opened Wrappers

  type Byte = b: int | 0 <= b < 256

  const NUL: Byte := 0
  const CODE_S: Byte := 115
  const CODE_B: Byte := 66
  const CODE_L: Byte := 108
  const CODE_Q: Byte := 113

  const LONG_MIN: int := -2147483648
  const LONG_MAX: int := 2147483647

  const MSG_ERROR: Byte := 69

  datatype Value = Str(s: seq<Byte>) | Int(n: int)

  /** One item of a format of the module `struct`. */
  datatype Code = S(n: nat) | B | L | Q

  // The format strings.

  function Decimal(n: nat): (r: seq<Byte>)
    ensures |r| > 0 && forall i :: 0 <= i < |r| ==> IsDigit(r[i])
  {
    if n < 10 then [48 + n] else Decimal(n / 10) + [48 + n % 10]
  }

  predicate IsDigit(b: Byte) {
    48 <= b <= 57
  }

  /** The code that `message` chooses for a value. */
  function CodeOf(v: Value): Code {
    match v
    case Str(s) => S(|s|)
    case Int(n) => if 0 <= n < 256 then B else if LONG_MIN <= n <= LONG_MAX then L else Q
  }

  function CodeText(c: Code): (r: seq<Byte>)
    ensures |r| > 0
  {
    match c
    case S(n) => Decimal(n) + [CODE_S]
    case B => [CODE_B]
    case L => [CODE_L]
    case Q => [CODE_Q]
  }

  function CodesOf(vs: seq<Value>): (r: seq<Code>)
    ensures |r| == |vs|
  {
    if vs == [] then [] else [CodeOf(vs[0])] + CodesOf(vs[1..])
  }

  /** The string `typecodes`. */
  function TypeCodes(vs: seq<Value>): seq<Byte> {
    if vs == [] then [] else CodeText(CodeOf(vs[0])) + TypeCodes(vs[1..])
  }

  /** The number that starts a format, continuing the number read so far. */
  function ReadNumber(fmt: seq<Byte>, n: nat): (r: (nat, seq<Byte>))
    ensures |r.1| <= |fmt|
  {
    if fmt != [] && IsDigit(fmt[0]) then ReadNumber(fmt[1..], 10 * n + (fmt[0] - 48)) else (n, fmt)
  }

  /** The items of a format; None for what the module `struct` or this model does not know. */
  function Parse(fmt: seq<Byte>): Option<seq<Code>>
    decreases |fmt|
  {
    if fmt == [] then Some([])
    else if IsDigit(fmt[0]) then
      var (n, rest) := ReadNumber(fmt, 0);
      if rest == [] || rest[0] != CODE_S then None else Prepend(S(n), Parse(rest[1..]))
    else if fmt[0] == CODE_S then Prepend(S(1), Parse(fmt[1..]))
    else if fmt[0] == CODE_B then Prepend(B, Parse(fmt[1..]))
    else if fmt[0] == CODE_L then Prepend(L, Parse(fmt[1..]))
    else if fmt[0] == CODE_Q then Prepend(Q, Parse(fmt[1..]))
    else None
  }

  function Prepend(c: Code, cs: Option<seq<Code>>): Option<seq<Code>> {
    match cs
    case None => None
    case Some(rest) => Some([c] + rest)
  }

  // Packing and unpacking, big-endian.

  function CodeSize(c: Code): nat {
    match c
    case S(n) => n
    case B => 1
    case L => 4
    case Q => 8
  }

  /** `calcsize`. */
  function Size(cs: seq<Code>): nat {
    if cs == [] then 0 else CodeSize(cs[0]) + Size(cs[1..])
  }

  function BigEndian(n: nat, k: nat): (r: seq<Byte>)
    ensures |r| == k
  {
    if k == 0 then [] else BigEndian(n / 256, k - 1) + [n % 256]
  }

  function Number(s: seq<Byte>): nat {
    if s == [] then 0 else Number(s[..|s| - 1]) * 256 + s[|s| - 1]
  }

  const TWO32: int := 0x1_0000_0000
  const TWO64: int := 0x1_0000_0000_0000_0000

  predicate Fits(c: Code, v: Value) {
    match c
    case S(n) => v.Str? && |v.s| == n
    case B => v.Int? && 0 <= v.n < 256
    case L => v.Int? && LONG_MIN <= v.n <= LONG_MAX
    case Q => v.Int? && -TWO64 / 2 <= v.n < TWO64 / 2
  }

  /** The bytes of a value; negative integers are in two's complement. */
  function Field(c: Code, v: Value): (r: seq<Byte>)
    requires Fits(c, v)
    ensures |r| == CodeSize(c)
  {
    match c
    case S(n) => v.s
    case B => [v.n]
    case L => BigEndian(if v.n < 0 then v.n + TWO32 else v.n, 4)
    case Q => BigEndian(if v.n < 0 then v.n + TWO64 else v.n, 8)
  }

  function FromField(c: Code, s: seq<Byte>): (v: Value)
    requires |s| == CodeSize(c)
  {
    match c
    case S(n) => Str(s)
    case B => Int(s[0])
    case L => Int(if Number(s) >= TWO32 / 2 then Number(s) - TWO32 else Number(s))
    case Q => Int(if Number(s) >= TWO64 / 2 then Number(s) - TWO64 else Number(s))
  }

  predicate Packable(vs: seq<Value>) {
    forall i :: 0 <= i < |vs| ==> Fits(CodeOf(vs[i]), vs[i])
  }

  function Pack(vs: seq<Value>): seq<Byte>
    requires Packable(vs)
  {
    if vs == [] then [] else Field(CodeOf(vs[0]), vs[0]) + Pack(vs[1..])
  }

  function Unpack(cs: seq<Code>, data: seq<Byte>): (vs: seq<Value>)
    requires |data| == Size(cs)
    ensures |vs| == |cs|
  {
    if cs == [] then []
    else
      var k := CodeSize(cs[0]);
      [FromField(cs[0], data[..k])] + Unpack(cs[1..], data[k..])
  }

  // Messages.

  /** `struct.error` for an integer of more than 64 bits. */
  datatype Encoded = Encoded(data: seq<Byte>) | StructError

  /** The message that holds its type codes itself. */
  function Plain(tp: Byte, vs: seq<Value>): seq<Byte>
    requires Packable(vs) && |TypeCodes(vs)| < 256
  {
    [|TypeCodes(vs)|] + TypeCodes(vs) + [tp] + Pack(vs)
  }

  const MAX_LENGTH: int := 0x8000_0000_0000_0000

  /** The strings that `message` wraps, if it does, are not longer than a string can be. */
  predicate Sized(vs: seq<Value>) {
    Packable(vs) && |TypeCodes(vs)| >= 256 ==> |TypeCodes(vs)| < MAX_LENGTH && 1 + |Pack(vs)| < MAX_LENGTH
  }

  /** What the outer message of a long one holds. */
  function Wrapped(tp: Byte, vs: seq<Value>): seq<Value>
    requires Packable(vs)
  {
    [Str(TypeCodes(vs)), Str([tp] + Pack(vs))]
  }

  /** `message`. */
  function Message(tp: Byte, vs: seq<Value>): Encoded
    requires Sized(vs)
  {
    if !Packable(vs) then StructError
    else if |TypeCodes(vs)| < 256 then Encoded(Plain(tp, vs))
    else
      WrappedShort(tp, vs);
      Encoded(Plain(NUL, Wrapped(tp, vs)))
  }

  lemma {:induction false} TypeCodesSnoc(vs: seq<Value>, v: Value)
    ensures TypeCodes(vs + [v]) == TypeCodes(vs) + CodeText(CodeOf(v))
  {
    if vs == [] {
      assert [v][1..] == [];
    } else {
      TypeCodesSnoc(vs[1..], v);
      assert (vs + [v])[1..] == vs[1..] + [v];
      Regroup(CodeText(CodeOf(vs[0])), TypeCodes(vs[1..]), CodeText(CodeOf(v)));
    }
  }

  lemma Regroup(a: seq<Byte>, b: seq<Byte>, c: seq<Byte>)
    ensures a + (b + c) == a + b + c
  {
  }

  /** The loop of `message` over the values. */
  method BuildTypeCodes(vs: seq<Value>) returns (typecodes: seq<Byte>)
    ensures typecodes == TypeCodes(vs)
  {
    typecodes := [];
    for i := 0 to |vs|
      invariant typecodes == TypeCodes(vs[..i])
    {
      TypeCodesSnoc(vs[..i], vs[i]);
      assert vs[..i + 1] == vs[..i] + [vs[i]];
      match vs[i] {
        case Str(s) => typecodes := typecodes + Decimal(|s|) + [CODE_S];
        case Int(n) =>
          if 0 <= n < 256 {
            typecodes := typecodes + [CODE_B];
          } else if LONG_MIN <= n <= LONG_MAX {
            typecodes := typecodes + [CODE_L];
          } else {
            typecodes := typecodes + [CODE_Q];
          }
      }
    }
    assert vs[..|vs|] == vs;
  }

  /** `message`, which calls itself at most once. */
  method BuildMessage(tp: Byte, vs: seq<Value>) returns (e: Encoded)
    requires Sized(vs)
    ensures e == Message(tp, vs)
    decreases if Packable(vs) && |TypeCodes(vs)| >= 256 then 1 else 0
  {
    var typecodes := BuildTypeCodes(vs);
    if !Packable(vs) {
      return StructError;
    }
    if |typecodes| < 256 {
      return Encoded([|typecodes|] + typecodes + [tp] + Pack(vs));
    }
    WrappedShort(tp, vs);
    e := BuildMessage(NUL, [Str(typecodes), Str([tp] + Pack(vs))]);
  }

  datatype Decoded =
    | More
    | Msg(tp: Byte, values: seq<Value>, rest: seq<Byte>)
    | Malformed

  /** `decodemessage`; where it returns None, `data` stays the buffer. */
  function Decode(data: seq<Byte>): Decoded {
    if data == [] then More
    else
      var limit := data[0] as int + 1;
      if |data| < limit then More
      else
        match Parse(data[1..limit])
        case None => Malformed
        case Some(cs) =>
          var end := limit + 1 + Size(cs);
          if |data| < end then More
          else Opened(data[limit], Unpack(cs, data[limit + 1..end]), data[end..])
  }

  /** The message itself or, if its type is NUL, the one in it. */
  function Opened(tp: Byte, vs: seq<Value>, rest: seq<Byte>): Decoded {
    if tp != NUL then Msg(tp, vs, rest)
    else if |vs| < 2 || !vs[0].Str? || !vs[1].Str? then Malformed
    else
      match Parse(vs[0].s)
      case None => Malformed
      case Some(cs) =>
        if |vs[1].s| != 1 + Size(cs) then Malformed
        else Msg(vs[1].s[0], Unpack(cs, vs[1].s[1..]), rest)
  }

  // The outer message of a long one is short.

  lemma WrappedShort(tp: Byte, vs: seq<Value>)
    requires Sized(vs) && Packable(vs) && |TypeCodes(vs)| >= 256
    ensures Packable(Wrapped(tp, vs)) && |TypeCodes(Wrapped(tp, vs))| < 256
  {
    var ws := Wrapped(tp, vs);
    DecimalShort(|TypeCodes(vs)|);
    DecimalShort(|Pack(vs)| + 1);
    assert ws[1..] == [ws[1]] && ws[1..][1..] == [];
    assert TypeCodes(ws[1..]) == CodeText(CodeOf(ws[1])) + TypeCodes([]);
  }

  ghost function Pow10(k: nat): nat {
    if k == 0 then 1 else 10 * Pow10(k - 1)
  }

  lemma {:induction false} DecimalLength(n: nat, k: nat)
    requires n < Pow10(k) && k >= 1
    ensures |Decimal(n)| <= k
  {
    if n >= 10 {
      DecimalLength(n / 10, k - 1);
    }
  }

  lemma DecimalShort(n: nat)
    requires n < MAX_LENGTH
    ensures |Decimal(n)| <= 20
  {
    Pow10Times(5, 5);
    Pow10Times(10, 10);
    assert Pow10(5) == 10 * Pow10(4) && Pow10(4) == 10 * Pow10(3) && Pow10(3) == 10 * Pow10(2);
    assert Pow10(2) == 10 * Pow10(1);
    DecimalLength(n, 20);
  }

  lemma {:induction false} Pow10Times(a: nat, b: nat)
    ensures Pow10(a + b) == Pow10(a) * Pow10(b)
  {
    if a > 0 {
      Pow10Times(a - 1, b);
      assert Pow10(a + b) == 10 * Pow10(a - 1 + b);
      Assoc(10, Pow10(a - 1), Pow10(b));
    }
  }

  lemma Assoc(x: nat, y: nat, z: nat)
    ensures x * (y * z) == (x * y) * z
  {
  }
}
