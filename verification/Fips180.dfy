/** The compression function of SHA-256: FIPS 180-4, sections 4.1.2, 4.2.2 and 6.2.2. */
module Fips180 {
  import opened Sha256Rounds

  function Rotr(x: bv32, n: bv32): bv32
    requires n <= 32
  {
    (x >> n) | (x << (32 - n))
  }

  function Ch(x: bv32, y: bv32, z: bv32): bv32 {
    (x & y) ^ (!x & z)
  }

  function Maj(x: bv32, y: bv32, z: bv32): bv32 {
    (x & y) ^ (x & z) ^ (y & z)
  }

  function Xor3(x: bv32, y: bv32, z: bv32): bv32 {
    x ^ y ^ z
  }

  function BigSigma0(x: bv32): bv32 {
    Xor3(Rotr(x, 2), Rotr(x, 13), Rotr(x, 22))
  }

  function BigSigma1(x: bv32): bv32 {
    Xor3(Rotr(x, 6), Rotr(x, 11), Rotr(x, 25))
  }

  function SmallSigma0(x: bv32): bv32 {
    Xor3(Rotr(x, 7), Rotr(x, 18), x >> 3)
  }

  function SmallSigma1(x: bv32): bv32 {
    Xor3(Rotr(x, 17), Rotr(x, 19), x >> 10)
  }

  /** The constants of section 4.2.2. */
  const K0: seq<bv32> := [
    0x428a2f98, 0x71374491, 0xb5c0fbcf, 0xe9b5dba5,
    0x3956c25b, 0x59f111f1, 0x923f82a4, 0xab1c5ed5
  ]
  const K1: seq<bv32> := [
    0xd807aa98, 0x12835b01, 0x243185be, 0x550c7dc3,
    0x72be5d74, 0x80deb1fe, 0x9bdc06a7, 0xc19bf174
  ]
  const K2: seq<bv32> := [
    0xe49b69c1, 0xefbe4786, 0x0fc19dc6, 0x240ca1cc,
    0x2de92c6f, 0x4a7484aa, 0x5cb0a9dc, 0x76f988da
  ]
  const K3: seq<bv32> := [
    0x983e5152, 0xa831c66d, 0xb00327c8, 0xbf597fc7,
    0xc6e00bf3, 0xd5a79147, 0x06ca6351, 0x14292967
  ]
  const K4: seq<bv32> := [
    0x27b70a85, 0x2e1b2138, 0x4d2c6dfc, 0x53380d13,
    0x650a7354, 0x766a0abb, 0x81c2c92e, 0x92722c85
  ]
  const K5: seq<bv32> := [
    0xa2bfe8a1, 0xa81a664b, 0xc24b8b70, 0xc76c51a3,
    0xd192e819, 0xd6990624, 0xf40e3585, 0x106aa070
  ]
  const K6: seq<bv32> := [
    0x19a4c116, 0x1e376c08, 0x2748774c, 0x34b0bcb5,
    0x391c0cb3, 0x4ed8aa4a, 0x5b9cca4f, 0x682e6ff3
  ]
  const K7: seq<bv32> := [
    0x748f82ee, 0x78a5636f, 0x84c87814, 0x8cc70208,
    0x90befffa, 0xa4506ceb, 0xbef9a3f7, 0xc67178f2
  ]

  const K: seq<bv32> := K0 + K1 + K2 + K3 + K4 + K5 + K6 + K7

  type Block = b: seq<bv8> | |b| == 64 witness seq(64, i => 0)

  type Hash = h: seq<bv32> | |h| == 8 witness seq(8, i => 0)

  /** The word with these four bytes, the first one the most significant (section 3.1). */
  function Word(b0: bv8, b1: bv8, b2: bv8, b3: bv8): bv32 {
    (b0 as bv32 << 24) | (b1 as bv32 << 16) | (b2 as bv32 << 8) | b3 as bv32
  }

  function NextWord(s1: bv32, w7: bv32, s0: bv32, w16: bv32): bv32 {
    s1 + w7 + s0 + w16
  }

  /** Word `t` of the message schedule. */
  function Schedule(b: Block, t: nat): bv32 {
    if t < 16 then Word(b[4 * t], b[4 * t + 1], b[4 * t + 2], b[4 * t + 3])
    else NextWord(SmallSigma1(Schedule(b, t - 2)), Schedule(b, t - 7),
                  SmallSigma0(Schedule(b, t - 15)), Schedule(b, t - 16))
  }

  /** The new `e` of a round, `d + T1`; `s1` and `ch` stand for its two functions of `e`, `f` and `g`. */
  function NewE(d: bv32, h: bv32, s1: bv32, ch: bv32, k: bv32, w: bv32): bv32 {
    d + (h + s1 + ch + k + w)
  }

  /** The new `a` of a round, `T1 + T2`; `s0` and `maj` stand for its two functions of `a`, `b` and `c`. */
  function NewA(h: bv32, s1: bv32, ch: bv32, k: bv32, w: bv32, s0: bv32, maj: bv32): bv32 {
    (h + s1 + ch + k + w) + (s0 + maj)
  }

  /** One turn of the loop of step 3 of section 6.2.2. */
  function Round(v: Registers<bv32>, k: bv32, w: bv32): Registers<bv32> {
    Registers(NewA(v.h, BigSigma1(v.e), Ch(v.e, v.f, v.g), k, w, BigSigma0(v.a), Maj(v.a, v.b, v.c)),
              v.a, v.b, v.c,
              NewE(v.d, v.h, BigSigma1(v.e), Ch(v.e, v.f, v.g), k, w), v.e, v.f, v.g)
  }

  function Rounds(v: Registers<bv32>, b: Block, t: nat): Registers<bv32>
    requires t <= 64
  {
    if t == 0 then v else Round(Rounds(v, b, t - 1), K[t - 1], Schedule(b, t - 1))
  }

  function Plus(x: bv32, y: bv32): bv32 {
    x + y
  }

  /** Step 1 of section 6.2.2: the working variables start as the hash value. */
  function Initial(h: Hash): Registers<bv32> {
    Registers(h[0], h[1], h[2], h[3], h[4], h[5], h[6], h[7])
  }

  /** Step 4 of section 6.2.2. */
  function AddTo(h: Hash, v: Registers<bv32>): Hash {
    [Plus(h[0], v.a), Plus(h[1], v.b), Plus(h[2], v.c), Plus(h[3], v.d),
     Plus(h[4], v.e), Plus(h[5], v.f), Plus(h[6], v.g), Plus(h[7], v.h)]
  }

  /** The hash value after one more block. */
  function Compress(h: Hash, b: Block): Hash {
    AddTo(h, Rounds(Initial(h), b, 64))
  }

  /** The hash value after all blocks of a padded message. */
  function HashBlocks(h: Hash, m: seq<bv8>): Hash
    requires |m| % 64 == 0
  {
    if m == [] then h
    else
      var n := |m| - 64;
      Compress(HashBlocks(h, m[..n]), m[n..])
  }

  // Padding, section 5.1.1. Messages here are whole bytes, so the padding is too.

  /** The number of zero bytes after the byte that holds the bit 1. */
  function ZeroBytes(n: nat): (z: nat)
    ensures (n + 1 + z + 8) % 64 == 0
  {
    (55 - n) % 64
  }

  /** It is the smallest number that lets the length field end a block. */
  lemma FewestZeros(n: nat, z: nat)
    requires (8 * (n + 1 + z)) % 512 == 448
    ensures ZeroBytes(n) <= z
    ensures (8 * (n + 1 + ZeroBytes(n))) % 512 == 448
  {
  }

  function Zeros(n: nat): (r: seq<bv8>)
    ensures |r| == n
  {
    seq(n, i => 0)
  }

  function ByteOf(n: nat, unit: nat): bv8
    requires unit > 0
  {
    (n / unit % 256) as bv8
  }

  /** The eight bytes of a number below 2^64; those of the remainder modulo 2^64 for a larger one. */
  function LengthField(n: nat): (r: seq<bv8>)
    ensures |r| == 8
  {
    [ByteOf(n, 0x100_0000_0000_0000), ByteOf(n, 0x1_0000_0000_0000), ByteOf(n, 0x100_0000_0000),
     ByteOf(n, 0x1_0000_0000), ByteOf(n, 0x100_0000), ByteOf(n, 0x1_0000), ByteOf(n, 0x100), ByteOf(n, 1)]
  }

  function Pad(m: seq<bv8>): (r: seq<bv8>)
    ensures |r| % 64 == 0
  {
    var r := m + [0x80] + Zeros(ZeroBytes(|m|)) + LengthField(8 * |m|);
    assert |r| == |m| + 1 + ZeroBytes(|m|) + 8;
    r
  }

  /** The message, a bit 1, zeros and the length: the shortest such text in whole blocks, by section 5.1.1. */
  lemma PaddedText(m: seq<bv8>)
    ensures var r := Pad(m);
      && |m| + 9 <= |r| < |m| + 9 + 64 && |r| % 64 == 0
      && m <= r && r[|m|] == 0x80
      && (forall i :: |m| < i < |r| - 8 ==> r[i] == 0)
      && r[|r| - 8..] == LengthField(8 * |m|)
  {
    var front := m + [0x80] + Zeros(ZeroBytes(|m|));
    assert Pad(m) == front + LengthField(8 * |m|);
    assert front[..|m|] == m && front[|m|] == 0x80;
    assert forall i :: |m| < i < |front| ==> front[i] == Zeros(ZeroBytes(|m|))[i - |m| - 1];
  }

  function WordBytes(w: bv32): seq<bv8> {
    [((w >> 24) & 0xff) as bv8, ((w >> 16) & 0xff) as bv8, ((w >> 8) & 0xff) as bv8, (w & 0xff) as bv8]
  }

  function Bytes(h: seq<bv32>): (r: seq<bv8>)
    ensures |r| == 4 * |h|
  {
    if h == [] then [] else Bytes(h[..|h| - 1]) + WordBytes(h[|h| - 1])
  }

  function Truncated(s: seq<bv8>, n: nat): seq<bv8> {
    if n <= |s| then s[..n] else s
  }

  /** The hash of a message, from the initial value `h` on. */
  function MessageDigest(h: Hash, m: seq<bv8>): seq<bv8> {
    Bytes(HashBlocks(h, Pad(m)))
  }
}
