
/** The word operations of lib_pypy/_sha256.py and its local function `RND`. */
module Sha256Words {
  import opened Sha256Rounds
  import F = Fips180

  // Python integers are unbounded. Words are stored masked to 32 bits; what exceeds 32 bits before
  // it is masked, the shifted word of a rotation and the sums, always fits in 64.

  function Ror(x: bv32, y: bv32): bv32 {
    ((((x as bv64 & 0xffffffff) >> (y & 31)) | ((x as bv64) << (32 - (y & 31)))) & 0xffffffff) as bv32
  }

  function R(x: bv32, n: bv32): bv32
    requires n <= 32
  {
    (x & 0xffffffff) >> n
  }

  function Ch(x: bv32, y: bv32, z: bv32): bv32 {
    z ^ (x & (y ^ z))
  }

  function Maj(x: bv32, y: bv32, z: bv32): bv32 {
    ((x | y) & z) | (x & y)
  }

  function Sigma0(x: bv32): bv32 {
    F.Xor3(Ror(x, 2), Ror(x, 13), Ror(x, 22))
  }

  function Sigma1(x: bv32): bv32 {
    F.Xor3(Ror(x, 6), Ror(x, 11), Ror(x, 25))
  }

  function Gamma0(x: bv32): bv32 {
    F.Xor3(Ror(x, 7), Ror(x, 18), R(x, 3))
  }

  function Gamma1(x: bv32): bv32 {
    F.Xor3(Ror(x, 17), Ror(x, 19), R(x, 10))
  }

  lemma ChBits(x: bv32, y: bv32, z: bv32)
    ensures z ^ (x & (y ^ z)) == (x & y) ^ (!x & z)
  {
  }

  lemma ChIs(x: bv32, y: bv32, z: bv32)
    ensures Ch(x, y, z) == F.Ch(x, y, z)
  {
    ChBits(x, y, z);
  }

  lemma MajBits(x: bv32, y: bv32, z: bv32)
    ensures ((x | y) & z) | (x & y) == (x & y) ^ (x & z) ^ (y & z)
  {
  }

  lemma MajIs(x: bv32, y: bv32, z: bv32)
    ensures Maj(x, y, z) == F.Maj(x, y, z)
  {
    MajBits(x, y, z);
  }

  /** The rotations that SHA-256 uses. */
  lemma RorIs(x: bv32)
    ensures Ror(x, 2) == F.Rotr(x, 2)
    ensures Ror(x, 6) == F.Rotr(x, 6)
    ensures Ror(x, 7) == F.Rotr(x, 7)
    ensures Ror(x, 11) == F.Rotr(x, 11)
    ensures Ror(x, 13) == F.Rotr(x, 13)
    ensures Ror(x, 17) == F.Rotr(x, 17)
    ensures Ror(x, 18) == F.Rotr(x, 18)
    ensures Ror(x, 19) == F.Rotr(x, 19)
    ensures Ror(x, 22) == F.Rotr(x, 22)
    ensures Ror(x, 25) == F.Rotr(x, 25)
  {
  }

  lemma SigmaIs(x: bv32)
    ensures Sigma0(x) == F.BigSigma0(x)
    ensures Sigma1(x) == F.BigSigma1(x)
  {
    RorIs(x);
  }

  lemma GammaIs(x: bv32)
    ensures Gamma0(x) == F.SmallSigma0(x)
    ensures Gamma1(x) == F.SmallSigma1(x)
  {
    RorIs(x);
  }

  // The sums of `RND` are taken in full and masked only at the end.

  function LateD(d: bv32, h: bv32, s: bv32, c: bv32, k: bv32, w: bv32): bv32 {
    ((d as bv64 + (h as bv64 + s as bv64 + c as bv64 + k as bv64 + w as bv64)) & 0xffffffff) as bv32
  }

  function LateH(h: bv32, s: bv32, c: bv32, k: bv32, w: bv32, x: bv32, y: bv32): bv32 {
    ((h as bv64 + s as bv64 + c as bv64 + k as bv64 + w as bv64 + (x as bv64 + y as bv64)) & 0xffffffff) as bv32
  }

  /** The local function `RND`: the new `d` and `h`. */
  function CodeRound(v: Registers<bv32>, k: bv32, w: bv32): (bv32, bv32) {
    (LateD(v.d, v.h, Sigma1(v.e), Ch(v.e, v.f, v.g), k, w),
     LateH(v.h, Sigma1(v.e), Ch(v.e, v.f, v.g), k, w, Sigma0(v.a), Maj(v.a, v.b, v.c)))
  }

  lemma LateDIs(d: bv32, h: bv32, s: bv32, c: bv32, k: bv32, w: bv32)
    ensures LateD(d, h, s, c, k, w) == F.NewE(d, h, s, c, k, w)
  {
  }

  lemma LateHIs(h: bv32, s: bv32, c: bv32, k: bv32, w: bv32, x: bv32, y: bv32)
    ensures LateH(h, s, c, k, w, x, y) == F.NewA(h, s, c, k, w, x, y)
  {
  }

  lemma CodeRoundIs(v: Registers<bv32>, k: bv32, w: bv32)
    ensures Shift(CodeRound, v, k, w) == F.Round(v, k, w)
  {
    SigmaIs(v.a);
    SigmaIs(v.e);
    ChIs(v.e, v.f, v.g);
    MajIs(v.a, v.b, v.c);
    LateDIs(v.d, v.h, Sigma1(v.e), Ch(v.e, v.f, v.g), k, w);
    LateHIs(v.h, Sigma1(v.e), Ch(v.e, v.f, v.g), k, w, Sigma0(v.a), Maj(v.a, v.b, v.c));
  }

  function CodeWord(b0: bv8, b1: bv8, b2: bv8, b3: bv8): bv32 {
    (b0 as bv32 << 24) + (b1 as bv32 << 16) + (b2 as bv32 << 8) + b3 as bv32
  }

  lemma CodeWordIs(b0: bv8, b1: bv8, b2: bv8, b3: bv8)
    ensures CodeWord(b0, b1, b2, b3) == F.Word(b0, b1, b2, b3)
  {
  }

  function CodeNextWord(g1: bv32, w7: bv32, g0: bv32, w16: bv32): bv32 {
    ((g1 as bv64 + w7 as bv64 + g0 as bv64 + w16 as bv64) & 0xffffffff) as bv32
  }

  lemma CodeNextWordIs(g1: bv32, w7: bv32, g0: bv32, w16: bv32)
    ensures CodeNextWord(g1, w7, g0, w16) == F.NextWord(g1, w7, g0, w16)
  {
  }

  /** The two loops of `sha_transform` that fill `W`. */
  method Expand(d: F.Block) returns (ws: seq<bv32>)
    ensures |ws| == 64 && forall t :: 0 <= t < 64 ==> ws[t] == F.Schedule(d, t)
  {
    ws := [];
    for i := 0 to 16
      invariant |ws| == i && forall t :: 0 <= t < i ==> ws[t] == F.Schedule(d, t)
    {
      CodeWordIs(d[4 * i], d[4 * i + 1], d[4 * i + 2], d[4 * i + 3]);
      ws := ws + [CodeWord(d[4 * i], d[4 * i + 1], d[4 * i + 2], d[4 * i + 3])];
    }
    for i := 16 to 64
      invariant |ws| == i && forall t :: 0 <= t < i ==> ws[t] == F.Schedule(d, t)
    {
      GammaIs(ws[i - 2]);
      GammaIs(ws[i - 15]);
      CodeNextWordIs(Gamma1(ws[i - 2]), ws[i - 7], Gamma0(ws[i - 15]), ws[i - 16]);
      ws := ws + [CodeNextWord(Gamma1(ws[i - 2]), ws[i - 7], Gamma0(ws[i - 15]), ws[i - 16])];
    }
  }

  lemma {:induction false} AfterIsRounds(v: Registers<bv32>, d: F.Block, ws: seq<bv32>, t: nat)
    requires |ws| == 64 && forall t :: 0 <= t < 64 ==> ws[t] == F.Schedule(d, t)
    requires t <= 64
    ensures After(CodeRound, v, F.K, ws, t) == F.Rounds(v, d, t)
  {
    if t > 0 {
      AfterIsRounds(v, d, ws, t - 1);
      CodeRoundIs(F.Rounds(v, d, t - 1), F.K[t - 1], ws[t - 1]);
    }
  }

  /** The 64 lines of rounds of `sha_transform`. */
  method UnrolledRounds(rnd: Rnd<bv32>, h: F.Hash, ws: seq<bv32>, ghost v: Registers<bv32>) returns (ss: F.Hash)
    requires |ws| == 64 && View(h, 0) == v
    ensures View(ss, 0) == After(rnd, v, F.K, ws, 64)
  {
    ss := FirstRounds(rnd, h, ws, v);
    ss := LastRounds(rnd, ss, ws, v);
  }

  method FirstRounds(rnd: Rnd<bv32>, h: F.Hash, ws: seq<bv32>, ghost v: Registers<bv32>) returns (ss: F.Hash)
    requires |ws| == 64 && View(h, 0) == v
    ensures View(ss, 0) == After(rnd, v, F.K, ws, 32)
  {
    ss := h;
    ss := EightRounds(rnd, ss, ws, 0, 0x428a2f98, 0x71374491, 0xb5c0fbcf, 0xe9b5dba5,
                      0x3956c25b, 0x59f111f1, 0x923f82a4, 0xab1c5ed5, v, F.K);
    ss := EightRounds(rnd, ss, ws, 8, 0xd807aa98, 0x12835b01, 0x243185be, 0x550c7dc3,
                      0x72be5d74, 0x80deb1fe, 0x9bdc06a7, 0xc19bf174, v, F.K);
    ss := EightRounds(rnd, ss, ws, 16, 0xe49b69c1, 0xefbe4786, 0x0fc19dc6, 0x240ca1cc,
                      0x2de92c6f, 0x4a7484aa, 0x5cb0a9dc, 0x76f988da, v, F.K);
    ss := EightRounds(rnd, ss, ws, 24, 0x983e5152, 0xa831c66d, 0xb00327c8, 0xbf597fc7,
                      0xc6e00bf3, 0xd5a79147, 0x06ca6351, 0x14292967, v, F.K);
  }

  method LastRounds(rnd: Rnd<bv32>, h: F.Hash, ws: seq<bv32>, ghost v: Registers<bv32>) returns (ss: F.Hash)
    requires |ws| == 64 && View(h, 0) == After(rnd, v, F.K, ws, 32)
    ensures View(ss, 0) == After(rnd, v, F.K, ws, 64)
  {
    ss := h;
    ss := EightRounds(rnd, ss, ws, 32, 0x27b70a85, 0x2e1b2138, 0x4d2c6dfc, 0x53380d13,
                      0x650a7354, 0x766a0abb, 0x81c2c92e, 0x92722c85, v, F.K);
    ss := EightRounds(rnd, ss, ws, 40, 0xa2bfe8a1, 0xa81a664b, 0xc24b8b70, 0xc76c51a3,
                      0xd192e819, 0xd6990624, 0xf40e3585, 0x106aa070, v, F.K);
    ss := EightRounds(rnd, ss, ws, 48, 0x19a4c116, 0x1e376c08, 0x2748774c, 0x34b0bcb5,
                      0x391c0cb3, 0x4ed8aa4a, 0x5b9cca4f, 0x682e6ff3, v, F.K);
    ss := EightRounds(rnd, ss, ws, 56, 0x748f82ee, 0x78a5636f, 0x84c87814, 0x8cc70208,
                      0x90befffa, 0xa4506ceb, 0xbef9a3f7, 0xc67178f2, v, F.K);
  }

  function LateSum(x: bv32, y: bv32): bv32 {
    ((x as bv64 + y as bv64) & 0xffffffff) as bv32
  }

  lemma LateSumIs(x: bv32, y: bv32)
    ensures LateSum(x, y) == F.Plus(x, y)
  {
  }

  /** The last loop of `sha_transform`. */
  method AddDigest(digest: F.Hash, ss: F.Hash) returns (dig: F.Hash)
    ensures dig == F.AddTo(digest, View(ss, 0))
  {
    var sums := [];
    for i := 0 to 8
      invariant |sums| == i && forall j :: 0 <= j < i ==> sums[j] == F.Plus(digest[j], ss[j])
    {
      LateSumIs(digest[i], ss[i]);
      sums := sums + [LateSum(digest[i], ss[i])];
    }
    dig := sums;
  }

  /** The hash value that `sha_transform` leaves in `sha_info['digest']`. */
  method Transformed(digest: F.Hash, data: F.Block) returns (dig: F.Hash)
    ensures dig == F.Compress(digest, data)
  {
    var ws := Expand(data);
    ghost var v := F.Initial(digest);
    var ss := UnrolledRounds(CodeRound, digest, ws, v);
    AfterIsRounds(F.Initial(digest), data, ws, 64);
    dig := AddDigest(digest, ss);
  }
}
