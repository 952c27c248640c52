/**
  * The digest that the tests of lib_pypy/_sha256.py fix for one message, computed here from the standard's
  * functions, word by word and round by round.
  */
module Sha256Known {
  import opened Fips180
  import opened Sha256Rounds
  import Sha256Objects

  /** "just a test string". */
  const TEST: seq<bv8> := [
    106, 117, 115, 116, 32, 97, 32, 116, 101,
    115, 116, 32, 115, 116, 114, 105, 110, 103
  ]

  /** The words of the one block of the padded message. */
  predicate IsTestBlock(b: Block) {
    && Schedule(b, 0) == 0x6a757374 && Schedule(b, 1) == 0x20612074
    && Schedule(b, 2) == 0x65737420 && Schedule(b, 3) == 0x73747269
    && Schedule(b, 4) == 0x6e678000 && Schedule(b, 5) == 0x00000000
    && Schedule(b, 6) == 0x00000000 && Schedule(b, 7) == 0x00000000
    && Schedule(b, 8) == 0x00000000 && Schedule(b, 9) == 0x00000000
    && Schedule(b, 10) == 0x00000000 && Schedule(b, 11) == 0x00000000
    && Schedule(b, 12) == 0x00000000 && Schedule(b, 13) == 0x00000000
    && Schedule(b, 14) == 0x00000000 && Schedule(b, 15) == 0x00000090
  }

  lemma TestBytes(b: seq<bv8>)
    requires b == Pad(TEST)
    ensures |b| == 64 && forall i :: 0 <= i < 18 ==> b[i] == TEST[i]
    ensures b[18] == 0x80 && forall i :: 19 <= i < 56 ==> b[i] == 0
    ensures forall i :: 0 <= i < 8 ==> b[56 + i] == LengthField(144)[i]
  {
    PaddedText(TEST);
    assert b[56..] == LengthField(144);
  }

  lemma SmallByte(n: nat, unit: nat)
    requires unit > 0 && n / unit == 0
    ensures ByteOf(n, unit) == 0
  {
  }

  lemma LastByte(n: nat, x: bv8)
    requires n == x as nat
    ensures ByteOf(n, 1) == x
  {
    assert n / 1 % 256 == n;
  }

  lemma ShortLength(n: nat, x: bv8)
    requires n == x as nat
    ensures LengthField(n) == [0, 0, 0, 0, 0, 0, 0, x]
  {
    SmallByte(n, 0x100_0000_0000_0000);
    SmallByte(n, 0x1_0000_0000_0000);
    SmallByte(n, 0x100_0000_0000);
    SmallByte(n, 0x1_0000_0000);
    SmallByte(n, 0x100_0000);
    SmallByte(n, 0x1_0000);
    SmallByte(n, 0x100);
    LastByte(n, x);
  }

  lemma WordIs(b: Block, t: nat, b0: bv8, b1: bv8, b2: bv8, b3: bv8, w: bv32)
    requires t < 16 && b[4 * t] == b0 && b[4 * t + 1] == b1 && b[4 * t + 2] == b2 && b[4 * t + 3] == b3
    requires Word(b0, b1, b2, b3) == w
    ensures Schedule(b, t) == w
  {
  }

  lemma TestBlock(b: Block)
    requires b == Pad(TEST)
    ensures IsTestBlock(b)
  {
    TestBytes(b);
    ShortLength(144, 144);
    WordIs(b, 0, 106, 117, 115, 116, 0x6a757374);
    WordIs(b, 1, 32, 97, 32, 116, 0x20612074);
    WordIs(b, 2, 101, 115, 116, 32, 0x65737420);
    WordIs(b, 3, 115, 116, 114, 105, 0x73747269);
    WordIs(b, 4, 110, 103, 128, 0, 0x6e678000);
    WordIs(b, 5, 0, 0, 0, 0, 0x00000000);
    WordIs(b, 6, 0, 0, 0, 0, 0x00000000);
    WordIs(b, 7, 0, 0, 0, 0, 0x00000000);
    WordIs(b, 8, 0, 0, 0, 0, 0x00000000);
    WordIs(b, 9, 0, 0, 0, 0, 0x00000000);
    WordIs(b, 10, 0, 0, 0, 0, 0x00000000);
    WordIs(b, 11, 0, 0, 0, 0, 0x00000000);
    WordIs(b, 12, 0, 0, 0, 0, 0x00000000);
    WordIs(b, 13, 0, 0, 0, 0, 0x00000000);
    WordIs(b, 14, 0, 0, 0, 0, 0x00000000);
    WordIs(b, 15, 0, 0, 0, 144, 0x00000090);
  }

  lemma ScheduleStep(b: Block, t: nat, w2: bv32, w7: bv32, w15: bv32, w16: bv32, w: bv32)
    requires t >= 16 && Schedule(b, t - 2) == w2 && Schedule(b, t - 7) == w7
    requires Schedule(b, t - 15) == w15 && Schedule(b, t - 16) == w16
    requires NextWord(SmallSigma1(w2), w7, SmallSigma0(w15), w16) == w
    ensures Schedule(b, t) == w
  {
  }

  lemma Words2(b: Block)
    requires IsTestBlock(b)
    ensures Schedule(b, 16) == 0x0ec761ca && Schedule(b, 17) == 0xb227b1a4
    ensures Schedule(b, 18) == 0x8265a5f7 && Schedule(b, 19) == 0x8f4eddbd
    ensures Schedule(b, 20) == 0xd4cd2817 && Schedule(b, 21) == 0xb54aa5f9
    ensures Schedule(b, 22) == 0x313c2445 && Schedule(b, 23) == 0x1536206f
  {
    ScheduleStep(b, 16, 0x00000000, 0x00000000, 0x20612074, 0x6a757374, 0x0ec761ca);
    ScheduleStep(b, 17, 0x00000090, 0x00000000, 0x65737420, 0x20612074, 0xb227b1a4);
    ScheduleStep(b, 18, 0x0ec761ca, 0x00000000, 0x73747269, 0x65737420, 0x8265a5f7);
    ScheduleStep(b, 19, 0xb227b1a4, 0x00000000, 0x6e678000, 0x73747269, 0x8f4eddbd);
    ScheduleStep(b, 20, 0x8265a5f7, 0x00000000, 0x00000000, 0x6e678000, 0xd4cd2817);
    ScheduleStep(b, 21, 0x8f4eddbd, 0x00000000, 0x00000000, 0x00000000, 0xb54aa5f9);
    ScheduleStep(b, 22, 0xd4cd2817, 0x00000090, 0x00000000, 0x00000000, 0x313c2445);
    ScheduleStep(b, 23, 0xb54aa5f9, 0x0ec761ca, 0x00000000, 0x00000000, 0x1536206f);
  }

  lemma Words3(b: Block)
    requires IsTestBlock(b)
    ensures Schedule(b, 24) == 0x48ce2354 && Schedule(b, 25) == 0x56a4cbac
    ensures Schedule(b, 26) == 0x65217cb3 && Schedule(b, 27) == 0xd18330cb
    ensures Schedule(b, 28) == 0x47213c64 && Schedule(b, 29) == 0x2f851682
    ensures Schedule(b, 30) == 0xef0983bd && Schedule(b, 31) == 0xc020b8a6
  {
    Words2(b);
    ScheduleStep(b, 24, 0x313c2445, 0xb227b1a4, 0x00000000, 0x00000000, 0x48ce2354);
    ScheduleStep(b, 25, 0x1536206f, 0x8265a5f7, 0x00000000, 0x00000000, 0x56a4cbac);
    ScheduleStep(b, 26, 0x48ce2354, 0x8f4eddbd, 0x00000000, 0x00000000, 0x65217cb3);
    ScheduleStep(b, 27, 0x56a4cbac, 0xd4cd2817, 0x00000000, 0x00000000, 0xd18330cb);
    ScheduleStep(b, 28, 0x65217cb3, 0xb54aa5f9, 0x00000000, 0x00000000, 0x47213c64);
    ScheduleStep(b, 29, 0xd18330cb, 0x313c2445, 0x00000000, 0x00000000, 0x2f851682);
    ScheduleStep(b, 30, 0x47213c64, 0x1536206f, 0x00000090, 0x00000000, 0xef0983bd);
    ScheduleStep(b, 31, 0x2f851682, 0x48ce2354, 0x0ec761ca, 0x00000090, 0xc020b8a6);
  }

  lemma Words4(b: Block)
    requires IsTestBlock(b)
    ensures Schedule(b, 32) == 0x0a484b59 && Schedule(b, 33) == 0xf8f67dfd
    ensures Schedule(b, 34) == 0x5e463320 && Schedule(b, 35) == 0x4725637c
    ensures Schedule(b, 36) == 0x30f3a0a6 && Schedule(b, 37) == 0x47693c73
    ensures Schedule(b, 38) == 0xea402c7a && Schedule(b, 39) == 0x0281c6fd
  {
    Words2(b);
    Words3(b);
    ScheduleStep(b, 32, 0xef0983bd, 0x56a4cbac, 0xb227b1a4, 0x0ec761ca, 0x0a484b59);
    ScheduleStep(b, 33, 0xc020b8a6, 0x65217cb3, 0x8265a5f7, 0xb227b1a4, 0xf8f67dfd);
    ScheduleStep(b, 34, 0x0a484b59, 0xd18330cb, 0x8f4eddbd, 0x8265a5f7, 0x5e463320);
    ScheduleStep(b, 35, 0xf8f67dfd, 0x47213c64, 0xd4cd2817, 0x8f4eddbd, 0x4725637c);
    ScheduleStep(b, 36, 0x5e463320, 0x2f851682, 0xb54aa5f9, 0xd4cd2817, 0x30f3a0a6);
    ScheduleStep(b, 37, 0x4725637c, 0xef0983bd, 0x313c2445, 0xb54aa5f9, 0x47693c73);
    ScheduleStep(b, 38, 0x30f3a0a6, 0xc020b8a6, 0x1536206f, 0x313c2445, 0xea402c7a);
    ScheduleStep(b, 39, 0x47693c73, 0x0a484b59, 0x48ce2354, 0x1536206f, 0x0281c6fd);
  }

  lemma Words5(b: Block)
    requires IsTestBlock(b)
    ensures Schedule(b, 40) == 0xb5e01eff && Schedule(b, 41) == 0xc5cf3454
    ensures Schedule(b, 42) == 0xfa75c892 && Schedule(b, 43) == 0x0e7bcf40
    ensures Schedule(b, 44) == 0x2fff5af9 && Schedule(b, 45) == 0xbee133af
    ensures Schedule(b, 46) == 0xb3617efd && Schedule(b, 47) == 0xd71a43f4
  {
    Words3(b);
    Words4(b);
    ScheduleStep(b, 40, 0xea402c7a, 0xf8f67dfd, 0x56a4cbac, 0x48ce2354, 0xb5e01eff);
    ScheduleStep(b, 41, 0x0281c6fd, 0x5e463320, 0x65217cb3, 0x56a4cbac, 0xc5cf3454);
    ScheduleStep(b, 42, 0xb5e01eff, 0x4725637c, 0xd18330cb, 0x65217cb3, 0xfa75c892);
    ScheduleStep(b, 43, 0xc5cf3454, 0x30f3a0a6, 0x47213c64, 0xd18330cb, 0x0e7bcf40);
    ScheduleStep(b, 44, 0xfa75c892, 0x47693c73, 0x2f851682, 0x47213c64, 0x2fff5af9);
    ScheduleStep(b, 45, 0x0e7bcf40, 0xea402c7a, 0xef0983bd, 0x2f851682, 0xbee133af);
    ScheduleStep(b, 46, 0x2fff5af9, 0x0281c6fd, 0xc020b8a6, 0xef0983bd, 0xb3617efd);
    ScheduleStep(b, 47, 0xbee133af, 0xb5e01eff, 0x0a484b59, 0xc020b8a6, 0xd71a43f4);
  }

  lemma Words6(b: Block)
    requires IsTestBlock(b)
    ensures Schedule(b, 48) == 0xdc3594a9 && Schedule(b, 49) == 0x24d9dc20
    ensures Schedule(b, 50) == 0x8e6ed2b9 && Schedule(b, 51) == 0xef17fe5e
    ensures Schedule(b, 52) == 0x447c65cf && Schedule(b, 53) == 0xdf2c6a4d
    ensures Schedule(b, 54) == 0x0b944208 && Schedule(b, 55) == 0x857829a9
  {
    Words4(b);
    Words5(b);
    ScheduleStep(b, 48, 0xb3617efd, 0xc5cf3454, 0xf8f67dfd, 0x0a484b59, 0xdc3594a9);
    ScheduleStep(b, 49, 0xd71a43f4, 0xfa75c892, 0x5e463320, 0xf8f67dfd, 0x24d9dc20);
    ScheduleStep(b, 50, 0xdc3594a9, 0x0e7bcf40, 0x4725637c, 0x5e463320, 0x8e6ed2b9);
    ScheduleStep(b, 51, 0x24d9dc20, 0x2fff5af9, 0x30f3a0a6, 0x4725637c, 0xef17fe5e);
    ScheduleStep(b, 52, 0x8e6ed2b9, 0xbee133af, 0x47693c73, 0x30f3a0a6, 0x447c65cf);
    ScheduleStep(b, 53, 0xef17fe5e, 0xb3617efd, 0xea402c7a, 0x47693c73, 0xdf2c6a4d);
    ScheduleStep(b, 54, 0x447c65cf, 0xd71a43f4, 0x0281c6fd, 0xea402c7a, 0x0b944208);
    ScheduleStep(b, 55, 0xdf2c6a4d, 0xdc3594a9, 0xb5e01eff, 0x0281c6fd, 0x857829a9);
  }

  lemma Words7(b: Block)
    requires IsTestBlock(b)
    ensures Schedule(b, 56) == 0x00292658 && Schedule(b, 57) == 0xae9d9f44
    ensures Schedule(b, 58) == 0x13785f30 && Schedule(b, 59) == 0xf077f91e
    ensures Schedule(b, 60) == 0x37f0a6b4 && Schedule(b, 61) == 0x80bbb37c
    ensures Schedule(b, 62) == 0xe40b5314 && Schedule(b, 63) == 0xb44a17a3
  {
    Words5(b);
    Words6(b);
    ScheduleStep(b, 56, 0x0b944208, 0x24d9dc20, 0xc5cf3454, 0xb5e01eff, 0x00292658);
    ScheduleStep(b, 57, 0x857829a9, 0x8e6ed2b9, 0xfa75c892, 0xc5cf3454, 0xae9d9f44);
    ScheduleStep(b, 58, 0x00292658, 0xef17fe5e, 0x0e7bcf40, 0xfa75c892, 0x13785f30);
    ScheduleStep(b, 59, 0xae9d9f44, 0x447c65cf, 0x2fff5af9, 0x0e7bcf40, 0xf077f91e);
    ScheduleStep(b, 60, 0x13785f30, 0xdf2c6a4d, 0xbee133af, 0x2fff5af9, 0x37f0a6b4);
    ScheduleStep(b, 61, 0xf077f91e, 0x0b944208, 0xb3617efd, 0xbee133af, 0x80bbb37c);
    ScheduleStep(b, 62, 0x37f0a6b4, 0x857829a9, 0xd71a43f4, 0xb3617efd, 0xe40b5314);
    ScheduleStep(b, 63, 0x80bbb37c, 0x00292658, 0xdc3594a9, 0xd71a43f4, 0xb44a17a3);
  }

  lemma Constants0()
    ensures K[0] == 0x428a2f98 && K[1] == 0x71374491 && K[2] == 0xb5c0fbcf && K[3] == 0xe9b5dba5
    ensures K[4] == 0x3956c25b && K[5] == 0x59f111f1 && K[6] == 0x923f82a4 && K[7] == 0xab1c5ed5
  {
  }

  lemma Constants1()
    ensures K[8] == 0xd807aa98 && K[9] == 0x12835b01 && K[10] == 0x243185be && K[11] == 0x550c7dc3
    ensures K[12] == 0x72be5d74 && K[13] == 0x80deb1fe && K[14] == 0x9bdc06a7 && K[15] == 0xc19bf174
  {
  }

  lemma Constants2()
    ensures K[16] == 0xe49b69c1 && K[17] == 0xefbe4786 && K[18] == 0x0fc19dc6 && K[19] == 0x240ca1cc
    ensures K[20] == 0x2de92c6f && K[21] == 0x4a7484aa && K[22] == 0x5cb0a9dc && K[23] == 0x76f988da
  {
  }

  lemma Constants3()
    ensures K[24] == 0x983e5152 && K[25] == 0xa831c66d && K[26] == 0xb00327c8 && K[27] == 0xbf597fc7
    ensures K[28] == 0xc6e00bf3 && K[29] == 0xd5a79147 && K[30] == 0x06ca6351 && K[31] == 0x14292967
  {
  }

  lemma Constants4()
    ensures K[32] == 0x27b70a85 && K[33] == 0x2e1b2138 && K[34] == 0x4d2c6dfc && K[35] == 0x53380d13
    ensures K[36] == 0x650a7354 && K[37] == 0x766a0abb && K[38] == 0x81c2c92e && K[39] == 0x92722c85
  {
  }

  lemma Constants5()
    ensures K[40] == 0xa2bfe8a1 && K[41] == 0xa81a664b && K[42] == 0xc24b8b70 && K[43] == 0xc76c51a3
    ensures K[44] == 0xd192e819 && K[45] == 0xd6990624 && K[46] == 0xf40e3585 && K[47] == 0x106aa070
  {
  }

  lemma Constants6()
    ensures K[48] == 0x19a4c116 && K[49] == 0x1e376c08 && K[50] == 0x2748774c && K[51] == 0x34b0bcb5
    ensures K[52] == 0x391c0cb3 && K[53] == 0x4ed8aa4a && K[54] == 0x5b9cca4f && K[55] == 0x682e6ff3
  {
  }

  lemma Constants7()
    ensures K[56] == 0x748f82ee && K[57] == 0x78a5636f && K[58] == 0x84c87814 && K[59] == 0x8cc70208
    ensures K[60] == 0x90befffa && K[61] == 0xa4506ceb && K[62] == 0xbef9a3f7 && K[63] == 0xc67178f2
  {
  }

  lemma RoundStep(v: Registers<bv32>, b: Block, t: nat, r: Registers<bv32>, k: bv32, w: bv32, a: bv32, e: bv32)
    returns (next: Registers<bv32>)
    requires t < 64 && Rounds(v, b, t) == r && K[t] == k && Schedule(b, t) == w
    requires a == NewA(r.h, BigSigma1(r.e), Ch(r.e, r.f, r.g), k, w, BigSigma0(r.a), Maj(r.a, r.b, r.c))
    requires e == NewE(r.d, r.h, BigSigma1(r.e), Ch(r.e, r.f, r.g), k, w)
    ensures Rounds(v, b, t + 1) == next == Registers(a, r.a, r.b, r.c, e, r.e, r.f, r.g)
  {
    next := Registers(a, r.a, r.b, r.c, e, r.e, r.f, r.g);
  }

  lemma Rounds0(v: Registers<bv32>, b: Block)
    requires IsTestBlock(b)
    requires Rounds(v, b, 0) == Registers(0x6a09e667, 0xbb67ae85, 0x3c6ef372, 0xa54ff53a,
                                   0x510e527f, 0x9b05688c, 0x1f83d9ab, 0x5be0cd19)
    ensures Rounds(v, b, 8) == Registers(0x5e91ecdf, 0xefe3ba29, 0x17fa7ae3, 0x11604f5f,
                                  0xbcc156de, 0x7565e0c1, 0x71761240, 0x290a613d)
  {
    Constants0();
    var r := Rounds(v, b, 0);
    r := RoundStep(v, b, 0, r, 0x428a2f98, 0x6a757374, 0x667dfbc1, 0x033d5616);
    r := RoundStep(v, b, 1, r, 0x71374491, 0x20612074, 0x29798a8c, 0x8aff46b3);
    r := RoundStep(v, b, 2, r, 0xb5c0fbcf, 0x65737420, 0x94002e9f, 0x2cd8d895);
    r := RoundStep(v, b, 3, r, 0xe9b5dba5, 0x73747269, 0x9a711a92, 0x4eba8076);
    r := RoundStep(v, b, 4, r, 0x3956c25b, 0x6e678000, 0x11604f5f, 0x290a613d);
    r := RoundStep(v, b, 5, r, 0x59f111f1, 0x00000000, 0x17fa7ae3, 0x71761240);
    r := RoundStep(v, b, 6, r, 0x923f82a4, 0x00000000, 0xefe3ba29, 0x7565e0c1);
    r := RoundStep(v, b, 7, r, 0xab1c5ed5, 0x00000000, 0x5e91ecdf, 0xbcc156de);
  }

  lemma Rounds1(v: Registers<bv32>, b: Block)
    requires IsTestBlock(b)
    requires Rounds(v, b, 8) == Registers(0x5e91ecdf, 0xefe3ba29, 0x17fa7ae3, 0x11604f5f,
                                   0xbcc156de, 0x7565e0c1, 0x71761240, 0x290a613d)
    ensures Rounds(v, b, 16) == Registers(0x28daa4e3, 0x83b8752d, 0x5eaf2ea4, 0x069409ef,
                                  0x8c6f7dac, 0xdaa10a7a, 0xee6f3e1b, 0xe40cb931)
  {
    Constants1();
    var r := Rounds(v, b, 8);
    r := RoundStep(v, b, 8, r, 0xd807aa98, 0x00000000, 0x8efb2c71, 0x49798e23);
    r := RoundStep(v, b, 9, r, 0x12835b01, 0x00000000, 0x7141d427, 0xcdc52793);
    r := RoundStep(v, b, 10, r, 0x243185be, 0x00000000, 0x4bc371e3, 0x6299dcd3);
    r := RoundStep(v, b, 11, r, 0x550c7dc3, 0x00000000, 0x92a7bcfc, 0x5549262c);
    r := RoundStep(v, b, 12, r, 0x72be5d74, 0x00000000, 0x069409ef, 0xe40cb931);
    r := RoundStep(v, b, 13, r, 0x80deb1fe, 0x00000000, 0x5eaf2ea4, 0xee6f3e1b);
    r := RoundStep(v, b, 14, r, 0x9bdc06a7, 0x00000000, 0x83b8752d, 0xdaa10a7a);
    r := RoundStep(v, b, 15, r, 0xc19bf174, 0x00000090, 0x28daa4e3, 0x8c6f7dac);
  }

  lemma Rounds2(v: Registers<bv32>, b: Block)
    requires IsTestBlock(b)
    requires Rounds(v, b, 16) == Registers(0x28daa4e3, 0x83b8752d, 0x5eaf2ea4, 0x069409ef,
                                   0x8c6f7dac, 0xdaa10a7a, 0xee6f3e1b, 0xe40cb931)
    ensures Rounds(v, b, 24) == Registers(0x4d881632, 0xa16a9dfe, 0x0e0a4887, 0x1241da21,
                                  0xee153b98, 0xb68dc81f, 0x81ece154, 0x801496ed)
  {
    Words2(b);
    Constants2();
    var r := Rounds(v, b, 16);
    r := RoundStep(v, b, 16, r, 0xe49b69c1, 0x0ec761ca, 0x8425fd49, 0xf8437f45);
    r := RoundStep(v, b, 17, r, 0xefbe4786, 0xb227b1a4, 0x9783c9c7, 0x58c98a95);
    r := RoundStep(v, b, 18, r, 0x0fc19dc6, 0x8265a5f7, 0xd5bc810f, 0x2ff5b848);
    r := RoundStep(v, b, 19, r, 0x240ca1cc, 0x8f4eddbd, 0x90b054bb, 0x14cf7d5e);
    r := RoundStep(v, b, 20, r, 0x2de92c6f, 0xd4cd2817, 0x1241da21, 0x801496ed);
    r := RoundStep(v, b, 21, r, 0x4a7484aa, 0xb54aa5f9, 0x0e0a4887, 0x81ece154);
    r := RoundStep(v, b, 22, r, 0x5cb0a9dc, 0x313c2445, 0xa16a9dfe, 0xb68dc81f);
    r := RoundStep(v, b, 23, r, 0x76f988da, 0x1536206f, 0x4d881632, 0xee153b98);
  }

  lemma Rounds3(v: Registers<bv32>, b: Block)
    requires IsTestBlock(b)
    requires Rounds(v, b, 24) == Registers(0x4d881632, 0xa16a9dfe, 0x0e0a4887, 0x1241da21,
                                   0xee153b98, 0xb68dc81f, 0x81ece154, 0x801496ed)
    ensures Rounds(v, b, 32) == Registers(0x4b017e0f, 0xc5f3ae48, 0xa9a09929, 0x5cfe8e39,
                                  0x3e9c1077, 0x34fa1a18, 0xa3199108, 0x082ed617)
  {
    Words3(b);
    Constants3();
    var r := Rounds(v, b, 24);
    r := RoundStep(v, b, 24, r, 0x983e5152, 0x48ce2354, 0x32f9ebdd, 0x3589084e);
    r := RoundStep(v, b, 25, r, 0xa831c66d, 0x56a4cbac, 0x343f2791, 0x2a683627);
    r := RoundStep(v, b, 26, r, 0xb00327c8, 0x65217cb3, 0xddf8c8e1, 0xbd921281);
    r := RoundStep(v, b, 27, r, 0xbf597fc7, 0xd18330cb, 0x4f1107a9, 0x944bd781);
    r := RoundStep(v, b, 28, r, 0xc6e00bf3, 0x47213c64, 0x5cfe8e39, 0x082ed617);
    r := RoundStep(v, b, 29, r, 0xd5a79147, 0x2f851682, 0xa9a09929, 0xa3199108);
    r := RoundStep(v, b, 30, r, 0x06ca6351, 0xef0983bd, 0xc5f3ae48, 0x34fa1a18);
    r := RoundStep(v, b, 31, r, 0x14292967, 0xc020b8a6, 0x4b017e0f, 0x3e9c1077);
  }

  lemma Rounds4(v: Registers<bv32>, b: Block)
    requires IsTestBlock(b)
    requires Rounds(v, b, 32) == Registers(0x4b017e0f, 0xc5f3ae48, 0xa9a09929, 0x5cfe8e39,
                                   0x3e9c1077, 0x34fa1a18, 0xa3199108, 0x082ed617)
    ensures Rounds(v, b, 40) == Registers(0xc5f5f829, 0xedb54fc0, 0xd099375f, 0x7988849f,
                                  0x4ed21366, 0xceb72726, 0x6df34ed8, 0x7d0943da)
  {
    Words4(b);
    Constants4();
    var r := Rounds(v, b, 32);
    r := RoundStep(v, b, 32, r, 0x27b70a85, 0x0a484b59, 0x7cc14e16, 0xe8dbe3a2);
    r := RoundStep(v, b, 33, r, 0x2e1b2138, 0xf8f67dfd, 0xd1704887, 0x42938726);
    r := RoundStep(v, b, 34, r, 0x4d2c6dfc, 0x5e463320, 0x5b8fb2e1, 0x57018c3c);
    r := RoundStep(v, b, 35, r, 0x53380d13, 0x4725637c, 0x12ca6108, 0x04e7dee5);
    r := RoundStep(v, b, 36, r, 0x650a7354, 0x30f3a0a6, 0x7988849f, 0x7d0943da);
    r := RoundStep(v, b, 37, r, 0x766a0abb, 0x47693c73, 0xd099375f, 0x6df34ed8);
    r := RoundStep(v, b, 38, r, 0x81c2c92e, 0xea402c7a, 0xedb54fc0, 0xceb72726);
    r := RoundStep(v, b, 39, r, 0x92722c85, 0x0281c6fd, 0xc5f5f829, 0x4ed21366);
  }

  lemma Rounds5(v: Registers<bv32>, b: Block)
    requires IsTestBlock(b)
    requires Rounds(v, b, 40) == Registers(0xc5f5f829, 0xedb54fc0, 0xd099375f, 0x7988849f,
                                   0x4ed21366, 0xceb72726, 0x6df34ed8, 0x7d0943da)
    ensures Rounds(v, b, 48) == Registers(0x82ada904, 0xc0e91705, 0xdce6e5a7, 0xd659ec80,
                                  0x0eb1850c, 0x9d4f2180, 0x297cd356, 0x6955366b)
  {
    Words5(b);
    Constants5();
    var r := Rounds(v, b, 40);
    r := RoundStep(v, b, 40, r, 0xa2bfe8a1, 0xb5e01eff, 0x0fe1325b, 0x5be040ff);
    r := RoundStep(v, b, 41, r, 0xa81a664b, 0xc5cf3454, 0x61376d6c, 0x8df1cae2);
    r := RoundStep(v, b, 42, r, 0xc24b8b70, 0xfa75c892, 0xfa6eb12f, 0xf3932522);
    r := RoundStep(v, b, 43, r, 0xc76c51a3, 0x0e7bcf40, 0xcd361717, 0x5aa41cfa);
    r := RoundStep(v, b, 44, r, 0xd192e819, 0x2fff5af9, 0xd659ec80, 0x6955366b);
    r := RoundStep(v, b, 45, r, 0xd6990624, 0xbee133af, 0xdce6e5a7, 0x297cd356);
    r := RoundStep(v, b, 46, r, 0xf40e3585, 0xb3617efd, 0xc0e91705, 0x9d4f2180);
    r := RoundStep(v, b, 47, r, 0x106aa070, 0xd71a43f4, 0x82ada904, 0x0eb1850c);
  }

  lemma Rounds6(v: Registers<bv32>, b: Block)
    requires IsTestBlock(b)
    requires Rounds(v, b, 48) == Registers(0x82ada904, 0xc0e91705, 0xdce6e5a7, 0xd659ec80,
                                   0x0eb1850c, 0x9d4f2180, 0x297cd356, 0x6955366b)
    ensures Rounds(v, b, 56) == Registers(0x0ef6d9d6, 0x8c86a210, 0x3acc9335, 0x7d777d4a,
                                  0xdb977ca7, 0x8afce8e0, 0xf1e7dc2d, 0xd7efe52a)
  {
    Words6(b);
    Constants6();
    var r := Rounds(v, b, 48);
    r := RoundStep(v, b, 48, r, 0x19a4c116, 0xdc3594a9, 0xf50f87ca, 0x2c50621f);
    r := RoundStep(v, b, 49, r, 0x1e376c08, 0x24d9dc20, 0x9ecbca7a, 0xfdf9c6c3);
    r := RoundStep(v, b, 50, r, 0x2748774c, 0x8e6ed2b9, 0x1ea16276, 0x6daaff76);
    r := RoundStep(v, b, 51, r, 0x34b0bcb5, 0xef17fe5e, 0x3294e464, 0x05255502);
    r := RoundStep(v, b, 52, r, 0x391c0cb3, 0x447c65cf, 0x7d777d4a, 0xd7efe52a);
    r := RoundStep(v, b, 53, r, 0x4ed8aa4a, 0xdf2c6a4d, 0x3acc9335, 0xf1e7dc2d);
    r := RoundStep(v, b, 54, r, 0x5b9cca4f, 0x0b944208, 0x8c86a210, 0x8afce8e0);
    r := RoundStep(v, b, 55, r, 0x682e6ff3, 0x857829a9, 0x0ef6d9d6, 0xdb977ca7);
  }

  lemma Rounds7(v: Registers<bv32>, b: Block)
    requires IsTestBlock(b)
    requires Rounds(v, b, 56) == Registers(0x0ef6d9d6, 0x8c86a210, 0x3acc9335, 0x7d777d4a,
                                   0xdb977ca7, 0x8afce8e0, 0xf1e7dc2d, 0xd7efe52a)
    ensures Rounds(v, b, 64) == Registers(0x6dab6d5f, 0x353319d8, 0xd7b52286, 0xb2753bd5,
                                  0xeaad954e, 0x3c826458, 0x9a01d342, 0x79a45956)
  {
    Words7(b);
    Constants7();
    var r := Rounds(v, b, 56);
    r := RoundStep(v, b, 56, r, 0x748f82ee, 0x00292658, 0x5cfa2114, 0x35407152);
    r := RoundStep(v, b, 57, r, 0x78a5636f, 0xae9d9f44, 0x7ba1b84e, 0xb25f6b88);
    r := RoundStep(v, b, 58, r, 0x84c87814, 0x13785f30, 0x52d66bab, 0xa5efc975);
    r := RoundStep(v, b, 59, r, 0x8cc70208, 0xf077f91e, 0x442172fd, 0x27e482b3);
    r := RoundStep(v, b, 60, r, 0x90befffa, 0x37f0a6b4, 0xb2753bd5, 0x79a45956);
    r := RoundStep(v, b, 61, r, 0xa4506ceb, 0x80bbb37c, 0xd7b52286, 0x9a01d342);
    r := RoundStep(v, b, 62, r, 0xbef9a3f7, 0xe40b5314, 0x353319d8, 0x3c826458);
    r := RoundStep(v, b, 63, r, 0xc67178f2, 0xb44a17a3, 0x6dab6d5f, 0xeaad954e);
  }

  lemma TestHash(b: Block)
    requires IsTestBlock(b)
    ensures Compress(Sha256Objects.SHA256_START, b) == [
      0xd7b553c6, 0xf09ac85d, 0x142415f8, 0x57c5310f,
      0x3bbbe7cd, 0xd787cce4, 0xb985aced, 0xd585266f]
  {
    var v := Initial(Sha256Objects.SHA256_START);
    Rounds0(v, b);
    Rounds1(v, b);
    Rounds2(v, b);
    Rounds3(v, b);
    Rounds4(v, b);
    Rounds5(v, b);
    Rounds6(v, b);
    Rounds7(v, b);
  }

  lemma TestBytesOut()
    ensures Bytes([
      0xd7b553c6, 0xf09ac85d, 0x142415f8, 0x57c5310f,
      0x3bbbe7cd, 0xd787cce4, 0xb985aced, 0xd585266f]) == [
      0xd7, 0xb5, 0x53, 0xc6, 0xf0, 0x9a, 0xc8, 0x5d,
      0x14, 0x24, 0x15, 0xf8, 0x57, 0xc5, 0x31, 0x0f,
      0x3b, 0xbb, 0xe7, 0xcd, 0xd7, 0x87, 0xcc, 0xe4,
      0xb9, 0x85, 0xac, 0xed, 0xd5, 0x85, 0x26, 0x6f]
  {
    EightWords(0xd7b553c6, 0xf09ac85d, 0x142415f8, 0x57c5310f,
               0x3bbbe7cd, 0xd787cce4, 0xb985aced, 0xd585266f);
  }

  /** The digest of the test: the standard as it is written here is the function that the tests expect. */
  lemma KnownDigest()
    ensures MessageDigest(Sha256Objects.SHA256_START, TEST) == [
      0xd7, 0xb5, 0x53, 0xc6, 0xf0, 0x9a, 0xc8, 0x5d,
      0x14, 0x24, 0x15, 0xf8, 0x57, 0xc5, 0x31, 0x0f,
      0x3b, 0xbb, 0xe7, 0xcd, 0xd7, 0x87, 0xcc, 0xe4,
      0xb9, 0x85, 0xac, 0xed, 0xd5, 0x85, 0x26, 0x6f]
  {
    TestBytes(Pad(TEST));
    TestBlock(Pad(TEST));
    TestHash(Pad(TEST));
    OneBlock(Sha256Objects.SHA256_START, Pad(TEST));
    TestBytesOut();
  }

  lemma OneBlock(h: Hash, b: Block)
    ensures HashBlocks(h, b) == Compress(h, b)
  {
    assert b[..0] == [] && b[0..] == b;
  }

  lemma EightWords(a: bv32, b: bv32, c: bv32, d: bv32, e: bv32, f: bv32, g: bv32, h: bv32)
    ensures Bytes([a, b, c, d, e, f, g, h]) ==
      WordBytes(a) + WordBytes(b) + WordBytes(c) + WordBytes(d)
      + WordBytes(e) + WordBytes(f) + WordBytes(g) + WordBytes(h)
  {
    FourWords(a, b, c, d);
    assert [a, b, c, d, e, f, g, h][..7] == [a, b, c, d, e, f, g];
    assert [a, b, c, d, e, f, g][..6] == [a, b, c, d, e, f];
    BytesSnoc([a, b, c, d], e);
    BytesSnoc([a, b, c, d, e], f);
    BytesSnoc([a, b, c, d, e, f], g);
    BytesSnoc([a, b, c, d, e, f, g], h);
    assert [a, b, c, d] + [e] == [a, b, c, d, e] && [a, b, c, d, e] + [f] == [a, b, c, d, e, f];
    assert [a, b, c, d, e, f] + [g] == [a, b, c, d, e, f, g];
    assert [a, b, c, d, e, f, g] + [h] == [a, b, c, d, e, f, g, h];
  }

  lemma FourWords(a: bv32, b: bv32, c: bv32, d: bv32)
    ensures Bytes([a, b, c, d]) == WordBytes(a) + WordBytes(b) + WordBytes(c) + WordBytes(d)
  {
    BytesSnoc([], a);
    BytesSnoc([a], b);
    BytesSnoc([a, b], c);
    BytesSnoc([a, b, c], d);
    assert [] + [a] == [a] && [a] + [b] == [a, b] && [a, b] + [c] == [a, b, c] && [a, b, c] + [d] == [a, b, c, d];
    assert Bytes([]) + WordBytes(a) == WordBytes(a);
  }

  lemma BytesSnoc(s: seq<bv32>, w: bv32)
    ensures Bytes(s + [w]) == Bytes(s) + WordBytes(w)
  {
    assert (s + [w])[..|s|] == s;
  }

  /** `h` is the second word of the fraction of the square root of `p`, of which `root` is the rest. */
  predicate IsSecondWord(p: nat, root: nat, h: bv32) {
    var r := 0x1_0000_0000 * root + h as nat;
    r * r <= 0x1_0000_0000_0000_0000_0000_0000_0000_0000 * p < (r + 1) * (r + 1)
  }

  /** SHA-224 starts with the second words of the square roots of the ninth to the sixteenth prime. */
  lemma Sha224Start()
    ensures IsSecondWord(23, 0x4_cbbb9d5d, Sha256Objects.SHA224_START[0])
    ensures IsSecondWord(29, 0x5_629a292a, Sha256Objects.SHA224_START[1])
    ensures IsSecondWord(31, 0x5_9159015a, Sha256Objects.SHA224_START[2])
    ensures IsSecondWord(37, 0x6_152fecd8, Sha256Objects.SHA224_START[3])
    ensures IsSecondWord(41, 0x6_67332667, Sha256Objects.SHA224_START[4])
    ensures IsSecondWord(43, 0x6_8eb44a87, Sha256Objects.SHA224_START[5])
    ensures IsSecondWord(47, 0x6_db0c2e0d, Sha256Objects.SHA224_START[6])
    ensures IsSecondWord(53, 0x7_47b5481d, Sha256Objects.SHA224_START[7])
  {
  }
}
