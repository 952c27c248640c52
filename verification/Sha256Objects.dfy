/** The buffered hash objects of lib_pypy/_sha256.py: `sha_update`, `sha_final` and `digest`. */
module Sha256Objects {
  import F = Fips180
  import Sha256Words

  const SHA_BLOCKSIZE: nat := 64

  const SHA256_START: F.Hash := [0x6A09E667, 0xBB67AE85, 0x3C6EF372, 0xA54FF53A,
                                 0x510E527F, 0x9B05688C, 0x1F83D9AB, 0x5BE0CD19]

  const SHA224_START: F.Hash := [0xc1059ed8, 0x367cd507, 0x3070dd17, 0xf70e5939,
                                 0xffc00b31, 0x68581511, 0x64f98fa7, 0xbefa4fa4]

  /** The whole blocks of `m` are hashed and the rest of it is live. */
  ghost predicate Absorbed(start: F.Hash, m: seq<bv8>, digest: seq<bv32>, live: seq<bv8>) {
    && |live| == |m| % SHA_BLOCKSIZE
    && live == m[|m| - |live|..]
    && digest == F.HashBlocks(start, m[..|m| - |live|])
  }

  lemma AbsorbPart(start: F.Hash, m: seq<bv8>, digest: seq<bv32>, live: seq<bv8>, bytes: seq<bv8>)
    requires Absorbed(start, m, digest, live) && |live| + |bytes| < SHA_BLOCKSIZE
    ensures Absorbed(start, m + bytes, digest, live + bytes)
  {
    SplitKept(m, |live|, bytes);
  }

  lemma AbsorbBlock(start: F.Hash, m: seq<bv8>, digest: F.Hash, live: seq<bv8>, bytes: seq<bv8>)
    requires Absorbed(start, m, digest, live) && |live| + |bytes| == SHA_BLOCKSIZE
    ensures Absorbed(start, m + bytes, F.Compress(digest, live + bytes), [])
  {
    PrefixWhole(|m|, |live|);
    BlockAdded(start, m[..|m| - |live|], live + bytes);
    BlockKept(m, live, bytes);
  }

  lemma BlockKept(m: seq<bv8>, live: seq<bv8>, bytes: seq<bv8>)
    requires |live| <= |m| && live == m[|m| - |live|..]
    ensures m[..|m| - |live|] + (live + bytes) == m + bytes
    ensures (m + bytes)[..|m + bytes| - 0] == m + bytes
    ensures (m + bytes)[|m + bytes| - 0..] == []
  {
  }

  lemma SplitKept(m: seq<bv8>, local: nat, bytes: seq<bv8>)
    requires local == |m| % SHA_BLOCKSIZE
    ensures local + |bytes| < SHA_BLOCKSIZE ==> |m + bytes| % SHA_BLOCKSIZE == local + |bytes|
    ensures local + |bytes| == SHA_BLOCKSIZE ==> |m + bytes| % SHA_BLOCKSIZE == 0
    ensures (m + bytes)[..|m| - local] == m[..|m| - local]
    ensures (m + bytes)[|m| - local..] == m[|m| - local..] + bytes
  {
  }

  lemma BlockAdded(start: F.Hash, m: seq<bv8>, block: F.Block)
    requires |m| % SHA_BLOCKSIZE == 0
    ensures |m + block| % SHA_BLOCKSIZE == 0
    ensures F.HashBlocks(start, m + block) == F.Compress(F.HashBlocks(start, m), block)
  {
    assert (m + block)[..|m|] == m;
    assert (m + block)[|m|..] == block;
  }

  /** `list` with `bytes` written into it from cell `at` on. */
  function Over(list: seq<bv8>, at: nat, bytes: seq<bv8>): (r: seq<bv8>)
    requires at + |bytes| <= |list|
    ensures |r| == |list|
  {
    list[..at] + bytes + list[at + |bytes|..]
  }

  /**
    * What an update with `z` leaves in the list that it finds, of which `local` cells are live: after the
    * bytes that fill a block, the rest goes to the start of the same list, unless whole blocks come first.
    */
  function Written(list: seq<bv8>, local: nat, z: seq<bv8>): (r: seq<bv8>)
    requires |list| == SHA_BLOCKSIZE && local < SHA_BLOCKSIZE
    ensures |r| == |list|
  {
    if local + |z| < SHA_BLOCKSIZE then Over(list, local, z) else
    var room := if local == 0 then 0 else SHA_BLOCKSIZE - local;
    AfterRoom(Over(list, local, z[..room]), z[room..])
  }

  function AfterRoom(list: seq<bv8>, rest: seq<bv8>): (r: seq<bv8>)
    requires |list| == SHA_BLOCKSIZE
    ensures |r| == |list|
  {
    if |rest| < SHA_BLOCKSIZE then Over(list, 0, rest) else list
  }

  /**
    * The dictionary `sha_info`. The list `data` is an array, because a shallow copy of the
    * dictionary shares it; the list `digest` is a value, because no code writes into it.
    */
  class ShaInfo {
    var digest: seq<bv32>
    var countLo: nat
    var countHi: nat
    var data: array<bv8>
    var local: nat
    const digestsize: nat

    /** The initial hash value and all the bytes that updates have brought so far. */
    ghost const start: F.Hash
    ghost var fed: seq<bv8>

    /** The two halves of the bit count, of which only the lower one is kept below 2^32. */
    predicate Counted(n: nat)
      reads `countLo, `countHi
    {
      countLo < 0x1_0000_0000 && countHi * 0x1_0000_0000 + countLo == 8 * n
    }

    ghost predicate Buffered(m: seq<bv8>)
      reads `digest, `local, `data, data
    {
      && data.Length == SHA_BLOCKSIZE && local < SHA_BLOCKSIZE
      && Absorbed(start, m, digest, data[..local])
    }

    ghost predicate Valid()
      reads this, data
    {
      Counted(|fed|) && Buffered(fed)
    }

    constructor (digest: F.Hash, digestsize: nat)
      ensures Valid() && fed == [] && start == digest && this.digestsize == digestsize && fresh(data)
    {
      this.digest := digest;
      this.countLo := 0;
      this.countHi := 0;
      this.data := new bv8[SHA_BLOCKSIZE](i => 0);
      this.local := 0;
      this.digestsize := digestsize;
      this.start := digest;
      this.fed := [];
    }

    /** `dict.copy`: another dictionary with the same values, so with the same list `data`. */
    constructor Copy(that: ShaInfo)
      ensures digest == that.digest && countLo == that.countLo && countHi == that.countHi
      ensures data == that.data && local == that.local && digestsize == that.digestsize
      ensures start == that.start && fed == that.fed
    {
      digest := that.digest;
      countLo := that.countLo;
      countHi := that.countHi;
      data := that.data;
      local := that.local;
      digestsize := that.digestsize;
      start := that.start;
      fed := that.fed;
    }

    method Transform()
      requires data.Length == SHA_BLOCKSIZE && |digest| == 8
      modifies `digest
      ensures digest == F.Compress(old(digest), data[..])
    {
      digest := Sha256Words.Transformed(digest, data[..]);
    }

    /** The start of `sha_update`: the bit count. */
    method Count(count: nat, ghost n: nat)
      requires Counted(n)
      modifies `countLo, `countHi
      ensures Counted(n + count)
    {
      var clo := (countLo + count * 8) % 0x1_0000_0000;
      if clo < countLo {
        countHi := countHi + 1;
      }
      countLo := clo;
      countHi := countHi + count / 0x2000_0000;
    }

    /** The loop that copies the first bytes of a buffer behind the live part. */
    method Fill(bytes: seq<bv8>)
      requires data.Length == SHA_BLOCKSIZE && local + |bytes| <= SHA_BLOCKSIZE
      modifies data
      ensures data[..local + |bytes|] == old(data[..local]) + bytes
      ensures data[..] == Over(old(data[..]), local, bytes)
    {
      for x := 0 to |bytes|
        invariant data[..local + x] == old(data[..local]) + bytes[..x]
        invariant data[local + x..] == old(data[local + x..])
      {
        data[local + x] := bytes[x];
      }
    }

    /** The branch of `sha_update` for a block that earlier updates began. */
    method TopUp(bytes: seq<bv8>, ghost m: seq<bv8>)
      requires Buffered(m) && |bytes| <= SHA_BLOCKSIZE - local
      requires local > 0
      modifies `digest, `local, data
      ensures Buffered(m + bytes)
      ensures data[..] == Over(old(data[..]), old(local), bytes)
      ensures local == (if old(local) + |bytes| < SHA_BLOCKSIZE then old(local) + |bytes| else 0)
    {
      if local + |bytes| < SHA_BLOCKSIZE {
        AbsorbPart(start, m, digest, data[..local], bytes);
      } else {
        AbsorbBlock(start, m, digest, data[..local], bytes);
      }
      Fill(bytes);
      local := local + |bytes|;
      if local == SHA_BLOCKSIZE {
        assert data[..local] == data[..];
        Transform();
        local := 0;
        assert data[..local] == [];
      }
    }

    /** One turn of the loop of `sha_update`: a whole block goes to a new list and is hashed. */
    method WholeBlock(block: seq<bv8>, ghost m: seq<bv8>)
      requires Buffered(m) && local == 0 && |block| == SHA_BLOCKSIZE
      modifies `digest, `data
      ensures Buffered(m + block)
      ensures fresh(data)
    {
      AbsorbBlock(start, m, digest, data[..local], block);
      assert data[..local] + block == block;
      data := new bv8[SHA_BLOCKSIZE](i requires 0 <= i < SHA_BLOCKSIZE => block[i]);
      assert data[..] == block;
      Transform();
      assert data[..local] == [];
    }

    method NextBlock(buffer: seq<bv8>, from: nat, idx: nat, ghost m: seq<bv8>) returns (end: nat)
      requires local == 0 && from <= idx && idx + SHA_BLOCKSIZE <= |buffer| && Buffered(m + buffer[from..idx])
      modifies `digest, `data
      ensures end == idx + SHA_BLOCKSIZE && Buffered(m + buffer[from..end])
      ensures fresh(data)
    {
      end := idx + SHA_BLOCKSIZE;
      SliceGrows(m, buffer, from, idx, end);
      WholeBlock(buffer[idx..end], m + buffer[from..idx]);
    }

    /** The loop of `sha_update` over the whole blocks of the buffer. */
    method WholeBlocks(buffer: seq<bv8>, from: nat, ghost m: seq<bv8>) returns (idx: nat)
      requires Buffered(m) && local == 0 && from <= |buffer|
      modifies `digest, `data
      ensures from <= idx <= |buffer| < idx + SHA_BLOCKSIZE
      ensures Buffered(m + buffer[from..idx])
      ensures if |buffer| - from < SHA_BLOCKSIZE then data == old(data) && idx == from else fresh(data)
    {
      idx := from;
      assert m + buffer[from..idx] == m;
      while |buffer| - idx >= SHA_BLOCKSIZE
        invariant from <= idx <= |buffer|
        invariant Buffered(m + buffer[from..idx])
        invariant if idx == from then data == old(data) else fresh(data)
      {
        idx := NextBlock(buffer, from, idx, m);
      }
    }

    /** The end of `sha_update`: what is left of the buffer becomes the live part. */
    method Tail(rest: seq<bv8>, ghost m: seq<bv8>)
      requires Buffered(m) && local == 0 && |rest| < SHA_BLOCKSIZE
      modifies `local, data
      ensures Buffered(m + rest)
      ensures data[..] == Over(old(data[..]), 0, rest)
    {
      AbsorbPart(start, m, digest, data[..local], rest);
      Fill(rest);
      local := |rest|;
    }

    /** All of `sha_update` after the count. */
    method Absorb(buffer: seq<bv8>, ghost m: seq<bv8>)
      requires Buffered(m)
      modifies `digest, `data, `local, data
      ensures Buffered(m + buffer)
      ensures data == old(data) || fresh(data)
      ensures old(local) + |buffer| < SHA_BLOCKSIZE ==> data == old(data)
      ensures old(data)[..] == Written(old(data[..]), old(local), buffer)
    {
      var idx := 0;
      assert m + buffer[..idx] == m;
      if local != 0 {
        idx := if SHA_BLOCKSIZE - local > |buffer| then |buffer| else SHA_BLOCKSIZE - local;
        TopUp(buffer[..idx], m);
        if local != 0 {
          assert buffer[..idx] == buffer;
          return;
        }
      }
      AbsorbRest(buffer, idx, m);
    }

    /** What `sha_update` does with the bytes that do not top up a block begun before. */
    method AbsorbRest(buffer: seq<bv8>, idx: nat, ghost m: seq<bv8>)
      requires idx <= |buffer| && local == 0 && Buffered(m + buffer[..idx])
      modifies `digest, `data, `local, data
      ensures Buffered(m + buffer)
      ensures if |buffer| - idx < SHA_BLOCKSIZE then data == old(data) else fresh(data)
      ensures old(data)[..] == AfterRoom(old(data[..]), buffer[idx..])
    {
      var end := WholeBlocks(buffer, idx, m + buffer[..idx]);
      TwoSlices(m, buffer, idx, end);
      ghost var list := old(data);
      assert list[..] == old(data[..]);
      LeftOver(buffer[end..], m + buffer[..end], m + buffer);
      if |buffer| - idx >= SHA_BLOCKSIZE {
        assert list != data;
        assert list[..] == old(data[..]);
      }
    }

    /** The call of Tail, with the bytes that the object stands for before and after. */
    method LeftOver(rest: seq<bv8>, ghost m: seq<bv8>, ghost m': seq<bv8>)
      requires Buffered(m) && local == 0 && |rest| < SHA_BLOCKSIZE && m + rest == m'
      modifies `local, data
      ensures Buffered(m')
      ensures data[..] == Over(old(data[..]), 0, rest)
    {
      Tail(rest, m);
    }

    /** `sha_update`. */
    method Update(buffer: seq<bv8>)
      requires Valid()
      modifies this, data
      ensures Valid() && fed == old(fed) + buffer
      ensures data == old(data) || fresh(data)
      ensures old(local) + |buffer| < SHA_BLOCKSIZE ==> data == old(data)
      ensures old(data)[..] == Written(old(data[..]), old(local), buffer)
    {
      Count(|buffer|, |fed|);
      Absorb(buffer, fed);
      fed := fed + buffer;
    }

    /** `data[:count] + [0] * (SHA_BLOCKSIZE - count)`, in a new list. */
    method ZeroFrom(count: nat)
      requires data.Length == SHA_BLOCKSIZE && count <= SHA_BLOCKSIZE
      modifies `data
      ensures data.Length == SHA_BLOCKSIZE && fresh(data)
      ensures data[..] == old(data[..count]) + F.Zeros(SHA_BLOCKSIZE - count)
    {
      var kept := data[..count];
      data := new bv8[SHA_BLOCKSIZE](i requires 0 <= i < SHA_BLOCKSIZE && |kept| == count =>
                                       if i < count then kept[i] else 0);
    }

    /** The bit count in the last eight bytes, the upper half first. */
    method PutHalves()
      requires data.Length == SHA_BLOCKSIZE
      modifies data
      ensures data[..] == old(data[..56]) + CodeField(countHi, countLo)
    {
      data[56] := F.ByteOf(countHi, 0x100_0000);
      data[57] := F.ByteOf(countHi, 0x1_0000);
      data[58] := F.ByteOf(countHi, 0x100);
      data[59] := F.ByteOf(countHi, 1);
      data[60] := F.ByteOf(countLo, 0x100_0000);
      data[61] := F.ByteOf(countLo, 0x1_0000);
      data[62] := F.ByteOf(countLo, 0x100);
      data[63] := F.ByteOf(countLo, 1);
      assert data[..56] == old(data[..56]);
      assert data[..] == data[..56] + data[56..];
    }

    method PutLength(ghost n: nat)
      requires data.Length == SHA_BLOCKSIZE && Counted(n)
      modifies data
      ensures data[..] == old(data[..56]) + F.LengthField(8 * n)
    {
      CodeFieldIs(countHi, countLo);
      PutHalves();
    }

    /** The last block: zeros behind `count` bytes and the length at the end. */
    method FinishBlock(count: nat, ghost head: seq<bv8>, ghost n: nat)
      requires data.Length == SHA_BLOCKSIZE && |digest| == 8 && Counted(n)
      requires count == |head| <= 56 && data[..count] == head
      modifies `digest, `data
      ensures digest == F.Compress(old(digest), head + F.Zeros(56 - count) + F.LengthField(8 * n))
    {
      ZeroFrom(count);
      assert data[..56] == head + F.Zeros(56 - count);
      PutLength(n);
      Transform();
    }

    /** The block before the last one, which has no room for the length. */
    method ExtraBlock(count: nat, ghost head: seq<bv8>)
      requires data.Length == SHA_BLOCKSIZE && |digest| == 8
      requires count == |head| <= SHA_BLOCKSIZE && data[..count] == head
      modifies `digest, `data
      ensures data.Length == SHA_BLOCKSIZE
      ensures digest == F.Compress(old(digest), head + F.Zeros(SHA_BLOCKSIZE - count))
    {
      ZeroFrom(count);
      Transform();
      ZeroFrom(0);
    }

    /** The padding of `sha_final`, in one or in two blocks. */
    method FinishBlocks(count: nat, ghost live: seq<bv8>, ghost n: nat)
      requires data.Length == SHA_BLOCKSIZE && |digest| == 8 && Counted(n)
      requires count == |live| + 1 <= SHA_BLOCKSIZE && data[..count] == live + [0x80]
      modifies `digest, `data
      ensures digest == Ending(old(digest), live, F.LengthField(8 * n))
    {
      if count > SHA_BLOCKSIZE - 8 {
        ExtraBlock(count, live + [0x80]);
        assert data[..0] == [] && [] + F.Zeros(56) == F.Zeros(56);
        FinishBlock(0, [], n);
      } else {
        FinishBlock(count, live + [0x80], n);
      }
    }

    /** All of `sha_final` up to the last transformation. */
    method Finish()
      requires Valid()
      modifies `digest, `data, data
      ensures digest == F.HashBlocks(start, F.Pad(fed))
      ensures old(data)[..] == old(data[..])[local := 0x80]
    {
      ghost var live := data[..local];
      CountGivesLocal(countHi, countLo, |fed|);
      Padded(start, fed, digest, live, F.LengthField(8 * |fed|));
      var count := countLo / 8 % 64;
      data[count] := 0x80;
      count := count + 1;
      assert data[..count] == live + [0x80];
      assert data[..] == old(data[..])[local := 0x80];
      FinishBlocks(count, live, |fed|);
    }

    /** `sha_final`. */
    method Final() returns (dig: seq<bv8>)
      requires Valid()
      modifies `digest, `data, data
      ensures dig == F.MessageDigest(start, fed)
      ensures old(data)[..] == old(data[..])[local := 0x80]
      ensures old(data)[..local] == old(data[..local])
    {
      Finish();
      dig := DigestBytes(digest);
    }
  }

  /** The last loop of `sha_final`. */
  method DigestBytes(digest: seq<bv32>) returns (dig: seq<bv8>)
    ensures dig == F.Bytes(digest)
  {
    dig := [];
    for i := 0 to |digest|
      invariant dig == F.Bytes(digest[..i])
    {
      assert digest[..i + 1][..i] == digest[..i];
      dig := dig + F.WordBytes(digest[i]);
    }
    assert digest[..|digest|] == digest;
  }

  /** Two dictionaries that were fed the same bytes agree in everything a later call can see. */
  lemma SameBytesSameState(x: ShaInfo, y: ShaInfo)
    requires x.Valid() && y.Valid() && x.start == y.start && x.fed == y.fed
    ensures x.digest == y.digest && x.local == y.local && x.data[..x.local] == y.data[..y.local]
    ensures x.countLo == y.countLo && x.countHi == y.countHi
  {
  }

  /** The eight bytes that `sha_final` makes of the two halves of the bit count. */
  function CodeField(hi: nat, lo: nat): (r: seq<bv8>)
    ensures |r| == 8
  {
    [F.ByteOf(hi, 0x100_0000), F.ByteOf(hi, 0x1_0000), F.ByteOf(hi, 0x100), F.ByteOf(hi, 1),
     F.ByteOf(lo, 0x100_0000), F.ByteOf(lo, 0x1_0000), F.ByteOf(lo, 0x100), F.ByteOf(lo, 1)]
  }

  /** They are the length field of the message. */
  lemma CodeFieldIs(hi: nat, lo: nat)
    requires lo < 0x1_0000_0000
    ensures CodeField(hi, lo) == F.LengthField(hi * 0x1_0000_0000 + lo)
  {
    HighBytes(hi, lo);
    LowBytes(hi, lo);
  }

  lemma HighBytes(hi: nat, lo: nat)
    requires lo < 0x1_0000_0000
    ensures (hi * 0x1_0000_0000 + lo) / 0x100_0000_0000_0000 == hi / 0x100_0000
    ensures (hi * 0x1_0000_0000 + lo) / 0x1_0000_0000_0000 == hi / 0x1_0000
    ensures (hi * 0x1_0000_0000 + lo) / 0x100_0000_0000 == hi / 0x100
    ensures (hi * 0x1_0000_0000 + lo) / 0x1_0000_0000 == hi
  {
  }

  lemma LowBytes(hi: nat, lo: nat)
    ensures (hi * 0x1_0000_0000 + lo) / 0x100_0000 % 256 == lo / 0x100_0000 % 256
    ensures (hi * 0x1_0000_0000 + lo) / 0x1_0000 % 256 == lo / 0x1_0000 % 256
    ensures (hi * 0x1_0000_0000 + lo) / 0x100 % 256 == lo / 0x100 % 256
    ensures (hi * 0x1_0000_0000 + lo) % 256 == lo % 256
  {
    LowQuotients(hi, lo);
    SameByte(hi, lo / 0x100_0000);
    SameByte(hi * 0x100, lo / 0x1_0000);
    SameByte(hi * 0x1_0000, lo / 0x100);
    SameByte(hi * 0x100_0000, lo);
  }

  lemma LowQuotients(hi: nat, lo: nat)
    ensures (hi * 0x1_0000_0000 + lo) / 0x100_0000 == hi * 0x100 + lo / 0x100_0000
    ensures (hi * 0x1_0000_0000 + lo) / 0x1_0000 == hi * 0x1_0000 + lo / 0x1_0000
    ensures (hi * 0x1_0000_0000 + lo) / 0x100 == hi * 0x100_0000 + lo / 0x100
  {
  }

  lemma SameByte(a: nat, b: nat)
    ensures (a * 0x100 + b) % 256 == b % 256
  {
  }

  lemma CountGivesLocal(hi: nat, lo: nat, n: nat)
    requires hi * 0x1_0000_0000 + lo == 8 * n
    ensures lo / 8 % 64 == n % SHA_BLOCKSIZE
  {
  }

  /** The hash value after the one or two blocks that hold the live bytes and the padding. */
  function Ending(digest: F.Hash, live: seq<bv8>, field: seq<bv8>): F.Hash
    requires |live| < SHA_BLOCKSIZE && |field| == 8
  {
    if |live| + 1 > SHA_BLOCKSIZE - 8 then
      F.Compress(F.Compress(digest, live + [0x80] + F.Zeros(63 - |live|)), F.Zeros(56) + field)
    else
      F.Compress(digest, live + [0x80] + F.Zeros(55 - |live|) + field)
  }

  lemma Padded(start: F.Hash, m: seq<bv8>, digest: F.Hash, live: seq<bv8>, field: seq<bv8>)
    requires Absorbed(start, m, digest, live) && field == F.LengthField(8 * |m|)
    ensures F.HashBlocks(start, F.Pad(m)) == Ending(digest, live, field)
  {
    PrefixWhole(|m|, |live|);
    PaddedHash(start, m, m[..|m| - |live|], live, field);
  }

  lemma PrefixWhole(n: nat, local: nat)
    requires local == n % SHA_BLOCKSIZE
    ensures (n - local) % SHA_BLOCKSIZE == 0
  {
  }

  lemma PaddedHash(start: F.Hash, m: seq<bv8>, base: seq<bv8>, live: seq<bv8>, field: seq<bv8>)
    requires m == base + live && |live| == |m| % SHA_BLOCKSIZE && |base| % SHA_BLOCKSIZE == 0
    requires field == F.LengthField(8 * |m|)
    ensures F.HashBlocks(start, F.Pad(m)) == Ending(F.HashBlocks(start, base), live, field)
  {
    if |live| + 1 > 56 {
      PadLong(m, base, live, field);
      HashLong(start, base, live, field);
    } else {
      PadShort(m, base, live, field);
      HashShort(start, base, live, field);
    }
  }

  lemma HashShort(start: F.Hash, base: seq<bv8>, live: seq<bv8>, field: seq<bv8>)
    requires |base| % SHA_BLOCKSIZE == 0 && |live| + 1 <= 56 && |field| == 8
    ensures |base + (live + [0x80] + F.Zeros(55 - |live|) + field)| % SHA_BLOCKSIZE == 0
    ensures F.HashBlocks(start, base + (live + [0x80] + F.Zeros(55 - |live|) + field))
         == Ending(F.HashBlocks(start, base), live, field)
  {
    BlockAdded(start, base, live + [0x80] + F.Zeros(55 - |live|) + field);
  }

  lemma HashLong(start: F.Hash, base: seq<bv8>, live: seq<bv8>, field: seq<bv8>)
    requires |base| % SHA_BLOCKSIZE == 0 && 56 < |live| + 1 <= SHA_BLOCKSIZE && |field| == 8
    ensures |base + (live + [0x80] + F.Zeros(63 - |live|)) + (F.Zeros(56) + field)| % SHA_BLOCKSIZE == 0
    ensures F.HashBlocks(start, base + (live + [0x80] + F.Zeros(63 - |live|)) + (F.Zeros(56) + field))
         == Ending(F.HashBlocks(start, base), live, field)
  {
    var block := live + [0x80] + F.Zeros(63 - |live|);
    BlockAdded(start, base, block);
    BlockAdded(start, base + block, F.Zeros(56) + field);
  }

  /** The padded message when its length field still fits the block of the live bytes. */
  lemma PadShort(m: seq<bv8>, base: seq<bv8>, live: seq<bv8>, field: seq<bv8>)
    requires m == base + live && |live| == |m| % SHA_BLOCKSIZE && |live| + 1 <= 56
    requires field == F.LengthField(8 * |m|)
    ensures F.Pad(m) == base + (live + [0x80] + F.Zeros(55 - |live|) + field)
  {
    ZerosNeeded(|m|, |live|);
    Regroup(base, live, [0x80], F.Zeros(55 - |live|), field);
  }

  /** The padded message when it does not. */
  lemma PadLong(m: seq<bv8>, base: seq<bv8>, live: seq<bv8>, field: seq<bv8>)
    requires m == base + live && |live| == |m| % SHA_BLOCKSIZE && |live| + 1 > 56
    requires field == F.LengthField(8 * |m|)
    ensures F.Pad(m) == base + (live + [0x80] + F.Zeros(63 - |live|)) + (F.Zeros(56) + field)
  {
    ZerosNeeded(|m|, |live|);
    RegroupTwo(base, live, [0x80], F.Zeros(63 - |live|), F.Zeros(56), field);
    assert F.Zeros(63 - |live|) + F.Zeros(56) == F.Zeros(119 - |live|);
  }

  lemma ZerosNeeded(n: nat, local: nat)
    requires local == n % SHA_BLOCKSIZE
    ensures F.ZeroBytes(n) == if local < 56 then 55 - local else 119 - local
  {
  }

  lemma Regroup(base: seq<bv8>, live: seq<bv8>, x: seq<bv8>, y: seq<bv8>, z: seq<bv8>)
    ensures base + live + x + y + z == base + (live + x + y + z)
  {
  }

  lemma RegroupTwo(base: seq<bv8>, live: seq<bv8>, x: seq<bv8>, y: seq<bv8>, y2: seq<bv8>, z: seq<bv8>)
    ensures base + live + x + (y + y2) + z == base + (live + x + y) + (y2 + z)
  {
  }

  lemma SliceGrows(m: seq<bv8>, buffer: seq<bv8>, from: nat, mid: nat, end: nat)
    requires from <= mid <= end <= |buffer|
    ensures m + buffer[from..mid] + buffer[mid..end] == m + buffer[from..end]
    ensures from == 0 ==> buffer[from..end] == buffer[..end]
    ensures end == |buffer| ==> buffer[mid..end] == buffer[mid..] && buffer[..end] == buffer
  {
    assert buffer[from..end] == buffer[from..mid] + buffer[mid..end];
  }

  lemma TwoSlices(m: seq<bv8>, buffer: seq<bv8>, idx: nat, end: nat)
    requires idx <= end <= |buffer|
    ensures m + buffer[..idx] + buffer[idx..end] == m + buffer[..end]
    ensures m + buffer[..end] + buffer[end..] == m + buffer
  {
    JoinedSlices(m, buffer[..end], buffer[..idx], buffer[idx..end]);
    JoinedSlices(m, buffer, buffer[..end], buffer[end..]);
  }

  lemma JoinedSlices(m: seq<bv8>, s: seq<bv8>, a: seq<bv8>, b: seq<bv8>)
    requires s == a + b
    ensures m + a + b == m + s
  {
  }

  /** The hash objects `sha256` and, with another start and size, `sha224`. */
  class Sha {
    var sha: ShaInfo

    constructor Sha256(s: seq<bv8>)
      ensures fresh(sha) && fresh(sha.data) && sha.Valid()
      ensures sha.start == SHA256_START && sha.digestsize == 32 && sha.fed == s
    {
      sha := new ShaInfo(SHA256_START, 32);
      new;
      if s != [] {
        sha.Update(s);
      }
    }

    constructor Sha224(s: seq<bv8>)
      ensures fresh(sha) && fresh(sha.data) && sha.Valid()
      ensures sha.start == SHA224_START && sha.digestsize == 28 && sha.fed == s
    {
      sha := new ShaInfo(SHA224_START, 28);
      new;
      if s != [] {
        sha.Update(s);
      }
    }

    method Update(s: seq<bv8>)
      requires sha.Valid()
      modifies sha, sha.data
      ensures sha.Valid() && sha.fed == old(sha.fed) + s
      ensures sha.data == old(sha.data) || fresh(sha.data)
    {
      sha.Update(s);
    }

    /**
      * `digest` finishes a shallow copy. The copy shares the list `data`, and the one cell of that list
      * that it writes is the first one behind the live part, so the object still stands for the same bytes.
      */
    method Digest() returns (r: seq<bv8>)
      requires sha.Valid()
      modifies sha.data
      ensures r == F.Truncated(F.MessageDigest(sha.start, sha.fed), sha.digestsize)
      ensures sha.Valid()
      ensures sha.data[..] == old(sha.data[..])[sha.local := 0x80]
    {
      var copy := new ShaInfo.Copy(sha);
      var dig := copy.Final();
      r := if sha.digestsize <= |dig| then dig[..sha.digestsize] else dig;
    }
  }

  /**
    * Copies are not independent: they share `data`. An update of one of two objects with the same list
    * leaves the other one intact exactly if it happens to write there what was live in the other.
    */
  method SharedUpdate(o: ShaInfo, c: ShaInfo, z: seq<bv8>)
    requires o != c && o.data == c.data && o.Valid() && c.Valid()
    modifies o, o.data
    ensures o.Valid() && o.fed == old(o.fed) + z
    ensures c.data[..] == Written(old(o.data[..]), old(o.local), z)
    ensures c.Valid() <==> Written(old(o.data[..]), old(o.local), z)[..c.local] == old(c.data[..c.local])
  {
    o.Update(z);
    assert c.data[..c.local] == c.data[..][..c.local];
  }

  /**
    * A copy that is never fed again survives an update of its original exactly if the update does not
    * fill the block, or fills another one as well, or puts the same bytes at the start of the list again.
    */
  lemma NeverFedAgain(list: seq<bv8>, local: nat, z: seq<bv8>)
    requires |list| == SHA_BLOCKSIZE && local < SHA_BLOCKSIZE
    ensures var room := SHA_BLOCKSIZE - local;
      Written(list, local, z)[..local] == list[..local] <==>
      (|z| < room || |z| >= room + SHA_BLOCKSIZE ||
       forall i :: 0 <= i < |z| - room && i < local ==> z[room + i] == list[i])
  {
    var room := SHA_BLOCKSIZE - local;
    var w := Written(list, local, z);
    if room <= |z| < room + SHA_BLOCKSIZE && local > 0 {
      forall i | 0 <= i < local
        ensures w[i] == if i < |z| - room then z[room + i] else list[i]
      {
        assert z[room..][..|z| - room] == z[room..];
      }
      assert w[..local] == list[..local] ==> forall i :: 0 <= i < local ==> w[..local][i] == list[..local][i];
    }
  }

  /**
    * `digest` feeds nothing, but it writes the byte 0x80 behind the live part of the list. An object that
    * shares the list survives exactly if it has no live byte there, or has that very byte.
    */
  method SharedDigest(o: Sha, c: ShaInfo) returns (r: seq<bv8>)
    requires o.sha != c && o.sha.data == c.data && o.sha.Valid() && c.Valid()
    modifies o.sha.data
    ensures r == F.Truncated(F.MessageDigest(o.sha.start, o.sha.fed), o.sha.digestsize)
    ensures o.sha.Valid() && c.data[..] == old(c.data[..])[o.sha.local := 0x80]
    ensures c.Valid() <==> c.local <= o.sha.local || old(c.data[o.sha.local]) == 0x80
  {
    ghost var list := c.data[..];
    assert c.data[..c.local] == list[..c.local];
    r := o.Digest();
    assert c.data[..c.local] == c.data[..][..c.local];
    MarkedPrefix(list, o.sha.local, c.local);
  }

  lemma MarkedPrefix(list: seq<bv8>, k: nat, n: nat)
    requires k < |list| && n <= |list|
    ensures list[k := 0x80][..n] == list[..n] <==> n <= k || list[k] == 0x80
  {
    if n > k {
      assert list[k := 0x80][..n][k] == 0x80 && list[..n][k] == list[k];
    }
  }

  lemma ShortMessage(start: F.Hash, m: seq<bv8>, digest: seq<bv32>, live: seq<bv8>)
    requires |m| < SHA_BLOCKSIZE
    ensures Absorbed(start, m, digest, live) <==> live == m && digest == start
  {
    assert |m| == |live| ==> m[..|m| - |live|] == [];
  }

  /**
    * For instance, a copy that was fed the bytes x and y holds x and z once its original was fed z too,
    * and goes on as if z was what it had been fed.
    */
  method SharedCopy(x: bv8, y: bv8, z: bv8) returns (copy: ShaInfo)
    ensures copy.fed == [x, y] && copy.start == SHA256_START && copy.Buffered([x, z])
    ensures copy.Valid() <==> y == z
  {
    var original := new ShaInfo(SHA256_START, 32);
    original.Update([x]);
    copy := new ShaInfo.Copy(original);
    FeedBoth(original, copy, x, y, z);
  }

  method FeedBoth(original: ShaInfo, copy: ShaInfo, x: bv8, y: bv8, z: bv8)
    requires original != copy && original.data == copy.data && original.start == copy.start
    requires original.Valid() && original.fed == [x] && copy.Valid() && copy.fed == [x]
    modifies original, copy, original.data
    ensures copy.fed == [x, y] && copy.Buffered([x, z]) && (copy.Valid() <==> y == z)
  {
    ShortMessage(original.start, [x], original.digest, original.data[..original.local]);
    FeedCopy(copy, x, y);
    assert original.data[..1] == copy.data[..2][..1];
    FeedOriginal(original, copy, x, y, z);
  }

  method FeedOriginal(original: ShaInfo, copy: ShaInfo, x: bv8, y: bv8, z: bv8)
    requires original != copy && original.data == copy.data && original.Valid() && original.local == 1
    requires copy.Valid() && copy.fed == [x, y]
    modifies original, original.data
    ensures copy.Buffered([x, z]) && (copy.Valid() <==> y == z)
  {
    ShortMessage(copy.start, [x, y], copy.digest, copy.data[..copy.local]);
    ghost var list := original.data[..];
    assert list[..2] == [x, y];
    SharedUpdate(original, copy, [z]);
    WrittenNext(list, x, y, z);
    assert copy.data[..2] == copy.data[..][..2];
    ShortMessage(copy.start, [x, z], copy.digest, copy.data[..2]);
  }

  /** One byte after another goes to the next cell of the same list. */
  method FeedCopy(copy: ShaInfo, x: bv8, y: bv8)
    requires copy.Valid() && copy.fed == [x]
    modifies copy, copy.data
    ensures copy.Valid() && copy.fed == [x, y] && copy.data == old(copy.data)
    ensures copy.local == 2 && copy.data[..2] == [x, y] && copy.digest == copy.start
    ensures old(copy.local) == 1 && old(copy.digest) == copy.start
  {
    ShortMessage(copy.start, [x], copy.digest, copy.data[..copy.local]);
    copy.Update([y]);
    assert copy.fed == [x, y];
    ShortMessage(copy.start, [x, y], copy.digest, copy.data[..copy.local]);
  }

  /** For instance, a copy that was fed the bytes x and y holds x and 0x80 once its original was asked for a digest. */
  method DigestedOriginal(x: bv8, y: bv8) returns (copy: ShaInfo)
    ensures copy.fed == [x, y] && copy.start == SHA256_START && copy.Buffered([x, 0x80])
    ensures copy.Valid() <==> y == 0x80
  {
    var original := new Sha.Sha256([x]);
    copy := new ShaInfo.Copy(original.sha);
    DigestBetween(original, copy, x, y);
  }

  method DigestBetween(original: Sha, copy: ShaInfo, x: bv8, y: bv8)
    requires original.sha != copy && original.sha.data == copy.data && original.sha.start == copy.start
    requires original.sha.Valid() && original.sha.fed == [x] && copy.Valid() && copy.fed == [x]
    modifies copy, copy.data
    ensures copy.fed == [x, y] && copy.Buffered([x, 0x80]) && (copy.Valid() <==> y == 0x80)
  {
    ShortMessage(original.sha.start, [x], original.sha.digest, original.sha.data[..original.sha.local]);
    FeedCopy(copy, x, y);
    assert original.sha.data[..1] == copy.data[..2][..1];
    DigestOriginal(original, copy, x, y);
  }

  method DigestOriginal(original: Sha, copy: ShaInfo, x: bv8, y: bv8)
    requires original.sha != copy && original.sha.data == copy.data
    requires original.sha.Valid() && original.sha.local == 1 && copy.Valid() && copy.fed == [x, y]
    modifies copy.data
    ensures copy.Buffered([x, 0x80]) && (copy.Valid() <==> y == 0x80)
  {
    ShortMessage(copy.start, [x, y], copy.digest, copy.data[..copy.local]);
    assert copy.data[1] == copy.data[..2][1];
    ghost var list := copy.data[..];
    var _ := SharedDigest(original, copy);
    SecondReplaced(list, x, y);
    assert copy.data[..2] == copy.data[..][..2];
    ShortMessage(copy.start, [x, 0x80], copy.digest, copy.data[..2]);
  }

  lemma SecondReplaced(list: seq<bv8>, x: bv8, y: bv8)
    requires |list| == SHA_BLOCKSIZE && list[..2] == [x, y]
    ensures list[1 := 0x80][..2] == [x, 0x80]
  {
    assert list[0] == list[..2][0];
  }

  lemma WrittenNext(list: seq<bv8>, x: bv8, y: bv8, z: bv8)
    requires |list| == SHA_BLOCKSIZE && list[..2] == [x, y]
    ensures Written(list, 1, [z])[..2] == [x, z]
    ensures [x, y] == [x, z] <==> y == z
  {
    assert list[0] == list[..2][0];
    assert [x, y][1] == y && [x, z][1] == z;
  }
}
