/** Reading is decided by the bytes that are read: more input changes nothing, and less is an end of file. */
module MarshalPrefixes {
  import opened Wrappers
  import opened MarshalValues
  import opened MarshalFormats
  import opened MarshalReaders
  import MarshalRoundTrips

  /** What is read from the longer input is what was read before, unless that ended too early. */
  predicate Decided<T(==)>(before: Read<T>, after: Read<T>) {
    before == after || before == Err(IndexError) || before == Err(EofError)
  }

  lemma FixedDecided(buf: Bytes, all: Bytes, p: nat, n: nat)
    requires buf <= all
    ensures Decided(Fixed(Fast, buf, p, n), Fixed(Fast, all, p, n))
  {
    if p + n <= |buf| {
      assert buf[p..p + n] == all[p..p + n];
    }
  }

  lemma TextDecided(buf: Bytes, all: Bytes, p: nat, n: int)
    requires buf <= all
    ensures Decided(ReadText(Fast, buf, p, n), ReadText(Fast, all, p, n))
  {
    if 0 <= n && p + n <= |buf| {
      assert Slice(buf, p, n) == Slice(all, p, n);
    }
  }

  lemma {:induction false} DigitsDecided(buf: Bytes, all: Bytes, p: nat, x: int, i: nat, n: nat)
    requires buf <= all && i <= n
    ensures Decided(ReadDigits(Fast, buf, p, x, i, n), ReadDigits(Fast, all, p, x, i, n))
    decreases n - i
  {
    if i < n {
      FixedDecided(buf, all, p, 2);
      var d := ReadShort(Fast, buf, p);
      if d.Ok? {
        DigitsDecided(buf, all, d.value.1, OrDigit(x, d.value.0, i), i + 1, n);
      }
    }
  }

  lemma BigIntDecided(buf: Bytes, all: Bytes, p: nat)
    requires buf <= all
    ensures Decided(ReadBigInt(Fast, buf, p), ReadBigInt(Fast, all, p))
  {
    FixedDecided(buf, all, p, 4);
    var size := ReadLong(Fast, buf, p);
    if size.Ok? {
      var n := size.value.0;
      DigitsDecided(buf, all, size.value.1, 0, 0, if n < 0 then -n else n);
    }
  }

  /** The fast reader on an input and on a longer one, well-formed or not. */
  lemma {:induction false} LoadDecided(buf: Bytes, all: Bytes, p: nat)
    requires buf <= all
    ensures Load(Fast, buf, p) == Load(Fast, all, p) || Load(Fast, buf, p) == Err(EofError)
    decreases |buf| - p, 1, 0
  {
    if p < |buf| {
      TaggedDecided(buf, all, buf[p], p + 1);
    }
  }

  lemma {:induction false} TaggedDecided(buf: Bytes, all: Bytes, tag: Byte, p: nat)
    requires buf <= all && p <= |buf|
    ensures Decided(LoadTagged(Fast, buf, tag, p), LoadTagged(Fast, all, tag, p))
    decreases |buf| - p, 4, 0
  {
    if tag in [TYPE_TUPLE, TYPE_LIST, TYPE_SET, TYPE_FROZENSET] {
      CountedDecided(buf, all, p);
    } else if tag == TYPE_DICT {
      PairsDecided(buf, all, p, []);
    } else if tag == TYPE_LONG {
      BigIntDecided(buf, all, p);
    } else if tag == TYPE_STRING {
      FixedDecided(buf, all, p, 4);
      var n := ReadLong(Fast, buf, p);
      if n.Ok? {
        TextDecided(buf, all, n.value.1, n.value.0);
      }
    } else {
      FixedDecided(buf, all, p, 4);
      FixedDecided(buf, all, p, 8);
    }
  }

  lemma {:induction false} CountedDecided(buf: Bytes, all: Bytes, p: nat)
    requires buf <= all && p <= |buf|
    ensures Decided(LoadCounted(Fast, buf, p), LoadCounted(Fast, all, p))
    decreases |buf| - p, 3, 0
  {
    FixedDecided(buf, all, p, 4);
    var n := ReadLong(Fast, buf, p);
    if n.Ok? {
      ItemsDecided(buf, all, n.value.1, if n.value.0 < 0 then 0 else n.value.0);
    }
  }

  lemma {:induction false} ItemsDecided(buf: Bytes, all: Bytes, p: nat, n: nat)
    requires buf <= all && p <= |buf|
    ensures Decided(LoadItems(Fast, buf, p, n), LoadItems(Fast, all, p, n))
    decreases |buf| - p, 2, n
  {
    if n > 0 {
      LoadDecided(buf, all, p);
      var v := Load(Fast, buf, p);
      if v.Ok? {
        ItemsDecided(buf, all, v.value.1, n - 1);
      }
    }
  }

  lemma {:induction false} PairsDecided(buf: Bytes, all: Bytes, p: nat, d: seq<Pair>)
    requires buf <= all && p <= |buf|
    ensures Decided(LoadPairs(Fast, buf, p, d), LoadPairs(Fast, all, p, d))
    decreases |buf| - p, 2, 0
  {
    LoadDecided(buf, all, p);
    var k := Load(Fast, buf, p);
    if k.Ok? && k.value.0 != Null {
      LoadDecided(buf, all, k.value.1);
      var v := Load(Fast, buf, k.value.1);
      if v.Ok? {
        PairsDecided(buf, all, v.value.1, Insert(d, k.value.0, v.value.0));
      }
    }
  }

  /** A dump that is cut short anywhere is an end of file, and nothing else. */
  lemma TruncatedDump(v: Value, k: nat)
    requires MarshalRoundTrips.Supported(v) && k < |Enc(v)|
    ensures Load(Fast, Enc(v)[..k], 0) == Err(EofError)
  {
    MarshalRoundTrips.LoadsDumps(Fast, v, []);
    assert Enc(v) + [] == Enc(v);
    LoadDecided(Enc(v)[..k], Enc(v), 0);
  }

  // Input that no dump is.

  /** A byte that is no tag is refused. */
  lemma UnknownTag(m: Mode, tag: Byte, rest: Bytes)
    requires tag as char !in "0NFTS.ifxIlstR([{cu<>"
    ensures Load(m, [tag] + rest, 0) == Err(ValueError)
  {
  }

  /**
    * A set of any items that can be written, whether or not they are a set: each one once, the first of equal
    * ones; but TypeError if one of them is not hashable.
    */
  lemma SetOfAny(m: Mode, items: seq<Value>, rest: Bytes)
    requires |items| < TWO31 && MarshalRoundTrips.AllSupported(items)
    ensures var (w, norm) := ([TYPE_SET] + Long32(|items|) + EncItems(items), MarshalRoundTrips.NormItems(items));
      Load(m, w + rest, 0) ==
        if AllHashable(items) then Ok((PySet(Distinct([], norm)), |w|)) else Err(TypeError)
  {
    var w := [TYPE_SET] + Long32(|items|) + EncItems(items);
    var buf := w + rest;
    assert buf[0..0 + |w|] == w && buf[0] == w[0] == TYPE_SET;
    MarshalRoundTrips.CountedRoundTrip(m, buf, 0, TYPE_SET, items);
    MarshalRoundTrips.NormItemsEqual(items);
  }

  lemma {:induction false} DistinctKeys(s: seq<Value>, vs: seq<Value>)
    requires MarshalRoundTrips.NoDuplicates(s)
    ensures MarshalRoundTrips.NoDuplicates(Distinct(s, vs))
    ensures ElementsOf(Distinct(s, vs)) == ElementsOf(s) + ElementsOf(vs)
    decreases |vs|
  {
    if vs != [] {
      MarshalRoundTrips.ElementsSnoc(s, vs[0]);
      if KeyOf(vs[0]) !in ElementsOf(s) {
        OneMoreKey(s, vs[0]);
      }
      DistinctKeys(AddItem(s, vs[0]), vs[1..]);
    }
  }

  lemma {:induction false} OneMoreKey(s: seq<Value>, v: Value)
    requires MarshalRoundTrips.NoDuplicates(s) && KeyOf(v) !in ElementsOf(s)
    ensures MarshalRoundTrips.NoDuplicates(s + [v])
  {
    if s != [] {
      OneMoreKey(s[1..], v);
      MarshalRoundTrips.ElementsSnoc(s[1..], v);
      assert (s + [v])[1..] == s[1..] + [v];
    }
  }

  function Lookup(d: seq<Pair>, key: Key): Option<Value> {
    if d == [] then None else if KeyOf(d[0].key) == key then Some(d[0].val) else Lookup(d[1..], key)
  }

  /** A key that comes again has the later value. */
  lemma {:induction false} InsertedLast(d: seq<Pair>, k: Value, v: Value, key: Key)
    ensures Lookup(Insert(d, k, v), key) == if KeyOf(k) == key then Some(v) else Lookup(d, key)
  {
    if d != [] && KeyOf(d[0].key) != KeyOf(k) {
      InsertedLast(d[1..], k, v, key);
    }
  }

  // The bytes.

  /** The bytes of a number, the first one the least significant. */
  function Sum(w: Bytes): nat {
    if w == [] then 0 else w[0] + 256 * Sum(w[1..])
  }

  lemma SumOf(a: Byte, b: Byte, w: Bytes)
    ensures Sum([a, b] + w) == a + 256 * b + 0x1_0000 * Sum(w)
  {
    assert ([a, b] + w)[1..] == [b] + w && ([b] + w)[1..] == w;
  }

  lemma SumOfFour(w: Bytes, rest: Bytes)
    requires |w| == 4
    ensures Sum(w + rest) == Unsigned32(w) + TWO32 * Sum(rest)
  {
    assert w + rest == [w[0], w[1]] + ([w[2], w[3]] + rest);
    SumOf(w[0], w[1], [w[2], w[3]] + rest);
    SumOf(w[2], w[3], rest);
  }

  /** Integers are written in two's complement, the least significant byte first. */
  lemma LittleEndian(x: int)
    ensures Sum(Short16(x)) == x % TWO16 && Sum(Long32(x)) == x % TWO32 && Sum(Long64(x)) == x % TWO64
  {
    ShortSum(x);
    LongSum(x);
    LongSum(x / TWO32);
    SumOfFour(Long32(x), Long32(x / TWO32));
    MarshalRoundTrips.Long32Value(x);
    HighAndLow(x, x / TWO32, x % TWO32);
  }

  lemma ShortSum(x: int)
    ensures Sum(Short16(x)) == x % TWO16
  {
    var lo, hi := x % 256, x / 256;
    SumOf(lo, hi % 256, []);
    assert Short16(x) == [lo, hi % 256] + [];
    assert x == 256 * hi + lo && hi == 256 * (hi / 256) + hi % 256;
  }

  lemma LongSum(x: int)
    ensures Sum(Long32(x)) == x % TWO32
  {
    MarshalRoundTrips.Long32Value(x);
    SumOfFour(Long32(x), []);
    assert Long32(x) + [] == Long32(x);
  }

  lemma HighAndLow(x: int, high: int, low: int)
    requires x == TWO32 * high + low && 0 <= low < TWO32
    ensures x % TWO64 == low + TWO32 * (high % TWO32)
  {
    var k := high / TWO32;
    assert x == TWO64 * k + (low + TWO32 * (high % TWO32));
  }

  /** They are read back modulo the same power, and with the sign. */
  lemma SignedBytes(w: Bytes)
    ensures |w| == 2 ==> (Signed16(w) - Sum(w)) % TWO16 == 0 && -TWO16 / 2 <= Signed16(w) < TWO16 / 2
    ensures |w| == 4 ==> (Signed32(w) - Sum(w)) % TWO32 == 0 && -TWO31 <= Signed32(w) < TWO31
    ensures |w| == 8 ==> (Signed64(w) - Sum(w)) % TWO64 == 0 && -TWO63 <= Signed64(w) < TWO63
  {
    if |w| == 2 {
      SumOf(w[0], w[1], []);
      assert w == [w[0], w[1]] + [];
    } else if |w| == 4 {
      SumOfFour(w, []);
      assert w + [] == w;
    } else if |w| == 8 {
      SumOfFour(w[..4], w[4..]);
      SumOfFour(w[4..], []);
      assert w == w[..4] + w[4..] && w[4..] + [] == w[4..];
    }
  }

  /** The first byte of a dump says the type. */
  lemma Tagged(v: Value)
    ensures Enc(v)[0] as char == match v
      case Null => '0'
      case PyNone => 'N'
      case StopIter => 'S'
      case PyEllipsis => '.'
      case Bool(b) => if b then 'T' else 'F'
      case Int(i) => if -TWO31 <= i < TWO31 then 'i' else 'I'
      case Long(_) => 'l'
      case Str(_) => 's'
      case Tuple(_) => '('
      case List(_) => '['
      case Dict(_) => '{'
      case PySet(_) => '<'
      case FrozenSet(_) => '>'
  {
  }
}
