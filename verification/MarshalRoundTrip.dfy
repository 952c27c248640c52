/** Loading what has been dumped, and the two readers against each other. */
module MarshalRoundTrips {
  import opened Wrappers
  import opened MarshalValues
  import opened MarshalFormats
  import opened MarshalReaders

  /** The bytes `w` are at position `p` of `buf`. */
  predicate At(buf: Bytes, p: nat, w: Bytes) {
    p + |w| <= |buf| && buf[p..p + |w|] == w
  }

  lemma AtSplit(buf: Bytes, p: nat, v: Bytes, w: Bytes)
    requires At(buf, p, v + w)
    ensures At(buf, p, v) && At(buf, p + |v|, w)
  {
    assert buf[p..p + |v|] == buf[p..p + |v + w|][..|v|] == v;
    assert buf[p + |v|..p + |v| + |w|] == buf[p..p + |v + w|][|v|..] == w;
  }

  // Integers

  lemma Long32Value(x: int)
    ensures Unsigned32(Long32(x)) == x % TWO32
  {
    var x1 := x / 256;
    var x2 := x1 / 256;
    var x3 := x2 / 256;
    assert x == 256 * x1 + x % 256;
    assert x1 == 256 * x2 + x1 % 256;
    assert x2 == 256 * x3 + x2 % 256;
    assert x3 == 256 * (x3 / 256) + x3 % 256;
    assert x == TWO32 * (x3 / 256) + Unsigned32(Long32(x));
  }

  /** 32-bit integers survive with their sign. */
  lemma Long32RoundTrip(x: int)
    requires -TWO31 <= x < TWO31
    ensures Signed32(Long32(x)) == x
  {
    Long32Value(x);
    if x < 0 {
      assert x % TWO32 == x + TWO32;
    }
  }

  lemma Long64RoundTrip(x: int)
    requires -TWO63 <= x < TWO63
    ensures Signed64(Long64(x)) == x
  {
    var lo, hi := Long32(x), Long32(x / TWO32);
    assert Long64(x)[..4] == lo && Long64(x)[4..] == hi;
    Long32Value(x);
    Long32Value(x / TWO32);
  }

  lemma Short16RoundTrip(x: int)
    requires 0 <= x < TWO15
    ensures Signed16(Short16(x)) == x
  {
  }

  /** The number whose digits base 2^15 are `ds`. */
  function Sum(ds: seq<int>): int {
    if ds == [] then 0 else ds[0] + TWO15 * Sum(ds[1..])
  }

  lemma {:induction false} SumOfDigits(x: nat)
    ensures Sum(Digits(x)) == x
    ensures forall k :: 0 <= k < |Digits(x)| ==> 0 <= Digits(x)[k] < TWO15
  {
    if x != 0 {
      SumOfDigits(x / TWO15);
      assert Digits(x)[1..] == Digits(x / TWO15);
      assert forall k :: 1 <= k < |Digits(x)| ==> Digits(x)[k] == Digits(x / TWO15)[k - 1];
    }
  }

  lemma {:induction false} ShortsLength(ds: seq<int>)
    ensures |Shorts(ds)| == 2 * |ds|
  {
    if ds != [] {
      ShortsLength(ds[1..]);
    }
  }

  lemma FixedAt(m: Mode, buf: Bytes, p: nat, w: Bytes)
    requires At(buf, p, w)
    ensures Fixed(m, buf, p, |w|) == Ok((w, p + |w|))
  {
  }

  lemma AddDigit(x: int, d: int, s: int, i: nat)
    ensures x + d * Power(i) + s * Power(i + 1) == x + (d + TWO15 * s) * Power(i)
  {
    assert s * (TWO15 * Power(i)) == TWO15 * s * Power(i);
  }

  lemma {:induction false} ReadDigitsOf(m: Mode, buf: Bytes, p: nat, x: int, i: nat, ds: seq<int>)
    requires At(buf, p, Shorts(ds)) && 0 <= x
    requires forall k :: 0 <= k < |ds| ==> 0 <= ds[k] < TWO15
    ensures ReadDigits(m, buf, p, x, i, i + |ds|) == Ok((x + Sum(ds) * Power(i), p + 2 * |ds|))
    decreases |ds|
  {
    if ds != [] {
      var d := ds[0];
      AtSplit(buf, p, Short16(d), Shorts(ds[1..]));
      FixedAt(m, buf, p, Short16(d));
      Short16RoundTrip(d);
      assert 0 <= d * Power(i);
      ReadDigitsOf(m, buf, p + 2, x + d * Power(i), i + 1, ds[1..]);
      AddDigit(x, d, Sum(ds[1..]), i);
    }
  }

  lemma LongAt(m: Mode, buf: Bytes, p: nat, i: int)
    requires -TWO31 <= i < TWO31 && At(buf, p, Long32(i))
    ensures ReadLong(m, buf, p) == Ok((i, p + 4))
  {
    FixedAt(m, buf, p, Long32(i));
    Long32RoundTrip(i);
  }

  lemma BigIntHead(m: Mode, buf: Bytes, p: nat, ds: seq<int>, size: int)
    requires -TWO31 <= size < TWO31 && At(buf, p, [TYPE_LONG] + Long32(size) + Shorts(ds))
    ensures ReadLong(m, buf, p + 1) == Ok((size, p + 5)) && At(buf, p + 5, Shorts(ds))
  {
    assert [TYPE_LONG] + Long32(size) + Shorts(ds) == [TYPE_LONG] + (Long32(size) + Shorts(ds));
    AtSplit(buf, p, [TYPE_LONG], Long32(size) + Shorts(ds));
    AtSplit(buf, p + 1, Long32(size), Shorts(ds));
    LongAt(m, buf, p + 1, size);
  }

  /** Unbounded integers survive, up to a number of digits that fits 32 bits. */
  lemma BigIntRoundTrip(m: Mode, buf: Bytes, p: nat, x: int)
    requires At(buf, p, EncLong(x))
    requires |Digits(if x < 0 then -x else x)| < TWO31
    ensures ReadBigInt(m, buf, p + 1) == Ok((x, p + |EncLong(x)|))
  {
    var ds := Digits(if x < 0 then -x else x);
    BigIntHead(m, buf, p, ds, if x < 0 then -|ds| else |ds|);
    SumOfDigits(if x < 0 then -x else x);
    ShortsLength(ds);
    ReadDigitsOf(m, buf, p + 5, 0, 0, ds);
  }

  // Values

  /** The value that is loaded for `v`: integers beyond 32 bits come back as longs. */
  function Norm(v: Value): Value {
    match v
    case Int(i) => if -TWO31 <= i < TWO31 then Int(i) else Long(i)
    case Tuple(items) => Tuple(NormItems(items))
    case List(items) => List(NormItems(items))
    case Dict(pairs) => Dict(NormPairs(pairs))
    case PySet(items) => PySet(NormItems(items))
    case FrozenSet(items) => FrozenSet(NormItems(items))
    case _ => v
  }

  function NormItems(vs: seq<Value>): (r: seq<Value>)
    ensures |r| == |vs|
  {
    if vs == [] then [] else [Norm(vs[0])] + NormItems(vs[1..])
  }

  function NormPairs(ps: seq<Pair>): (r: seq<Pair>)
    ensures |r| == |ps|
  {
    if ps == [] then [] else [NormPair(ps[0])] + NormPairs(ps[1..])
  }

  function NormPair(p: Pair): Pair {
    Pair(Norm(p.key), Norm(p.val))
  }

  /** No two elements are equal, as in a set. */
  predicate NoDuplicates(vs: seq<Value>) {
    vs == [] || (KeyOf(vs[0]) !in ElementsOf(vs[1..]) && NoDuplicates(vs[1..]))
  }

  /** The keys are hashable and no two are equal, as in a dictionary. */
  predicate WellKeyed(ps: seq<Pair>) {
    ps == [] || (Hashable(ps[0].key) && KeyOf(ps[0].key) !in KeysOfPairs(ps[1..]) && WellKeyed(ps[1..]))
  }

  /** The values that the format can hold: no marker, 64-bit ints, lengths that fit 32 bits. */
  predicate Supported(v: Value) {
    match v
    case Null => false
    case Int(i) => -TWO63 <= i < TWO63
    case Long(i) => |Digits(if i < 0 then -i else i)| < TWO31
    case Str(s) => |s| < TWO31
    case Tuple(items) => |items| < TWO31 && AllSupported(items)
    case List(items) => |items| < TWO31 && AllSupported(items)
    case Dict(pairs) => WellKeyed(pairs) && PairsSupported(pairs)
    case PySet(items) => |items| < TWO31 && AllSupported(items) && AllHashable(items) && NoDuplicates(items)
    case FrozenSet(items) => |items| < TWO31 && AllSupported(items) && AllHashable(items) && NoDuplicates(items)
    case _ => true
  }

  predicate AllSupported(vs: seq<Value>) {
    vs == [] || (Supported(vs[0]) && AllSupported(vs[1..]))
  }

  predicate PairsSupported(ps: seq<Pair>) {
    ps == [] || (PairSupported(ps[0]) && PairsSupported(ps[1..]))
  }

  predicate PairSupported(p: Pair) {
    Supported(p.key) && Supported(p.val)
  }

  /** What is loaded equals what was dumped, as Python's `==` sees it. */
  lemma {:induction false} NormEqual(v: Value)
    ensures KeyOf(Norm(v)) == KeyOf(v)
    ensures Hashable(Norm(v)) <==> Hashable(v)
    decreases v
  {
    match v {
      case Tuple(items) => NormItemsEqual(items);
      case List(items) => NormItemsEqual(items);
      case Dict(pairs) => NormPairsEqual(pairs);
      case PySet(items) => NormItemsEqual(items);
      case FrozenSet(items) => NormItemsEqual(items);
      case _ =>
    }
  }

  lemma {:induction false} NormItemsEqual(vs: seq<Value>)
    ensures KeysOf(NormItems(vs)) == KeysOf(vs)
    ensures ElementsOf(NormItems(vs)) == ElementsOf(vs)
    ensures AllHashable(NormItems(vs)) <==> AllHashable(vs)
    ensures NoDuplicates(NormItems(vs)) <==> NoDuplicates(vs)
    decreases vs
  {
    if vs != [] {
      NormEqual(vs[0]);
      NormItemsEqual(vs[1..]);
      assert NormItems(vs)[1..] == NormItems(vs[1..]);
    }
  }

  lemma {:induction false} NormPairsEqual(ps: seq<Pair>)
    ensures EntriesOf(NormPairs(ps)) == EntriesOf(ps)
    ensures KeysOfPairs(NormPairs(ps)) == KeysOfPairs(ps)
    decreases ps
  {
    if ps != [] {
      NormPairEqual(ps[0]);
      NormPairsEqual(ps[1..]);
      assert NormPairs(ps)[1..] == NormPairs(ps[1..]);
    }
  }

  lemma {:induction false} NormPairEqual(p: Pair)
    ensures EntryOf(NormPair(p)) == EntryOf(p)
    ensures KeyOf(NormPair(p).key) == KeyOf(p.key)
    decreases p
  {
    NormEqual(p.key);
    NormEqual(p.val);
  }

  // Sets and dictionaries

  lemma {:induction false} ElementsSnoc(vs: seq<Value>, v: Value)
    ensures ElementsOf(vs + [v]) == ElementsOf(vs) + {KeyOf(v)}
  {
    if vs != [] {
      assert (vs + [v])[1..] == vs[1..] + [v];
      ElementsSnoc(vs[1..], v);
    } else {
      assert [v][1..] == [];
    }
  }

  /** Putting elements without duplicates into a set keeps them all. */
  lemma {:induction false} DistinctAll(s: seq<Value>, vs: seq<Value>)
    requires NoDuplicates(vs) && ElementsOf(s) !! ElementsOf(vs)
    ensures Distinct(s, vs) == s + vs
    decreases |vs|
  {
    if vs != [] {
      ElementsSnoc(s, vs[0]);
      DistinctAll(s + [vs[0]], vs[1..]);
      assert s + [vs[0]] + vs[1..] == s + vs;
    }
  }

  lemma {:induction false} KeysOfPairsSnoc(ps: seq<Pair>, p: Pair)
    ensures KeysOfPairs(ps + [p]) == KeysOfPairs(ps) + {KeyOf(p.key)}
  {
    if ps != [] {
      assert (ps + [p])[1..] == ps[1..] + [p];
      KeysOfPairsSnoc(ps[1..], p);
    } else {
      assert [p][1..] == [];
    }
  }

  lemma {:induction false} InsertNew(d: seq<Pair>, k: Value, v: Value)
    requires KeyOf(k) !in KeysOfPairs(d)
    ensures Insert(d, k, v) == d + [Pair(k, v)]
    decreases |d|
  {
    if d != [] {
      InsertNew(d[1..], k, v);
      assert [d[0]] + (d[1..] + [Pair(k, v)]) == d + [Pair(k, v)];
    }
  }

  // Whole values

  /**
   Loading at the encoding of a value gives that value, up to the type of large integers,
   and stops right behind the encoding; with either reader, whatever follows.
   */
  lemma {:induction false} RoundTrip(m: Mode, buf: Bytes, p: nat, v: Value)
    requires Supported(v) && At(buf, p, Enc(v))
    ensures Load(m, buf, p) == Ok((Norm(v), p + |Enc(v)|))
    decreases v, 4
  {
    assert buf[p] == buf[p..p + |Enc(v)|][0] == Enc(v)[0];
    if Scalar(v) {
      ScalarRoundTrip(m, buf, p, v);
    } else if v.Tuple? || v.List? {
      ListRoundTrip(m, buf, p, v);
    } else {
      HashedRoundTrip(m, buf, p, v);
    }
  }

  lemma {:induction false} ListRoundTrip(m: Mode, buf: Bytes, p: nat, v: Value)
    requires (v.Tuple? || v.List?) && Supported(v) && At(buf, p, Enc(v)) && buf[p] == Enc(v)[0]
    ensures LoadTagged(m, buf, buf[p], p + 1) == Ok((Norm(v), p + |Enc(v)|))
    decreases v, 3
  {
    match v {
      case Tuple(items) => CountedRoundTrip(m, buf, p, TYPE_TUPLE, items);
      case List(items) => CountedRoundTrip(m, buf, p, TYPE_LIST, items);
    }
  }

  lemma {:induction false} HashedRoundTrip(m: Mode, buf: Bytes, p: nat, v: Value)
    requires (v.PySet? || v.FrozenSet? || v.Dict?) && Supported(v) && At(buf, p, Enc(v)) && buf[p] == Enc(v)[0]
    ensures LoadTagged(m, buf, buf[p], p + 1) == Ok((Norm(v), p + |Enc(v)|))
    decreases v, 3
  {
    match v {
      case PySet(items) => SetRoundTrip(m, buf, p, TYPE_SET, items);
      case FrozenSet(items) => SetRoundTrip(m, buf, p, TYPE_FROZENSET, items);
      case Dict(pairs) => DictRoundTrip(m, buf, p, pairs);
    }
  }

  lemma {:induction false} DictRoundTrip(m: Mode, buf: Bytes, p: nat, pairs: seq<Pair>)
    requires WellKeyed(pairs) && PairsSupported(pairs) && At(buf, p, [TYPE_DICT] + EncPairs(pairs))
    ensures LoadPairs(m, buf, p + 1, []) == Ok((NormPairs(pairs), p + 1 + |EncPairs(pairs)|))
    decreases pairs, 1
  {
    AtSplit(buf, p, [TYPE_DICT], EncPairs(pairs));
    assert [] + NormPairs(pairs) == NormPairs(pairs);
    PairsRoundTrip(m, buf, p + 1, [], pairs, NormPairs(pairs), p + 1 + |EncPairs(pairs)|);
  }

  predicate Scalar(v: Value) {
    !v.Tuple? && !v.List? && !v.Dict? && !v.PySet? && !v.FrozenSet?
  }

  lemma ScalarRoundTrip(m: Mode, buf: Bytes, p: nat, v: Value)
    requires Scalar(v) && Supported(v) && At(buf, p, Enc(v)) && buf[p] == Enc(v)[0]
    ensures LoadTagged(m, buf, buf[p], p + 1) == Ok((Norm(v), p + |Enc(v)|))
  {
    match v {
      case Int(i) => IntRoundTrip(m, buf, p, i);
      case Long(i) => BigIntRoundTrip(m, buf, p, i);
      case Str(s) => StrRoundTrip(m, buf, p, s);
      case _ =>
    }
  }

  lemma IntRoundTrip(m: Mode, buf: Bytes, p: nat, i: int)
    requires -TWO63 <= i < TWO63 && At(buf, p, EncInt(i)) && buf[p] == EncInt(i)[0]
    ensures LoadTagged(m, buf, buf[p], p + 1) == Ok((Norm(Int(i)), p + |EncInt(i)|))
  {
    if -TWO31 <= i < TWO31 {
      AtSplit(buf, p, [TYPE_INT], Long32(i));
      FixedAt(m, buf, p + 1, Long32(i));
      Long32RoundTrip(i);
    } else {
      AtSplit(buf, p, [TYPE_INT64], Long64(i));
      FixedAt(m, buf, p + 1, Long64(i));
      Long64RoundTrip(i);
    }
  }

  lemma StrRoundTrip(m: Mode, buf: Bytes, p: nat, s: Bytes)
    requires |s| < TWO31 && At(buf, p, Enc(Str(s))) && buf[p] == TYPE_STRING
    ensures LoadTagged(m, buf, buf[p], p + 1) == Ok((Str(s), p + |Enc(Str(s))|))
  {
    assert Enc(Str(s)) == [TYPE_STRING] + (Long32(|s|) + s);
    AtSplit(buf, p, [TYPE_STRING], Long32(|s|) + s);
    AtSplit(buf, p + 1, Long32(|s|), s);
    FixedAt(m, buf, p + 1, Long32(|s|));
    Long32RoundTrip(|s|);
  }

  lemma {:induction false} CountedRoundTrip(m: Mode, buf: Bytes, p: nat, tag: Byte, items: seq<Value>)
    requires |items| < TWO31 && AllSupported(items)
    requires At(buf, p, [tag] + Long32(|items|) + EncItems(items))
    ensures LoadCounted(m, buf, p + 1) == Ok((NormItems(items), p + 5 + |EncItems(items)|))
    decreases items, 1
  {
    CountRead(m, buf, p, tag, |items|, EncItems(items));
    ItemsRoundTrip(m, buf, p + 5, items);
  }

  /** The count behind a tag. */
  lemma CountRead(m: Mode, buf: Bytes, p: nat, tag: Byte, n: nat, rest: Bytes)
    requires n < TWO31 && At(buf, p, [tag] + Long32(n) + rest)
    ensures p + 1 <= |buf| && ReadLong(m, buf, p + 1) == Ok((n, p + 5))
    ensures At(buf, p + 5, rest)
  {
    assert [tag] + Long32(n) + rest == [tag] + (Long32(n) + rest);
    AtSplit(buf, p, [tag], Long32(n) + rest);
    AtSplit(buf, p + 1, Long32(n), rest);
    LongAt(m, buf, p + 1, n);
  }

  lemma {:induction false} SetRoundTrip(m: Mode, buf: Bytes, p: nat, tag: Byte, items: seq<Value>)
    requires |items| < TWO31 && AllSupported(items) && AllHashable(items) && NoDuplicates(items)
    requires At(buf, p, [tag] + Long32(|items|) + EncItems(items))
    ensures Hashed(LoadCounted(m, buf, p + 1)) == Ok((NormItems(items), p + 5 + |EncItems(items)|))
    decreases items, 2
  {
    CountedRoundTrip(m, buf, p, tag, items);
    NormItemsEqual(items);
    DistinctAll([], NormItems(items));
    assert [] + NormItems(items) == NormItems(items);
  }

  lemma {:induction false} ItemsRoundTrip(m: Mode, buf: Bytes, p: nat, vs: seq<Value>)
    requires AllSupported(vs) && At(buf, p, EncItems(vs))
    ensures LoadItems(m, buf, p, |vs|) == Ok((NormItems(vs), p + |EncItems(vs)|))
    decreases vs, 0
  {
    if vs != [] {
      AtSplit(buf, p, Enc(vs[0]), EncItems(vs[1..]));
      RoundTrip(m, buf, p, vs[0]);
      ItemsRoundTrip(m, buf, p + |Enc(vs[0])|, vs[1..]);
    }
  }

  /** At `p` the pairs `ps` stand, which are to be put into the dictionary `d` to make it `all`, up to `end`. */
  ghost predicate PairsAt(buf: Bytes, p: nat, d: seq<Pair>, ps: seq<Pair>, all: seq<Pair>, end: nat) {
    && WellKeyed(ps) && PairsSupported(ps) && At(buf, p, EncPairs(ps))
    && KeysOfPairs(d) !! KeysOfPairs(ps)
    && all == d + NormPairs(ps) && end == p + |EncPairs(ps)|
  }

  /** They all are, in order, and nothing behind the marker is read. */
  lemma {:induction false} PairsRoundTrip(m: Mode, buf: Bytes, p: nat, d: seq<Pair>, ps: seq<Pair>,
                                          all: seq<Pair>, end: nat)
    requires PairsAt(buf, p, d, ps, all, end)
    ensures LoadPairs(m, buf, p, d) == Ok((all, end))
    decreases ps, 0
  {
    if ps == [] {
      assert all == d;
      MarkerEnds(m, buf, p, d);
    } else {
      var p', d' := FirstPair(m, buf, p, d, ps, all, end);
      PairsRoundTrip(m, buf, p', d', ps[1..], all, end);
    }
  }

  /** The first pair is put into the dictionary, and the others follow. */
  lemma {:induction false} FirstPair(m: Mode, buf: Bytes, p: nat, d: seq<Pair>, ps: seq<Pair>,
                                     all: seq<Pair>, end: nat) returns (p': nat, d': seq<Pair>)
    requires ps != [] && PairsAt(buf, p, d, ps, all, end)
    ensures PairsAt(buf, p', d', ps[1..], all, end)
    ensures LoadPairs(m, buf, p, d) == LoadPairs(m, buf, p', d')
    decreases ps, -1
  {
    PairsStep(buf, p, d, ps, all, end);
    PairRoundTrip(m, buf, p, d, ps[0]);
    p', d' := p + |EncPair(ps[0])|, d + [NormPair(ps[0])];
  }

  /** What holds for the first pair and for the others. */
  lemma PairsStep(buf: Bytes, p: nat, d: seq<Pair>, ps: seq<Pair>, all: seq<Pair>, end: nat)
    requires ps != [] && PairsAt(buf, p, d, ps, all, end)
    ensures NewPairAt(buf, p, d, ps[0])
    ensures PairsAt(buf, p + |EncPair(ps[0])|, d + [NormPair(ps[0])], ps[1..], all, end)
  {
    PairsSplit(buf, p, ps);
    NormPairsSplit(d, ps);
    KeysApart(d, ps);
  }

  /** At `p` there is a pair whose key is not in `d`. */
  ghost predicate NewPairAt(buf: Bytes, p: nat, d: seq<Pair>, pair: Pair) {
    && PairSupported(pair) && At(buf, p, EncPair(pair))
    && Hashable(pair.key) && KeyOf(pair.key) !in KeysOfPairs(d)
  }

  lemma MarkerEnds(m: Mode, buf: Bytes, p: nat, d: seq<Pair>)
    requires At(buf, p, [TYPE_NULL])
    ensures LoadPairs(m, buf, p, d) == Ok((d, p + 1))
  {
    assert buf[p] == buf[p..p + 1][0] == TYPE_NULL;
    assert LoadTagged(m, buf, TYPE_NULL, p + 1) == Ok((Null, p + 1));
    assert Load(m, buf, p) == Ok((Null, p + 1));
  }

  lemma KeysApart(d: seq<Pair>, ps: seq<Pair>)
    requires WellKeyed(ps) && KeysOfPairs(d) !! KeysOfPairs(ps) && ps != []
    ensures KeysOfPairs(d + [NormPair(ps[0])]) !! KeysOfPairs(ps[1..])
  {
    NormEqual(ps[0].key);
    KeysOfPairsSnoc(d, NormPair(ps[0]));
  }

  lemma PairsSplit(buf: Bytes, p: nat, ps: seq<Pair>)
    requires ps != [] && At(buf, p, EncPairs(ps))
    ensures At(buf, p, EncPair(ps[0])) && At(buf, p + |EncPair(ps[0])|, EncPairs(ps[1..]))
  {
    AtSplit(buf, p, EncPair(ps[0]), EncPairs(ps[1..]));
  }

  lemma NormPairsSplit(d: seq<Pair>, ps: seq<Pair>)
    requires ps != []
    ensures d + NormPairs(ps) == d + [NormPair(ps[0])] + NormPairs(ps[1..])
    ensures |EncPairs(ps)| == |EncPair(ps[0])| + |EncPairs(ps[1..])|
  {
  }

  lemma LoadPairsStep(m: Mode, buf: Bytes, p: nat, d: seq<Pair>, k: Value, q: nat, v: Value, r: nat)
    requires Load(m, buf, p) == Ok((k, q)) && k != Null && Hashable(k)
    requires Load(m, buf, q) == Ok((v, r))
    ensures LoadPairs(m, buf, p, d) == LoadPairs(m, buf, r, Insert(d, k, v))
  {
  }

  /** A key and its value are put into the dictionary; no key is taken for the end marker. */
  lemma {:induction false} PairRoundTrip(m: Mode, buf: Bytes, p: nat, d: seq<Pair>, pair: Pair)
    requires NewPairAt(buf, p, d, pair)
    ensures LoadPairs(m, buf, p, d) == LoadPairs(m, buf, p + |EncPair(pair)|, d + [NormPair(pair)])
    ensures Norm(pair.key) != Null
    decreases pair, 1
  {
    var k, v, q, r := PairLoaded(m, buf, p, pair);
    NewPair(m, buf, p, d, k, v, q, r);
  }

  lemma {:induction false} PairLoaded(m: Mode, buf: Bytes, p: nat, pair: Pair)
    returns (k: Value, v: Value, q: nat, r: nat)
    requires PairSupported(pair) && At(buf, p, EncPair(pair))
    ensures Load(m, buf, p) == Ok((k, q)) && Load(m, buf, q) == Ok((v, r))
    ensures Pair(k, v) == NormPair(pair) && r == p + |EncPair(pair)|
    ensures k != Null && KeyOf(k) == KeyOf(pair.key) && (Hashable(k) <==> Hashable(pair.key))
    decreases pair, 0
  {
    AtSplit(buf, p, Enc(pair.key), Enc(pair.val));
    RoundTrip(m, buf, p, pair.key);
    RoundTrip(m, buf, p + |Enc(pair.key)|, pair.val);
    NormEqual(pair.key);
    NormNotNull(pair.key);
    k, v, q, r := Norm(pair.key), Norm(pair.val), p + |Enc(pair.key)|, p + |EncPair(pair)|;
  }

  lemma NormNotNull(v: Value)
    requires Supported(v)
    ensures Norm(v) != Null
  {
  }

  lemma NewPair(m: Mode, buf: Bytes, p: nat, d: seq<Pair>, k: Value, v: Value, q: nat, r: nat)
    requires Load(m, buf, p) == Ok((k, q)) && Load(m, buf, q) == Ok((v, r))
    requires k != Null && Hashable(k) && KeyOf(k) !in KeysOfPairs(d)
    ensures LoadPairs(m, buf, p, d) == LoadPairs(m, buf, r, d + [Pair(k, v)])
  {
    InsertNew(d, k, v);
    LoadPairsStep(m, buf, p, d, k, q, v, r);
  }

  lemma {:induction false} SupportedDumpable(v: Value)
    requires Supported(v)
    ensures Dumpable(v)
    decreases v
  {
    match v {
      case Tuple(items) => ItemsDumpable(items);
      case List(items) => ItemsDumpable(items);
      case Dict(pairs) => EntriesDumpable(pairs);
      case PySet(items) => ItemsDumpable(items);
      case FrozenSet(items) => ItemsDumpable(items);
      case _ =>
    }
  }

  lemma {:induction false} ItemsDumpable(vs: seq<Value>)
    requires AllSupported(vs)
    ensures AllDumpable(vs)
    decreases vs
  {
    if vs != [] {
      SupportedDumpable(vs[0]);
      ItemsDumpable(vs[1..]);
    }
  }

  lemma {:induction false} EntriesDumpable(ps: seq<Pair>)
    requires PairsSupported(ps)
    ensures PairsDumpable(ps)
    decreases ps
  {
    if ps != [] {
      EntryDumpable(ps[0]);
      EntriesDumpable(ps[1..]);
    }
  }

  lemma {:induction false} EntryDumpable(p: Pair)
    requires PairSupported(p)
    ensures PairDumpable(p)
    decreases p
  {
    SupportedDumpable(p.key);
    SupportedDumpable(p.val);
  }

  /**
   Main result: a supported value followed by anything is loaded back, equal to what was
   dumped, and exactly its encoding is consumed.
   */
  lemma LoadsDumps(m: Mode, v: Value, rest: Bytes)
    requires Supported(v)
    ensures Dumpable(v)
    ensures Load(m, Enc(v) + rest, 0) == Ok((Norm(v), |Enc(v)|))
    ensures KeyOf(Norm(v)) == KeyOf(v)
  {
    SupportedDumpable(v);
    var buf := Enc(v) + rest;
    assert buf[0..0 + |Enc(v)|] == Enc(v);
    RoundTrip(m, buf, 0, v);
    NormEqual(v);
  }
}
