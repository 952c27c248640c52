/**
 The marshal format of lib_pypy/_marshal.py: the values it covers, their encoding, and the
 writer.  Floats, unicode and code objects are not part of this model.
 */
module MarshalValues {
  import opened Wrappers

  datatype Error = EofError | IndexError | TypeError | ValueError | NotModelled

  type Byte = b: int | 0 <= b < 256

  type Bytes = seq<Byte>

  /**
   Python values.  `Int` and `Long` are the two integer types; `Null` is the marker object
   of the readers, which no value contains.  Sets and dictionaries list what they hold in
   the order of iteration.
   */
  datatype Value =
    | Null
    | PyNone
    | StopIter
    | PyEllipsis
    | Bool(b: bool)
    | Int(i: int)
    | Long(i: int)
    | Str(s: Bytes)
    | Tuple(items: seq<Value>)
    | List(items: seq<Value>)
    | Dict(pairs: seq<Pair>)
    | PySet(items: seq<Value>)
    | FrozenSet(items: seq<Value>)

  datatype Pair = Pair(key: Value, val: Value)

  /** What Python's `==` compares: equal values have equal keys, whatever their types. */
  datatype Key =
    | KOther(v: Value)
    | KNum(i: int)
    | KStr(s: Bytes)
    | KTuple(items: seq<Key>)
    | KList(items: seq<Key>)
    | KDict(entries: set<(Key, Key)>)
    | KSet(elements: set<Key>)

  function KeyOf(v: Value): Key {
    match v
    case Bool(b) => KNum(if b then 1 else 0)
    case Int(i) => KNum(i)
    case Long(i) => KNum(i)
    case Str(s) => KStr(s)
    case Tuple(items) => KTuple(KeysOf(items))
    case List(items) => KList(KeysOf(items))
    case Dict(pairs) => KDict(EntriesOf(pairs))
    case PySet(items) => KSet(ElementsOf(items))
    case FrozenSet(items) => KSet(ElementsOf(items))
    case _ => KOther(v)
  }

  function KeysOf(vs: seq<Value>): seq<Key> {
    if vs == [] then [] else [KeyOf(vs[0])] + KeysOf(vs[1..])
  }

  function ElementsOf(vs: seq<Value>): set<Key> {
    if vs == [] then {} else {KeyOf(vs[0])} + ElementsOf(vs[1..])
  }

  function EntriesOf(ps: seq<Pair>): set<(Key, Key)> {
    if ps == [] then {} else {EntryOf(ps[0])} + EntriesOf(ps[1..])
  }

  function EntryOf(p: Pair): (Key, Key) {
    (KeyOf(p.key), KeyOf(p.val))
  }

  function KeysOfPairs(ps: seq<Pair>): set<Key> {
    if ps == [] then {} else {KeyOf(ps[0].key)} + KeysOfPairs(ps[1..])
  }

  predicate Hashable(v: Value) {
    match v
    case Tuple(items) => AllHashable(items)
    case List(_) => false
    case Dict(_) => false
    case PySet(_) => false
    case _ => true
  }

  predicate AllHashable(vs: seq<Value>) {
    vs == [] || (Hashable(vs[0]) && AllHashable(vs[1..]))
  }
}

module MarshalFormats {
  import opened Wrappers
  import opened MarshalValues

  const TYPE_NULL: Byte := '0' as int
  const TYPE_NONE: Byte := 'N' as int
  const TYPE_FALSE: Byte := 'F' as int
  const TYPE_TRUE: Byte := 'T' as int
  const TYPE_STOPITER: Byte := 'S' as int
  const TYPE_ELLIPSIS: Byte := '.' as int
  const TYPE_INT: Byte := 'i' as int
  const TYPE_INT64: Byte := 'I' as int
  const TYPE_LONG: Byte := 'l' as int
  const TYPE_STRING: Byte := 's' as int
  const TYPE_TUPLE: Byte := '(' as int
  const TYPE_LIST: Byte := '[' as int
  const TYPE_DICT: Byte := '{' as int
  const TYPE_SET: Byte := '<' as int
  const TYPE_FROZENSET: Byte := '>' as int

  const TWO15: int := 0x8000
  const TWO16: int := 0x1_0000
  const TWO31: int := 0x8000_0000
  const TWO32: int := 0x1_0000_0000
  const TWO63: int := 0x8000_0000_0000_0000
  const TWO64: int := 0x1_0000_0000_0000_0000

  /** Four bytes, least significant first, of any integer. */
  function Long32(x: int): (w: Bytes)
    ensures |w| == 4
  {
    var x1 := x / 256;
    var x2 := x1 / 256;
    var x3 := x2 / 256;
    [x % 256, x1 % 256, x2 % 256, x3 % 256]
  }

  function Long64(x: int): (w: Bytes)
    ensures |w| == 8
  {
    Long32(x) + Long32(x / TWO32)
  }

  function Short16(x: int): (w: Bytes)
    ensures |w| == 2
  {
    [x % 256, x / 256 % 256]
  }

  /** Digits base 2^15, least significant first. */
  function Digits(x: nat): seq<int> {
    if x == 0 then [] else [x % TWO15] + Digits(x / TWO15)
  }

  function Shorts(ds: seq<int>): Bytes {
    if ds == [] then [] else Short16(ds[0]) + Shorts(ds[1..])
  }

  function EncLong(x: int): Bytes {
    var ds := Digits(if x < 0 then -x else x);
    [TYPE_LONG] + Long32(if x < 0 then -|ds| else |ds|) + Shorts(ds)
  }

  function EncInt(x: int): Bytes {
    var y := x / TWO31;
    if y != 0 && y != -1 then [TYPE_INT64] + Long64(x) else [TYPE_INT] + Long32(x)
  }

  /** What the writer emits for a value without markers in it. */
  function Enc(v: Value): (w: Bytes)
    ensures w != []
  {
    match v
    case Null => [TYPE_NULL]
    case PyNone => [TYPE_NONE]
    case StopIter => [TYPE_STOPITER]
    case PyEllipsis => [TYPE_ELLIPSIS]
    case Bool(b) => if b then [TYPE_TRUE] else [TYPE_FALSE]
    case Int(i) => EncInt(i)
    case Long(i) => EncLong(i)
    case Str(s) => [TYPE_STRING] + Long32(|s|) + s
    case Tuple(items) => [TYPE_TUPLE] + Long32(|items|) + EncItems(items)
    case List(items) => [TYPE_LIST] + Long32(|items|) + EncItems(items)
    case Dict(pairs) => [TYPE_DICT] + EncPairs(pairs)
    case PySet(items) => [TYPE_SET] + Long32(|items|) + EncItems(items)
    case FrozenSet(items) => [TYPE_FROZENSET] + Long32(|items|) + EncItems(items)
  }

  function EncItems(vs: seq<Value>): Bytes {
    if vs == [] then [] else Enc(vs[0]) + EncItems(vs[1..])
  }

  /** The pairs of a dictionary and the marker that ends them. */
  function EncPairs(ps: seq<Pair>): Bytes {
    if ps == [] then [TYPE_NULL] else EncPair(ps[0]) + EncPairs(ps[1..])
  }

  function EncPair(p: Pair): Bytes {
    Enc(p.key) + Enc(p.val)
  }

  /** The writer accepts the value: it contains no marker. */
  predicate Dumpable(v: Value) {
    match v
    case Null => false
    case Tuple(items) => AllDumpable(items)
    case List(items) => AllDumpable(items)
    case Dict(pairs) => PairsDumpable(pairs)
    case PySet(items) => AllDumpable(items)
    case FrozenSet(items) => AllDumpable(items)
    case _ => true
  }

  predicate AllDumpable(vs: seq<Value>) {
    vs == [] || (Dumpable(vs[0]) && AllDumpable(vs[1..]))
  }

  predicate PairsDumpable(ps: seq<Pair>) {
    ps == [] || (PairDumpable(ps[0]) && PairsDumpable(ps[1..]))
  }

  predicate PairDumpable(p: Pair) {
    Dumpable(p.key) && Dumpable(p.val)
  }

  /** The writer object; `out` is what its write function has received. */
  class Marshaller {
    var out: Bytes

    constructor ()
      ensures out == []
    {
      out := [];
    }

    method Write(w: Bytes)
      modifies this
      ensures out == old(out) + w
    {
      out := out + w;
    }

    method WLong(x0: int)
      modifies this
      ensures out == old(out) + Long32(x0)
    {
      var x := x0;
      var a := x % 256;
      x := x / 256;
      var b := x % 256;
      x := x / 256;
      var c := x % 256;
      x := x / 256;
      var d := x % 256;
      Write([a, b, c, d]);
    }

    method WLong64(x: int)
      modifies this
      ensures out == old(out) + Long64(x)
    {
      WLong(x);
      WLong(x / TWO32);
    }

    method WShort(x: int)
      modifies this
      ensures out == old(out) + Short16(x)
    {
      Write([x % 256]);
      Write([x / 256 % 256]);
    }

    method DumpInt(x: int)
      modifies this
      ensures out == old(out) + EncInt(x)
    {
      var y := x / TWO31;
      if y != 0 && y != -1 {
        Write([TYPE_INT64]);
        WLong64(x);
      } else {
        Write([TYPE_INT]);
        WLong(x);
      }
    }

    method DumpLong(x0: int)
      modifies this
      ensures out == old(out) + EncLong(x0)
    {
      Write([TYPE_LONG]);
      var sign, x := 1, x0;
      if x < 0 {
        sign := -1;
        x := -x;
      }
      var digits := ToDigits(x);
      WLong(|digits| * sign);
      WShorts(digits);
      ghost var size := if x0 < 0 then -|digits| else |digits|;
      assert size == |digits| * sign;
      assert EncLong(x0) == [TYPE_LONG] + Long32(size) + Shorts(digits);
      assert old(out) + EncLong(x0) == old(out) + [TYPE_LONG] + Long32(size) + Shorts(digits);
    }

    static method ToDigits(n: nat) returns (digits: seq<int>)
      ensures digits == Digits(n)
    {
      var x := n;
      digits := [];
      while x != 0
        invariant 0 <= x
        invariant Digits(n) == digits + Digits(x)
      {
        DigitsStep(digits, x);
        digits := digits + [x % TWO15];
        x := x / TWO15;
      }
      assert digits + [] == digits;
    }

    method WShorts(digits: seq<int>)
      modifies this
      ensures out == old(out) + Shorts(digits)
    {
      for k := 0 to |digits|
        invariant out == old(out) + Shorts(digits[..k])
      {
        WShort(digits[k]);
        ShortsSnoc(digits[..k], digits[k]);
        assert digits[..k + 1] == digits[..k] + [digits[k]];
      }
      assert digits[..|digits|] == digits;
    }

    /** Writes any value; fails where it comes upon one that has no encoding. */
    method Dump(v: Value) returns (r: Result<(), Error>)
      modifies this
      ensures r.Ok? <==> Dumpable(v)
      ensures r.Ok? ==> out == old(out) + Enc(v)
      ensures r.Err? ==> r.error == ValueError
      decreases v
    {
      r := Ok(());
      match v {
        case Null =>
          return Err(ValueError);
        case PyNone =>
          Write([TYPE_NONE]);
        case StopIter =>
          Write([TYPE_STOPITER]);
        case PyEllipsis =>
          Write([TYPE_ELLIPSIS]);
        case Bool(b) =>
          if b {
            Write([TYPE_TRUE]);
          } else {
            Write([TYPE_FALSE]);
          }
        case Int(i) =>
          DumpInt(i);
        case Long(i) =>
          DumpLong(i);
        case Str(s) =>
          Write([TYPE_STRING]);
          WLong(|s|);
          Write(s);
        case Tuple(items) =>
          r := DumpSequence(TYPE_TUPLE, items);
        case List(items) =>
          r := DumpSequence(TYPE_LIST, items);
        case Dict(pairs) =>
          r := DumpDict(pairs);
        case PySet(items) =>
          r := DumpSequence(TYPE_SET, items);
        case FrozenSet(items) =>
          r := DumpSequence(TYPE_FROZENSET, items);
      }
    }

    method DumpSequence(tag: Byte, items: seq<Value>) returns (r: Result<(), Error>)
      modifies this
      ensures r.Ok? <==> AllDumpable(items)
      ensures r.Ok? ==> out == old(out) + ([tag] + Long32(|items|) + EncItems(items))
      ensures r.Err? ==> r.error == ValueError
      decreases items
    {
      Write([tag]);
      WLong(|items|);
      ghost var start := out;
      assert start == old(out) + ([tag] + Long32(|items|));
      for k := 0 to |items|
        invariant out + EncItems(items[k..]) == start + EncItems(items)
        invariant AllDumpable(items) <==> AllDumpable(items[k..])
      {
        ItemsStep(out, items, k);
        r := Dump(items[k]);
        if r.Err? {
          return;
        }
      }
      assert out == start + EncItems(items);
      return Ok(());
    }

    method DumpPair(p: Pair) returns (r: Result<(), Error>)
      modifies this
      ensures r.Ok? <==> PairDumpable(p)
      ensures r.Ok? ==> out == old(out) + EncPair(p)
      ensures r.Err? ==> r.error == ValueError
      decreases p
    {
      r := Dump(p.key);
      if r.Err? {
        return;
      }
      r := Dump(p.val);
      assert old(out) + Enc(p.key) + Enc(p.val) == old(out) + EncPair(p);
    }

    method DumpDict(pairs: seq<Pair>) returns (r: Result<(), Error>)
      modifies this
      ensures r.Ok? <==> PairsDumpable(pairs)
      ensures r.Ok? ==> out == old(out) + ([TYPE_DICT] + EncPairs(pairs))
      ensures r.Err? ==> r.error == ValueError
      decreases pairs
    {
      Write([TYPE_DICT]);
      ghost var start := out;
      for k := 0 to |pairs|
        invariant out + EncPairs(pairs[k..]) == start + EncPairs(pairs)
        invariant PairsDumpable(pairs) <==> PairsDumpable(pairs[k..])
      {
        PairsStep(out, pairs, k);
        r := DumpPair(pairs[k]);
        if r.Err? {
          return;
        }
      }
      Write([TYPE_NULL]);
      assert start + EncPairs(pairs) == old(out) + ([TYPE_DICT] + EncPairs(pairs));
      return Ok(());
    }
  }

  lemma ItemsStep(out: Bytes, items: seq<Value>, k: nat)
    requires k < |items|
    ensures out + EncItems(items[k..]) == out + Enc(items[k]) + EncItems(items[k + 1..])
    ensures AllDumpable(items[k..]) <==> Dumpable(items[k]) && AllDumpable(items[k + 1..])
  {
    assert items[k..][1..] == items[k + 1..];
  }

  lemma PairsStep(out: Bytes, pairs: seq<Pair>, k: nat)
    requires k < |pairs|
    ensures out + EncPairs(pairs[k..]) == out + EncPair(pairs[k]) + EncPairs(pairs[k + 1..])
    ensures PairsDumpable(pairs[k..]) <==> PairDumpable(pairs[k]) && PairsDumpable(pairs[k + 1..])
  {
    assert pairs[k..][1..] == pairs[k + 1..];
  }

  lemma DigitsStep(ds: seq<int>, x: nat)
    requires x != 0
    ensures ds + Digits(x) == ds + [x % TWO15] + Digits(x / TWO15)
  {
  }

  lemma {:induction false} ShortsSnoc(ds: seq<int>, d: int)
    ensures Shorts(ds + [d]) == Shorts(ds) + Short16(d)
  {
    if ds == [] {
      assert [d][1..] == [];
    } else {
      assert (ds + [d])[1..] == ds[1..] + [d];
      ShortsSnoc(ds[1..], d);
    }
  }
}
