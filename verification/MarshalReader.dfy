/**
 The two readers of lib_pypy/_marshal.py.  `Fast` indexes a buffer and checks its bounds;
 `Stream` asks a string buffer for a number of bytes and may be given fewer.
 */
module MarshalReaders {
  import opened Wrappers
  import opened MarshalValues
  import opened MarshalFormats

  datatype Mode = Fast | Stream

  /** What has been read, and the position behind it; a stream's position may be beyond its end. */
  type Read<+T> = Result<(T, nat), Error>

  function Min(a: int, b: int): int {
    if a < b then a else b
  }

  /** The bytes that a string buffer returns for a request of `n` bytes at `p`. */
  function Slice(buf: Bytes, p: nat, n: nat): (s: Bytes)
    ensures |s| <= n && (p + n <= |buf| ==> |s| == n)
  {
    buf[Min(p, |buf|)..Min(p + n, |buf|)]
  }

  /** Disjoint bits: the source's `|` of shifted bytes is their sum. */
  function Unsigned32(s: Bytes): (x: int)
    requires |s| == 4
    ensures 0 <= x < TWO32
  {
    var a: int, b: int, c: int, d: int := s[0], s[1], s[2], s[3];
    a + 256 * b + 0x1_0000 * c + 0x100_0000 * d
  }

  function Signed32(s: Bytes): int
    requires |s| == 4
  {
    var x := Unsigned32(s);
    if s[3] >= 0x80 && x > 0 then -(TWO32 - x) else x
  }

  function Signed64(s: Bytes): int
    requires |s| == 8
  {
    var x := Unsigned32(s[..4]) + TWO32 * Unsigned32(s[4..]);
    if s[7] >= 0x80 && x > 0 then -(TWO64 - x) else x
  }

  function Signed16(s: Bytes): int
    requires |s| == 2
  {
    var lo: int, hi: int := s[0], s[1];
    var x := lo + 256 * hi;
    if x >= TWO15 then x - TWO16 else x
  }

  /** `n` bytes at `p`, or the error with which the mode reports that they are missing. */
  function Fixed(m: Mode, buf: Bytes, p: nat, n: nat): (r: Read<Bytes>)
    ensures r.Ok? ==> |r.value.0| == n && r.value.1 == p + n <= |buf|
  {
    if p + n <= |buf| then Ok((buf[p..p + n], p + n))
    else Err(if m == Fast || n == 4 then IndexError else TypeError)
  }

  function ReadLong(m: Mode, buf: Bytes, p: nat): (r: Read<int>)
    ensures r.Ok? ==> r.value.1 == p + 4 <= |buf|
  {
    var s := Fixed(m, buf, p, 4);
    if s.Err? then Err(s.error) else Ok((Signed32(s.value.0), s.value.1))
  }

  function ReadLong64(m: Mode, buf: Bytes, p: nat): (r: Read<int>)
    ensures r.Ok? ==> r.value.1 == p + 8 <= |buf|
  {
    var s := Fixed(m, buf, p, 8);
    if s.Err? then Err(s.error) else Ok((Signed64(s.value.0), s.value.1))
  }

  function ReadShort(m: Mode, buf: Bytes, p: nat): (r: Read<int>)
    ensures r.Ok? ==> r.value.1 == p + 2 <= |buf|
  {
    var s := Fixed(m, buf, p, 2);
    if s.Err? then Err(s.error) else Ok((Signed16(s.value.0), s.value.1))
  }

  /** A request for `n` bytes of text; a stream returns what there is. */
  function ReadText(m: Mode, buf: Bytes, p: nat, n: int): (r: Read<Bytes>)
    ensures r.Ok? ==> p <= r.value.1 && (m == Fast ==> r.value.1 <= |buf|)
  {
    if n < 0 then Err(NotModelled)
    else if m == Fast && p + n > |buf| then Err(EofError)
    else Ok((Slice(buf, p, n), p + n))
  }

  function Power(i: nat): (r: int)
    ensures r > 0
  {
    if i == 0 then 1 else TWO15 * Power(i - 1)
  }

  /**
   `x | (d << 15 * i)` for an `x` put together from the `i` digits below: their bits are
   disjoint, except that a negative `x` has all its high bits set already.
   */
  function OrDigit(x: int, d: int, i: nat): int {
    if x < 0 then x else x + d * Power(i)
  }

  /** Digits `i` to `n` of a long, on top of `x`. */
  function ReadDigits(m: Mode, buf: Bytes, p: nat, x: int, i: nat, n: nat): (r: Read<int>)
    requires i <= n
    ensures r.Ok? && p <= |buf| ==> p <= r.value.1 <= |buf|
    decreases n - i
  {
    if i == n then Ok((x, p)) else
    var d := ReadShort(m, buf, p);
    if d.Err? then d else ReadDigits(m, buf, d.value.1, OrDigit(x, d.value.0, i), i + 1, n)
  }

  function ReadBigInt(m: Mode, buf: Bytes, p: nat): (r: Read<int>)
    ensures r.Ok? ==> p < r.value.1 <= |buf|
  {
    var size := ReadLong(m, buf, p);
    if size.Err? then size else
    var (n, q) := size.value;
    var x := ReadDigits(m, buf, q, 0, 0, if n < 0 then -n else n);
    if x.Err? then x else Ok((if n < 0 then -x.value.0 else x.value.0, x.value.1))
  }

  /** The elements of a list in a set: the first of each group of equal ones. */
  function AddItem(s: seq<Value>, v: Value): seq<Value> {
    if KeyOf(v) in ElementsOf(s) then s else s + [v]
  }

  function Distinct(s: seq<Value>, vs: seq<Value>): seq<Value>
    decreases |vs|
  {
    if vs == [] then s else Distinct(AddItem(s, vs[0]), vs[1..])
  }

  /** `d[k] = v` on the entries of a dictionary: an equal key keeps its place and its type. */
  function Insert(d: seq<Pair>, k: Value, v: Value): seq<Pair> {
    if d == [] then [Pair(k, v)]
    else if KeyOf(d[0].key) == KeyOf(k) then [Pair(d[0].key, v)] + d[1..]
    else [d[0]] + Insert(d[1..], k, v)
  }

  /** The fast reader turns an index error from anywhere below into an end of file. */
  function Caught<T>(m: Mode, r: Read<T>): Read<T> {
    if m == Fast && r == Err(IndexError) then Err(EofError) else r
  }

  function Load(m: Mode, buf: Bytes, p: nat): (r: Read<Value>)
    ensures r.Ok? ==> p < r.value.1 && p < |buf|
    ensures r.Ok? && m == Fast ==> r.value.1 <= |buf|
    decreases |buf| - p, 1, 0
  {
    if p >= |buf| then Err(EofError) else Caught(m, LoadTagged(m, buf, buf[p], p + 1))
  }

  /** A value of the type that `tag` announces. */
  function LoadTagged(m: Mode, buf: Bytes, tag: Byte, p: nat): (r: Read<Value>)
    requires p <= |buf|
    ensures r.Ok? ==> p <= r.value.1
    ensures r.Ok? && m == Fast ==> r.value.1 <= |buf|
    decreases |buf| - p, 3, 0
  {
    if tag == TYPE_NULL then Ok((Null, p))
    else if tag == TYPE_NONE then Ok((PyNone, p))
    else if tag == TYPE_TRUE then Ok((Bool(true), p))
    else if tag == TYPE_FALSE then Ok((Bool(false), p))
    else if tag == TYPE_STOPITER then Ok((StopIter, p))
    else if tag == TYPE_ELLIPSIS then Ok((PyEllipsis, p))
    else if tag == TYPE_INT then Mapped(ReadLong(m, buf, p), i => Int(i))
    else if tag == TYPE_INT64 then Mapped(ReadLong64(m, buf, p), i => Long(i))
    else if tag == TYPE_LONG then Mapped(ReadBigInt(m, buf, p), i => Long(i))
    else if tag == TYPE_STRING then
      var n := ReadLong(m, buf, p);
      if n.Err? then Err(n.error) else Mapped(ReadText(m, buf, n.value.1, n.value.0), s => Str(s))
    else if tag == TYPE_TUPLE then Mapped(LoadCounted(m, buf, p), items => Tuple(items))
    else if tag == TYPE_LIST then Mapped(LoadCounted(m, buf, p), items => List(items))
    else if tag == TYPE_DICT then Mapped(LoadPairs(m, buf, p, []), pairs => Dict(pairs))
    else if tag == TYPE_SET then Mapped(Hashed(LoadCounted(m, buf, p)), items => PySet(items))
    else if tag == TYPE_FROZENSET then Mapped(Hashed(LoadCounted(m, buf, p)), items => FrozenSet(items))
    else if tag in OTHER_TAGS then Err(NotModelled)
    else Err(ValueError)
  }

  /** Tags of the format that this model leaves out. */
  const OTHER_TAGS: seq<int> := ['f' as int, 'x' as int, 't' as int, 'R' as int, 'u' as int, 'c' as int]

  function Mapped<T, U>(r: Read<T>, f: T -> U): Read<U> {
    if r.Err? then Err(r.error) else Ok((f(r.value.0), r.value.1))
  }

  /** `set(args)` of a list of values. */
  function Hashed(r: Read<seq<Value>>): Read<seq<Value>> {
    if r.Err? then r
    else if !AllHashable(r.value.0) then Err(TypeError)
    else Ok((Distinct([], r.value.0), r.value.1))
  }

  /** A length and that many values; a negative length counts as none. */
  function LoadCounted(m: Mode, buf: Bytes, p: nat): (r: Read<seq<Value>>)
    requires p <= |buf|
    ensures r.Ok? ==> p <= r.value.1
    ensures r.Ok? && m == Fast ==> r.value.1 <= |buf|
    decreases |buf| - p, 2, 0
  {
    var n := ReadLong(m, buf, p);
    if n.Err? then Err(n.error) else LoadItems(m, buf, n.value.1, if n.value.0 < 0 then 0 else n.value.0)
  }

  function LoadItems(m: Mode, buf: Bytes, p: nat, n: nat): (r: Read<seq<Value>>)
    ensures r.Ok? ==> p <= r.value.1
    ensures r.Ok? && m == Fast && p <= |buf| ==> r.value.1 <= |buf|
    decreases |buf| - p, 2, n
  {
    if n == 0 then Ok(([], p)) else
    var v := Load(m, buf, p);
    if v.Err? then Err(v.error) else
    var vs := LoadItems(m, buf, v.value.1, n - 1);
    if vs.Err? then vs else Ok(([v.value.0] + vs.value.0, vs.value.1))
  }

  /** Keys and values up to the marker, put into the dictionary `d`. */
  function LoadPairs(m: Mode, buf: Bytes, p: nat, d: seq<Pair>): (r: Read<seq<Pair>>)
    ensures r.Ok? ==> p <= r.value.1
    ensures r.Ok? && m == Fast ==> r.value.1 <= |buf|
    decreases |buf| - p, 2, 0
  {
    var k := Load(m, buf, p);
    if k.Err? then Err(k.error)
    else if k.value.0 == Null then Ok((d, k.value.1))
    else
      var v := Load(m, buf, k.value.1);
      if v.Err? then Err(v.error)
      else if !Hashable(k.value.0) then Err(TypeError)
      else LoadPairs(m, buf, v.value.1, Insert(d, k.value.0, v.value.0))
  }
}
