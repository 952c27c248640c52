/** The reader objects of lib_pypy/_marshal.py, proved to read what the reader functions say. */
module MarshalObjects {
  import opened Wrappers
  import opened MarshalValues
  import opened MarshalFormats
  import opened MarshalReaders

  /** A method's result together with the position it leaves. */
  function Outcome<T>(r: Result<T, Error>, pos: nat): Read<T> {
    if r.Err? then Err(r.error) else Ok((r.value, pos))
  }

  /** The bytes of a little-endian number, from its parts. */
  lemma EightBytes(s: Bytes, a: Bytes, b: Bytes)
    requires |a| == 4 && |b| == 4 && s == a + b
    ensures Signed64(s) ==
      var x := Unsigned32(a) + TWO32 * Unsigned32(b);
      if b[3] >= 0x80 && x > 0 then -(TWO64 - x) else x
  {
    assert s[..4] == a && s[4..] == b;
  }

  /** The reader over a buffer it indexes itself. */
  class FastUnmarshaller {
    const bufstr: Bytes
    var bufpos: nat

    constructor (buffer: Bytes)
      ensures bufstr == buffer && bufpos == 0
    {
      bufstr := buffer;
      bufpos := 0;
    }

    method Read1() returns (r: Result<Byte, Error>)
      modifies this
      ensures if old(bufpos) < |bufstr| then r == Ok(bufstr[old(bufpos)]) && bufpos == old(bufpos) + 1
              else r == Err(IndexError) && bufpos == old(bufpos)
    {
      if bufpos >= |bufstr| {
        return Err(IndexError);
      }
      r := Ok(bufstr[bufpos]);
      bufpos := bufpos + 1;
    }

    method ReadBytes(n: int) returns (r: Result<Bytes, Error>)
      modifies this
      ensures ReadText(Fast, bufstr, old(bufpos), n) == Outcome(r, bufpos)
    {
      if n < 0 {
        return Err(NotModelled);
      }
      var pos := bufpos;
      var newpos := pos + n;
      if newpos > |bufstr| {
        return Err(EofError);
      }
      r := Ok(bufstr[pos..newpos]);
      bufpos := newpos;
    }

    method RShort() returns (r: Result<int, Error>)
      modifies this
      ensures ReadShort(Fast, bufstr, old(bufpos)) == Outcome(r, bufpos)
    {
      var lo: int :- Read1();
      var hi: int :- Read1();
      var x := lo + 256 * hi;
      if x >= TWO15 {
        x := x - TWO16;
      }
      return Ok(x);
    }

    method RLong() returns (r: Result<int, Error>)
      modifies this
      ensures ReadLong(Fast, bufstr, old(bufpos)) == Outcome(r, bufpos)
    {
      var p, s := bufpos, bufstr;
      if p + 4 > |s| {
        return Err(IndexError);
      }
      var a: int, b: int, c: int, d: int := s[p], s[p + 1], s[p + 2], s[p + 3];
      bufpos := bufpos + 4;
      var x := a + 256 * b + 0x1_0000 * c + 0x100_0000 * d;
      if d >= 0x80 && x > 0 {
        return Ok(-(TWO32 - x));
      }
      return Ok(x);
    }

    method RLong64() returns (r: Result<int, Error>)
      modifies this
      ensures ReadLong64(Fast, bufstr, old(bufpos)) == Outcome(r, bufpos)
    {
      var a :- Read1();
      var b :- Read1();
      var c :- Read1();
      var d :- Read1();
      var e :- Read1();
      var f :- Read1();
      var g :- Read1();
      var h :- Read1();
      var low, high: Bytes := [a, b, c, d], [e, f, g, h];
      assert bufstr[old(bufpos)..bufpos] == low + high;
      EightBytes(low + high, low, high);
      var x := Unsigned32(low) + TWO32 * Unsigned32(high);
      if h >= 0x80 && x > 0 {
        return Ok(-(TWO64 - x));
      }
      return Ok(x);
    }

    method LoadLong() returns (r: Result<int, Error>)
      modifies this
      ensures ReadBigInt(Fast, bufstr, old(bufpos)) == Outcome(r, bufpos)
    {
      var size :- RLong();
      var sign := 1;
      if size < 0 {
        sign := -1;
        size := -size;
      }
      var x := 0;
      ghost var start := bufpos;
      for i := 0 to size
        invariant ReadDigits(Fast, bufstr, start, 0, 0, size) == ReadDigits(Fast, bufstr, bufpos, x, i, size)
      {
        var d :- RShort();
        x := OrDigit(x, d, i);
      }
      return Ok(x * sign);
    }

    method LoadString() returns (r: Result<Bytes, Error>)
      modifies this
      ensures (var n := ReadLong(Fast, bufstr, old(bufpos));
        if n.Err? then Err(n.error) else ReadText(Fast, bufstr, n.value.1, n.value.0)) == Outcome(r, bufpos)
    {
      var n :- RLong();
      r := ReadBytes(n);
    }

    method LoadList() returns (r: Result<seq<Value>, Error>)
      requires bufpos <= |bufstr|
      modifies this
      ensures LoadCounted(Fast, bufstr, old(bufpos)) == Outcome(r, bufpos)
      decreases |bufstr| - bufpos, 2
    {
      var n :- RLong();
      var items: seq<Value> := [];
      ghost var start, count := bufpos, if n < 0 then 0 else n;
      ThenNothing(LoadItems(Fast, bufstr, start, count));
      var i := 0;
      while i < n
        invariant 0 <= i <= count && start <= bufpos <= |bufstr|
        invariant LoadItems(Fast, bufstr, start, count) == Then(items, LoadItems(Fast, bufstr, bufpos, count - i))
      {
        OneMoreItem(Fast, bufstr, bufpos, items, count - i);
        var v :- LoadValue();
        items := items + [v];
        i := i + 1;
      }
      ThenDone(items, bufpos);
      return Ok(items);
    }

    method LoadSet() returns (r: Result<seq<Value>, Error>)
      requires bufpos <= |bufstr|
      modifies this
      ensures Hashed(LoadCounted(Fast, bufstr, old(bufpos))) == Outcome(r, bufpos)
      decreases |bufstr| - bufpos, 3
    {
      var args :- LoadList();
      if !AllHashable(args) {
        return Err(TypeError);
      }
      return Ok(Distinct([], args));
    }

    method LoadDict() returns (r: Result<seq<Pair>, Error>)
      requires bufpos <= |bufstr|
      modifies this
      ensures LoadPairs(Fast, bufstr, old(bufpos), []) == Outcome(r, bufpos)
      decreases |bufstr| - bufpos, 2
    {
      var d: seq<Pair> := [];
      while true
        invariant old(bufpos) <= bufpos <= |bufstr|
        invariant LoadPairs(Fast, bufstr, old(bufpos), []) == LoadPairs(Fast, bufstr, bufpos, d)
        decreases |bufstr| - bufpos
      {
        var key :- LoadValue();
        if key == Null {
          break;
        }
        var value :- LoadValue();
        if !Hashable(key) {
          return Err(TypeError);
        }
        d := Insert(d, key, value);
      }
      return Ok(d);
    }

    /** The dispatch on a type code. */
    method LoadByTag(c: Byte) returns (r: Result<Value, Error>)
      requires bufpos <= |bufstr|
      modifies this
      ensures LoadTagged(Fast, bufstr, c, old(bufpos)) == Outcome(r, bufpos)
      decreases |bufstr| - bufpos, 4
    {
      if c == TYPE_NULL {
        return Ok(Null);
      } else if c == TYPE_NONE {
        return Ok(PyNone);
      } else if c == TYPE_TRUE {
        return Ok(Bool(true));
      } else if c == TYPE_FALSE {
        return Ok(Bool(false));
      } else if c == TYPE_STOPITER {
        return Ok(StopIter);
      } else if c == TYPE_ELLIPSIS {
        return Ok(PyEllipsis);
      } else if c == TYPE_INT {
        var i :- RLong();
        return Ok(Int(i));
      } else if c == TYPE_INT64 {
        var i :- RLong64();
        return Ok(Long(i));
      } else if c == TYPE_LONG {
        var i :- LoadLong();
        return Ok(Long(i));
      } else if c == TYPE_STRING {
        var s :- LoadString();
        return Ok(Str(s));
      } else if c == TYPE_TUPLE {
        var items :- LoadList();
        return Ok(Tuple(items));
      } else if c == TYPE_LIST {
        var items :- LoadList();
        return Ok(List(items));
      } else if c == TYPE_DICT {
        var d :- LoadDict();
        return Ok(Dict(d));
      } else if c == TYPE_SET {
        var args :- LoadSet();
        return Ok(PySet(args));
      } else if c == TYPE_FROZENSET {
        var args :- LoadSet();
        return Ok(FrozenSet(args));
      } else if c in OTHER_TAGS {
        return Err(NotModelled);
      }
      return Err(ValueError);
    }

    /** A value; any index error on the way is an end of file. */
    method LoadValue() returns (r: Result<Value, Error>)
      modifies this
      ensures Load(Fast, bufstr, old(bufpos)) == Outcome(r, bufpos)
      decreases |bufstr| - bufpos, 1
    {
      if bufpos >= |bufstr| {
        return Err(EofError);
      }
      var c := bufstr[bufpos];
      bufpos := bufpos + 1;
      r := LoadByTag(c);
      if r == Err(IndexError) {
        return Err(EofError);
      }
    }
  }

  /** A string buffer: a request beyond the end returns what there is, and moves on all the same. */
  class StringBuffer {
    const bufstr: Bytes
    var bufpos: nat

    constructor (value: Bytes)
      ensures bufstr == value && bufpos == 0
    {
      bufstr := value;
      bufpos := 0;
    }

    method ReadBytes(n: nat) returns (ret: Bytes)
      modifies this
      ensures bufpos == old(bufpos) + n
      ensures ret == Slice(bufstr, old(bufpos), n)
    {
      var pos := bufpos;
      var newpos := pos + n;
      ret := bufstr[Min(pos, |bufstr|)..Min(newpos, |bufstr|)];
      bufpos := newpos;
    }
  }

  /** The reader that asks its string buffer for everything. */
  class Unmarshaller {
    const src: StringBuffer

    constructor (src: StringBuffer)
      ensures this.src == src
    {
      this.src := src;
    }

    method ReadOrd() returns (r: Result<Byte, Error>)
      modifies src
      ensures src.bufpos == old(src.bufpos) + 1
      ensures r == if old(src.bufpos) < |src.bufstr| then Ok(src.bufstr[old(src.bufpos)]) else Err(TypeError)
    {
      var s := src.ReadBytes(1);
      if |s| != 1 {
        return Err(TypeError);
      }
      return Ok(s[0]);
    }

    method RShort() returns (r: Result<int, Error>)
      modifies src
      ensures ReadShort(Stream, src.bufstr, old(src.bufpos)) == Outcome(r, src.bufpos)
    {
      var lo: int :- ReadOrd();
      var hi: int :- ReadOrd();
      var x := lo + 256 * hi;
      if x >= TWO15 {
        x := x - TWO16;
      }
      return Ok(x);
    }

    method RLong() returns (r: Result<int, Error>)
      modifies src
      ensures ReadLong(Stream, src.bufstr, old(src.bufpos)) == Outcome(r, src.bufpos)
    {
      var s := src.ReadBytes(4);
      if |s| < 4 {
        return Err(IndexError);
      }
      var a: int, b: int, c: int, d: int := s[0], s[1], s[2], s[3];
      var x := a + 256 * b + 0x1_0000 * c + 0x100_0000 * d;
      if d >= 0x80 && x > 0 {
        return Ok(-(TWO32 - x));
      }
      return Ok(x);
    }

    method RLong64() returns (r: Result<int, Error>)
      modifies src
      ensures ReadLong64(Stream, src.bufstr, old(src.bufpos)) == Outcome(r, src.bufpos)
    {
      var a :- ReadOrd();
      var b :- ReadOrd();
      var c :- ReadOrd();
      var d :- ReadOrd();
      var e :- ReadOrd();
      var f :- ReadOrd();
      var g :- ReadOrd();
      var h :- ReadOrd();
      var low, high: Bytes := [a, b, c, d], [e, f, g, h];
      assert src.bufstr[old(src.bufpos)..src.bufpos] == low + high;
      EightBytes(low + high, low, high);
      var x := Unsigned32(low) + TWO32 * Unsigned32(high);
      if h >= 0x80 && x > 0 {
        return Ok(-(TWO64 - x));
      }
      return Ok(x);
    }

    method LoadLong() returns (r: Result<int, Error>)
      modifies src
      ensures ReadBigInt(Stream, src.bufstr, old(src.bufpos)) == Outcome(r, src.bufpos)
    {
      var size :- RLong();
      var sign := 1;
      if size < 0 {
        sign := -1;
        size := -size;
      }
      var x := 0;
      ghost var start := src.bufpos;
      for i := 0 to size
        invariant ReadDigits(Stream, src.bufstr, start, 0, 0, size) ==
                  ReadDigits(Stream, src.bufstr, src.bufpos, x, i, size)
      {
        var d :- RShort();
        x := OrDigit(x, d, i);
      }
      return Ok(x * sign);
    }

    method LoadString() returns (r: Result<Bytes, Error>)
      modifies src
      ensures (var n := ReadLong(Stream, src.bufstr, old(src.bufpos));
        if n.Err? then Err(n.error) else ReadText(Stream, src.bufstr, n.value.1, n.value.0)) == Outcome(r, src.bufpos)
    {
      var n :- RLong();
      if n < 0 {
        return Err(NotModelled);
      }
      var s := src.ReadBytes(n);
      return Ok(s);
    }

    method LoadList() returns (r: Result<seq<Value>, Error>)
      requires src.bufpos <= |src.bufstr|
      modifies src
      ensures LoadCounted(Stream, src.bufstr, old(src.bufpos)) == Outcome(r, src.bufpos)
      decreases |src.bufstr| - src.bufpos, 2
    {
      var n :- RLong();
      var items: seq<Value> := [];
      ghost var start, count := src.bufpos, if n < 0 then 0 else n;
      ThenNothing(LoadItems(Stream, src.bufstr, start, count));
      var i := 0;
      while i < n
        invariant 0 <= i <= count && start <= src.bufpos
        invariant LoadItems(Stream, src.bufstr, start, count) ==
          Then(items, LoadItems(Stream, src.bufstr, src.bufpos, count - i))
      {
        OneMoreItem(Stream, src.bufstr, src.bufpos, items, count - i);
        var v :- LoadValue();
        items := items + [v];
        i := i + 1;
      }
      ThenDone(items, src.bufpos);
      return Ok(items);
    }

    method LoadSet() returns (r: Result<seq<Value>, Error>)
      requires src.bufpos <= |src.bufstr|
      modifies src
      ensures Hashed(LoadCounted(Stream, src.bufstr, old(src.bufpos))) == Outcome(r, src.bufpos)
      decreases |src.bufstr| - src.bufpos, 3
    {
      var args :- LoadList();
      if !AllHashable(args) {
        return Err(TypeError);
      }
      return Ok(Distinct([], args));
    }

    method LoadDict() returns (r: Result<seq<Pair>, Error>)
      requires src.bufpos <= |src.bufstr|
      modifies src
      ensures LoadPairs(Stream, src.bufstr, old(src.bufpos), []) == Outcome(r, src.bufpos)
      decreases |src.bufstr| - src.bufpos, 2
    {
      var d: seq<Pair> := [];
      while true
        invariant old(src.bufpos) <= src.bufpos
        invariant LoadPairs(Stream, src.bufstr, old(src.bufpos), []) == LoadPairs(Stream, src.bufstr, src.bufpos, d)
        decreases |src.bufstr| - src.bufpos
      {
        var key :- LoadValue();
        if key == Null {
          break;
        }
        var value :- LoadValue();
        if !Hashable(key) {
          return Err(TypeError);
        }
        d := Insert(d, key, value);
      }
      return Ok(d);
    }

    /** The dispatch on a type code. */
    method LoadByTag(c: Byte) returns (r: Result<Value, Error>)
      requires src.bufpos <= |src.bufstr|
      modifies src
      ensures LoadTagged(Stream, src.bufstr, c, old(src.bufpos)) == Outcome(r, src.bufpos)
      decreases |src.bufstr| - src.bufpos, 4
    {
      if c == TYPE_NULL {
        return Ok(Null);
      } else if c == TYPE_NONE {
        return Ok(PyNone);
      } else if c == TYPE_TRUE {
        return Ok(Bool(true));
      } else if c == TYPE_FALSE {
        return Ok(Bool(false));
      } else if c == TYPE_STOPITER {
        return Ok(StopIter);
      } else if c == TYPE_ELLIPSIS {
        return Ok(PyEllipsis);
      } else if c == TYPE_INT {
        var i :- RLong();
        return Ok(Int(i));
      } else if c == TYPE_INT64 {
        var i :- RLong64();
        return Ok(Long(i));
      } else if c == TYPE_LONG {
        var i :- LoadLong();
        return Ok(Long(i));
      } else if c == TYPE_STRING {
        var s :- LoadString();
        return Ok(Str(s));
      } else if c == TYPE_TUPLE {
        var items :- LoadList();
        return Ok(Tuple(items));
      } else if c == TYPE_LIST {
        var items :- LoadList();
        return Ok(List(items));
      } else if c == TYPE_DICT {
        var d :- LoadDict();
        return Ok(Dict(d));
      } else if c == TYPE_SET {
        var args :- LoadSet();
        return Ok(PySet(args));
      } else if c == TYPE_FROZENSET {
        var args :- LoadSet();
        return Ok(FrozenSet(args));
      } else if c in OTHER_TAGS {
        return Err(NotModelled);
      }
      return Err(ValueError);
    }

    method LoadValue() returns (r: Result<Value, Error>)
      modifies src
      ensures Load(Stream, src.bufstr, old(src.bufpos)) == Outcome(r, src.bufpos)
      decreases |src.bufstr| - src.bufpos, 1
    {
      var c := src.ReadBytes(1);
      if c == [] {
        return Err(EofError);
      }
      r := LoadByTag(c[0]);
    }
  }

  /** `loads(s)`. */
  method Loads(s: Bytes) returns (r: Result<Value, Error>)
    ensures var v := Load(Fast, s, 0); r == if v.Err? then Err(v.error) else Ok(v.value.0)
  {
    var um := new FastUnmarshaller(s);
    r := um.LoadValue();
  }

  /** `dumps(x)`. */
  method Dumps(v: Value) returns (r: Result<Bytes, Error>)
    ensures r == if Dumpable(v) then Ok(Enc(v)) else Err(ValueError)
  {
    var m := new Marshaller();
    var _ :- m.Dump(v);
    assert [] + Enc(v) == Enc(v);
    return Ok(m.out);
  }

  /** `items` in front of what `r` reads. */
  function Then(items: seq<Value>, r: Read<seq<Value>>): Read<seq<Value>> {
    if r.Err? then r else Ok((items + r.value.0, r.value.1))
  }

  lemma ThenNothing(r: Read<seq<Value>>)
    ensures Then([], r) == r
  {
    if r.Ok? { assert [] + r.value.0 == r.value.0; }
  }

  lemma ThenDone(items: seq<Value>, p: nat)
    ensures Then(items, Ok(([], p))) == Ok((items, p))
  {
    assert items + [] == items;
  }

  /** One more element of a list. */
  lemma OneMoreItem(m: Mode, buf: Bytes, p: nat, items: seq<Value>, n: nat)
    requires n > 0
    ensures var v := Load(m, buf, p);
      Then(items, LoadItems(m, buf, p, n)) ==
      if v.Err? then Err(v.error) else Then(items + [v.value.0], LoadItems(m, buf, v.value.1, n - 1))
  {
    var v := Load(m, buf, p);
    if v.Ok? {
      var r := LoadItems(m, buf, v.value.1, n - 1);
      if r.Ok? { assert items + ([v.value.0] + r.value.0) == items + [v.value.0] + r.value.0; }
    }
  }
}
