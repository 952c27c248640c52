/** The two readers of lib_pypy/_marshal.py compared on arbitrary input. */
module MarshalAgreements {
  import opened Wrappers
  import opened MarshalValues
  import opened MarshalFormats
  import opened MarshalReaders

  /** The fast reader succeeds exactly when the stream reader does without overrunning the input. */
  predicate Agrees<T(==)>(fast: Read<T>, stream: Read<T>, end: nat) {
    && (fast.Ok? ==> fast.value.1 <= end && stream == fast)
    && (stream.Ok? && stream.value.1 <= end ==> fast == stream)
  }

  lemma FixedAgree(buf: Bytes, p: nat, n: nat)
    ensures Agrees(Fixed(Fast, buf, p, n), Fixed(Stream, buf, p, n), |buf|)
  {
  }

  lemma {:induction false} DigitsAgree(buf: Bytes, p: nat, x: int, i: nat, n: nat)
    requires i <= n && p <= |buf|
    ensures Agrees(ReadDigits(Fast, buf, p, x, i, n), ReadDigits(Stream, buf, p, x, i, n), |buf|)
    decreases n - i
  {
    if i < n {
      FixedAgree(buf, p, 2);
      var d := ReadShort(Stream, buf, p);
      if d.Ok? {
        DigitsAgree(buf, d.value.1, OrDigit(x, d.value.0, i), i + 1, n);
      }
    }
  }

  lemma BigIntAgree(buf: Bytes, p: nat)
    ensures Agrees(ReadBigInt(Fast, buf, p), ReadBigInt(Stream, buf, p), |buf|)
  {
    FixedAgree(buf, p, 4);
    var size := ReadLong(Stream, buf, p);
    if size.Ok? {
      var n := size.value.0;
      DigitsAgree(buf, size.value.1, 0, 0, if n < 0 then -n else n);
    }
  }

  /**
   For every input, well-formed or not: the fast reader returns a value exactly when the
   stream reader returns it and ends within the input, and then both end at the same place.
   */
  lemma {:induction false} ReadersAgree(buf: Bytes, p: nat)
    ensures Agrees(Load(Fast, buf, p), Load(Stream, buf, p), |buf|)
    decreases |buf| - p, 1, 0
  {
    if p < |buf| {
      TaggedAgree(buf, buf[p], p + 1);
    }
  }

  lemma {:induction false} TaggedAgree(buf: Bytes, tag: Byte, p: nat)
    requires p <= |buf|
    ensures Agrees(LoadTagged(Fast, buf, tag, p), LoadTagged(Stream, buf, tag, p), |buf|)
    decreases |buf| - p, 4, 0
  {
    if tag in [TYPE_TUPLE, TYPE_LIST, TYPE_SET, TYPE_FROZENSET] {
      CountedAgree(buf, p);
    } else if tag == TYPE_DICT {
      PairsAgree(buf, p, []);
    } else if tag == TYPE_LONG {
      BigIntAgree(buf, p);
    } else {
      FixedAgree(buf, p, 4);
      FixedAgree(buf, p, 8);
    }
  }

  lemma {:induction false} CountedAgree(buf: Bytes, p: nat)
    requires p <= |buf|
    ensures Agrees(LoadCounted(Fast, buf, p), LoadCounted(Stream, buf, p), |buf|)
    decreases |buf| - p, 3, 0
  {
    FixedAgree(buf, p, 4);
    var n := ReadLong(Stream, buf, p);
    if n.Ok? {
      ItemsAgree(buf, n.value.1, if n.value.0 < 0 then 0 else n.value.0);
    }
  }

  lemma {:induction false} ItemsAgree(buf: Bytes, p: nat, n: nat)
    requires p <= |buf|
    ensures Agrees(LoadItems(Fast, buf, p, n), LoadItems(Stream, buf, p, n), |buf|)
    decreases |buf| - p, 2, n
  {
    if n > 0 {
      ReadersAgree(buf, p);
      var v := Load(Fast, buf, p);
      if v.Ok? {
        ItemsAgree(buf, v.value.1, n - 1);
      }
    }
  }

  lemma {:induction false} PairsAgree(buf: Bytes, p: nat, d: seq<Pair>)
    requires p <= |buf|
    ensures Agrees(LoadPairs(Fast, buf, p, d), LoadPairs(Stream, buf, p, d), |buf|)
    decreases |buf| - p, 2, 0
  {
    ReadersAgree(buf, p);
    var k := Load(Fast, buf, p);
    if k.Ok? && k.value.0 != Null {
      ReadersAgree(buf, k.value.1);
      var v := Load(Fast, buf, k.value.1);
      if v.Ok? {
        PairsAgree(buf, v.value.1, Insert(d, k.value.0, v.value.0));
      }
    }
  }

  /** A text cut short: the stream reader returns what there is, the fast reader refuses. */
  lemma TruncatedText()
    ensures var buf: Bytes := [TYPE_STRING, 2, 0, 0, 0, 'a' as int];
      Load(Stream, buf, 0) == Ok((Str(['a' as int]), 7)) && Load(Fast, buf, 0) == Err(EofError)
  {
    var buf: Bytes := [TYPE_STRING, 2, 0, 0, 0, 'a' as int];
    assert buf[1] == 2 && buf[2] == 0 && buf[3] == 0 && buf[4] == 0 && buf[5] == 'a' as int;
    var s := buf[1..5];
    assert s[0] == 2 && s[1] == 0 && s[2] == 0 && s[3] == 0;
    assert ReadLong(Stream, buf, 1) == ReadLong(Fast, buf, 1) == Ok((2, 5));
    assert Slice(buf, 5, 2) == ['a' as int];
  }
}
