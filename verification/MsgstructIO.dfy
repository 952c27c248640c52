/** The class `IO` of dotviewer/msgstruct.py: messages from a stream that arrives in pieces. */
module MsgstructIO {
  import opened Wrappers
  import opened Msgstruct
  import opened MsgstructRoundTrip

  /** What a read gives; nothing at all means the end of the stream. */
  type Piece = s: seq<Byte> | s != [] witness [0]

  function Concat(chunks: seq<Piece>): seq<Byte> {
    if chunks == [] then [] else chunks[0] + Concat(chunks[1..])
  }

  /** What `recvmsg` returns or raises. */
  datatype Received =
    | Received(tp: Byte, values: seq<Value>)
    | RemoteError(values: seq<Value>)
    | EOFError
    | Malformed

  /** The outcome for a stream, of which Decode is given all that will ever arrive. */
  function Reaction(d: Decoded): Received {
    match d
    case More => EOFError
    case Malformed => Received.Malformed
    case Msg(tp, values, rest) => if tp != MSG_ERROR then Received(tp, values) else RemoteError(values)
  }

  class IO {
    var buffer: seq<Byte>
    /** What the reads of the file or socket will give before its end. */
    var incoming: seq<Piece>

    constructor (incoming: seq<Piece>)
      ensures buffer == [] && this.incoming == incoming
    {
      buffer := [];
      this.incoming := incoming;
    }

    /** All that has arrived but is in no message yet, and all that will arrive. */
    ghost function Stream(): seq<Byte>
      reads this
    {
      buffer + Concat(incoming)
    }

    /** `recv`. */
    method Recv() returns (data: Option<Piece>)
      modifies `incoming
      ensures old(incoming) == [] <==> data.None?
      ensures data.None? ==> incoming == []
      ensures data.Some? ==> incoming == old(incoming)[1..] && data.value == old(incoming)[0]
    {
      if incoming == [] {
        return None;
      }
      data := Some(incoming[0]);
      incoming := incoming[1..];
    }

    /**
      * `recvmsg`: the outcome depends on the stream only, not on the pieces it arrives in, and what
      * follows the message stays for the next call.
      */
    method Recvmsg() returns (r: Received)
      modifies this
      ensures r == Reaction(Decode(old(Stream())))
      ensures Stream() == if Decode(old(Stream())).Msg? then Decode(old(Stream())).rest else old(Stream())
    {
      while true
        invariant Stream() == old(Stream())
        decreases |incoming|
      {
        var msg := Decode(buffer);
        DecodeMonotone(buffer, Concat(incoming));
        if msg.Malformed? {
          return Received.Malformed;
        }
        if msg.Msg? {
          buffer := msg.rest;
          return if msg.tp != MSG_ERROR then Received(msg.tp, msg.values) else RemoteError(msg.values);
        }
        var data := Recv();
        if data.None? {
          assert buffer + [] == buffer;
          return EOFError;
        }
        assert buffer + (data.value + Concat(incoming)) == (buffer + data.value) + Concat(incoming);
        buffer := buffer + data.value;
      }
    }
  }

  datatype Sent = Sent(tp: Byte, values: seq<Value>)

  /** A message that a receiver sees as it was sent: one of type NUL must be so long that it is wrapped. */
  type Sendable = m: Sent | CanBeSent(m) witness Sent(MSG_ERROR, [])

  predicate CanBeSent(m: Sent) {
    Sized(m.values) && Packable(m.values) && (m.tp != NUL || |TypeCodes(m.values)| >= 256)
  }

  function Wire(ms: seq<Sendable>): seq<Byte> {
    if ms == [] then [] else Message(ms[0].tp, ms[0].values).data + Wire(ms[1..])
  }

  function Outcome(m: Sendable): Received {
    if m.tp != MSG_ERROR then Received(m.tp, m.values) else RemoteError(m.values)
  }

  function Outcomes(ms: seq<Sendable>): (r: seq<Received>)
    ensures |r| == |ms| && forall i :: 0 <= i < |ms| ==> r[i] == Outcome(ms[i])
  {
    seq(|ms|, i requires 0 <= i < |ms| => Outcome(ms[i]))
  }

  lemma OutcomesSnoc(ms: seq<Sendable>, i: nat)
    requires i < |ms|
    ensures Outcomes(ms[..i + 1]) == Outcomes(ms[..i]) + [Outcome(ms[i])]
  {
    assert ms[..i + 1] == ms[..i] + [ms[i]];
  }

  method ReceiveNext(io: IO, ghost ms: seq<Sendable>, ghost i: nat) returns (r: Received)
    requires i < |ms| && io.Stream() == Wire(ms[i..])
    modifies io
    ensures r == Outcome(ms[i]) && io.Stream() == Wire(ms[i + 1..])
  {
    assert ms[i..][1..] == ms[i + 1..];
    RoundTrip(ms[i].tp, ms[i].values, Wire(ms[i + 1..]));
    r := io.Recvmsg();
  }

  method ReceiveEnd(io: IO) returns (r: Received)
    requires io.Stream() == []
    modifies io
    ensures r == EOFError
  {
    r := io.Recvmsg();
  }

  /** All messages sent over a stream arrive, whatever the pieces that it is cut into, and nothing else. */
  method ReceiveAll(ms: seq<Sendable>, chunks: seq<Piece>) returns (rs: seq<Received>, last: Received)
    requires Concat(chunks) == Wire(ms)
    ensures rs == Outcomes(ms) && last == EOFError
  {
    var io := new IO(chunks);
    assert io.Stream() == Wire(ms[0..]);
    rs := [];
    for i := 0 to |ms|
      invariant rs == Outcomes(ms[..i])
      invariant io.Stream() == Wire(ms[i..])
    {
      var r := ReceiveNext(io, ms, i);
      rs := rs + [r];
      OutcomesSnoc(ms, i);
    }
    assert ms[..|ms|] == ms;
    last := ReceiveEnd(io);
  }
}
