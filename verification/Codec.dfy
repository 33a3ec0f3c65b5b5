/**
 The framing of the TCP chat protocol: a 2-byte type and a 4-byte length, both big-endian,
 followed by the value. `Encode` and `Decode` are the specification; the methods below them
 work on byte buffers and on a reader that delivers its bytes in arbitrary chunks.
 */
module Codec {
  import opened Common

  type byte = b: int | 0 <= b < 0x100
  type uint16 = n: int | 0 <= n < 0x1_0000
  type uint32 = n: int | 0 <= n < 0x1_0000_0000

  const HEAD_LEN: nat := 6
  const MAX_VALUE: nat := 0x10_0000

  datatype Frame = Frame(typ: uint16, length: uint32, value: seq<byte>) {
    /** A frame as the decoder produces it: its length field counts its value, within the bound. */
    predicate WellFormed() {
      length == |value| <= MAX_VALUE
    }

    /** The frame that the wire carries: the length field is recomputed, modulo the width of uint32. */
    function OnWire(): Frame {
      Frame(typ, |value| % 0x1_0000_0000, value)
    }
  }

  datatype DecodeError = HeaderCut | TooLarge(size: uint32) | ValueCut

  datatype Decoded =
    | Got(frame: Frame, rest: seq<byte>)
    | Failed(error: DecodeError, rest: seq<byte>)

  /** What the read loop sees of a stream: the frames it handles, then the error that ends it. */
  datatype Stream = Stream(frames: seq<Frame>, error: DecodeError, rest: seq<byte>)

  function BigEndian16(n: uint16): seq<byte> {
    [n / 0x100, n % 0x100]
  }

  function BigEndian32(n: uint32): seq<byte> {
    [n / 0x100_0000, n / 0x1_0000 % 0x100, n / 0x100 % 0x100, n % 0x100]
  }

  function Value16(b: seq<byte>): uint16
    requires |b| == 2
  {
    b[0] as int * 0x100 + b[1] as int
  }

  function Value32(b: seq<byte>): uint32
    requires |b| == 4
  {
    b[0] as int * 0x100_0000 + b[1] as int * 0x1_0000 + b[2] as int * 0x100 + b[3] as int
  }

  function Encode(f: Frame): seq<byte> {
    BigEndian16(f.typ) + BigEndian32(f.OnWire().length) + f.value
  }

  function Decode(b: seq<byte>): Decoded {
    if |b| < HEAD_LEN then Failed(HeaderCut, [])
    else
      var length := Value32(b[2..6]);
      if length > MAX_VALUE then Failed(TooLarge(length), b[6..])
      else if |b| < HEAD_LEN + length then Failed(ValueCut, [])
      else Got(Frame(Value16(b[..2]), length, b[6..6 + length]), b[6 + length..])
  }

  function EncodeAll(fs: seq<Frame>): seq<byte> {
    if fs == [] then [] else Encode(fs[0]) + EncodeAll(fs[1..])
  }

  function OnWireAll(fs: seq<Frame>): seq<Frame> {
    seq(|fs|, i requires 0 <= i < |fs| => fs[i].OnWire())
  }

  function DecodeAll(b: seq<byte>): Stream
    decreases |b|
  {
    match Decode(b)
    case Failed(error, rest) => Stream([], error, b)
    case Got(frame, rest) =>
      var more := DecodeAll(rest);
      more.(frames := [frame] + more.frames)
  }

  // ---------------------------------------------------------------- one frame

  lemma BigEndianInverse(n: uint32)
    ensures Value32(BigEndian32(n)) == n
  {
    var b := BigEndian32(n);
    assert n == b[0] as int * 0x100_0000 + n % 0x100_0000;
    assert n % 0x100_0000 == b[1] as int * 0x1_0000 + n % 0x1_0000;
    assert n % 0x1_0000 == b[2] as int * 0x100 + b[3] as int;
  }

  lemma ValueInverse(b: seq<byte>)
    requires |b| == 4
    ensures BigEndian32(Value32(b)) == b
  {
    var n := Value32(b);
    assert n / 0x100_0000 == b[0];
    assert n / 0x1_0000 == b[0] as int * 0x100 + b[1] as int;
    assert n / 0x100 == (b[0] as int * 0x100 + b[1] as int) * 0x100 + b[2] as int;
  }

  /** The header of an encoding, read back with anything behind it. */
  lemma HeaderOfEncoding(f: Frame, tail: seq<byte>)
    ensures var b := Encode(f) + tail;
            && |b| == HEAD_LEN + |f.value| + |tail|
            && Value16(b[..2]) == f.typ
            && Value32(b[2..6]) == f.OnWire().length
            && b[6..] == f.value + tail
  {
    var b := Encode(f) + tail;
    assert b[..2] == BigEndian16(f.typ);
    assert b[2..6] == BigEndian32(f.OnWire().length);
    BigEndianInverse(f.OnWire().length);
  }

  /** Where the fields are on the wire: two bytes of type, four of length, the most significant first, the value. */
  lemma Layout(f: Frame)
    ensures var b := Encode(f);
            && |b| == 6 + |f.value|
            && b[0] as int * 256 + b[1] as int == f.typ
            && ((b[2] as int * 256 + b[3] as int) * 256 + b[4] as int) * 256 + b[5] as int
               == |f.value| % 4_294_967_296
            && b[6..] == f.value
  {
    HeaderOfEncoding(f, []);
    assert Encode(f) + [] == Encode(f);
    var typ, length := Encode(f)[..2], Encode(f)[2..6];
    assert Value16(typ) == typ[0] as int * 0x100 + typ[1] as int;
    assert Value32(length) == ((length[0] as int * 256 + length[1] as int) * 256 + length[2] as int) * 256
                              + length[3] as int;
  }

  /** A frame survives the wire, whatever follows it, exactly when its value has at most 2^20 bytes. */
  lemma {:induction false} RoundTripIff(f: Frame, tail: seq<byte>)
    ensures Decode(Encode(f) + tail) == Got(f.OnWire(), tail) <==> |f.value| <= 1_048_576
  {
    HeaderOfEncoding(f, tail);
    var b := Encode(f) + tail;
    if |f.value| <= MAX_VALUE {
      assert b[6..6 + |f.value|] == b[6..][..|f.value|] == f.value;
      assert b[6 + |f.value|..] == b[6..][|f.value|..] == tail;
    }
  }

  /** A value over the bound whose size fits the length field is refused by its size. */
  lemma OversizeIsRefused(f: Frame, tail: seq<byte>)
    requires 1_048_576 < |f.value| < 0x1_0000_0000
    ensures Decode(Encode(f) + tail) == Failed(TooLarge(|f.value|), f.value + tail)
  {
    HeaderOfEncoding(f, tail);
  }

  /** An encoding cut anywhere before its end gives an error, never a partial frame. */
  lemma {:induction false} CutIsRefused(f: Frame, n: nat)
    requires |f.value| <= MAX_VALUE && n < |Encode(f)|
    ensures Decode(Encode(f)[..n]) == Failed(if n < HEAD_LEN then HeaderCut else ValueCut, [])
  {
    if HEAD_LEN <= n {
      HeaderOfEncoding(f, []);
      assert Encode(f) + [] == Encode(f);
      assert Encode(f)[..n][2..6] == Encode(f)[2..6];
    }
  }

  /** Decoding inverts: the bytes consumed are the encoding of the frame returned. */
  lemma {:induction false} DecodeIsInverse(b: seq<byte>)
    requires Decode(b).Got?
    ensures Decode(b).frame.WellFormed()
    ensures b == Encode(Decode(b).frame) + Decode(b).rest
  {
    var f := Decode(b).frame;
    ValueInverse(b[2..6]);
    assert BigEndian16(f.typ) == b[..2] by {
      var t := b[..2];
      assert f.typ == t[0] as int * 0x100 + t[1] as int;
    }
    assert b == b[..2] + b[2..6] + b[6..6 + f.length] + b[6 + f.length..];
  }

  // ------------------------------------------------------------- whole streams

  /** Decoding a list of encodings gives the list back and goes on with whatever follows. */
  lemma {:induction false} StreamRoundTrip(fs: seq<Frame>, tail: seq<byte>)
    requires forall f <- fs :: |f.value| <= MAX_VALUE
    ensures DecodeAll(EncodeAll(fs) + tail)
         == var more := DecodeAll(tail); more.(frames := OnWireAll(fs) + more.frames)
  {
    hide Decode, Encode;
    if fs == [] {
      assert EncodeAll(fs) + tail == tail;
      assert OnWireAll(fs) + DecodeAll(tail).frames == DecodeAll(tail).frames;
    } else {
      var behind := EncodeAll(fs[1..]) + tail;
      assert EncodeAll(fs) + tail == Encode(fs[0]) + behind;
      RoundTripIff(fs[0], behind);
      StreamRoundTrip(fs[1..], tail);
      assert OnWireAll(fs) == [fs[0].OnWire()] + OnWireAll(fs[1..]);
      assert OnWireAll(fs) + DecodeAll(tail).frames
          == [fs[0].OnWire()] + (OnWireAll(fs[1..]) + DecodeAll(tail).frames);
    }
  }

  /** Decoding consumes every byte of a list of encodings and nothing is left over. */
  lemma {:induction false} StreamIsConsumed(fs: seq<Frame>)
    requires forall f <- fs :: |f.value| <= MAX_VALUE
    ensures DecodeAll(EncodeAll(fs)) == Stream(OnWireAll(fs), HeaderCut, [])
  {
    StreamRoundTrip(fs, []);
    assert EncodeAll(fs) + [] == EncodeAll(fs);
    assert OnWireAll(fs) + [] == OnWireAll(fs);
  }

  /** Any stream is the encoding of the frames handled, then a rest that starts with no frame. */
  lemma {:induction false} StreamSplits(b: seq<byte>)
    ensures var s := DecodeAll(b);
            && b == EncodeAll(s.frames) + s.rest
            && (forall f <- s.frames :: f.WellFormed())
            && Decode(s.rest).Failed? && Decode(s.rest).error == s.error
            && HEAD_LEN * |s.frames| <= |b|
    decreases |b|
  {
    hide Decode, Encode;
    if Decode(b).Got? {
      DecodeIsInverse(b);
      HeaderOfEncoding(Decode(b).frame, Decode(b).rest);
      StreamSplits(Decode(b).rest);
      var s := DecodeAll(b);
      assert s.frames[1..] == DecodeAll(Decode(b).rest).frames;
      assert b == Encode(s.frames[0]) + (EncodeAll(s.frames[1..]) + s.rest);
    }
  }

  /**
   The frames handled are the longest decodable prefix: every list of frames the stream starts with is a prefix
   of them.
   */
  lemma {:induction false} StreamIsLongest(b: seq<byte>, gs: seq<Frame>)
    requires forall g <- gs :: g.WellFormed()
    requires EncodeAll(gs) <= b
    ensures gs <= DecodeAll(b).frames
  {
    hide Decode, Encode;
    if gs != [] {
      var tail := b[|EncodeAll(gs)|..];
      StreamRoundTrip(gs, tail);
      assert b == EncodeAll(gs) + tail;
      assert forall i | 0 <= i < |gs| :: gs[i].OnWire() == gs[i] by {
        assert forall i | 0 <= i < |gs| :: gs[i] in gs;
      }
      assert OnWireAll(gs) == gs;
    }
  }

  // --------------------------------------------------------------- the methods

  method PutUint16(buf: array<byte>, at: nat, n: uint16)
    requires at + 2 <= buf.Length
    modifies buf
    ensures buf[..] == old(buf[..at]) + BigEndian16(n) + old(buf[at + 2..])
  {
    buf[at], buf[at + 1] := n / 0x100, n % 0x100;
  }

  method PutUint32(buf: array<byte>, at: nat, n: uint32)
    requires at + 4 <= buf.Length
    modifies buf
    ensures buf[..] == old(buf[..at]) + BigEndian32(n) + old(buf[at + 4..])
  {
    buf[at], buf[at + 1] := n / 0x100_0000, n / 0x1_0000 % 0x100;
    buf[at + 2], buf[at + 3] := n / 0x100 % 0x100, n % 0x100;
  }

  method EncodeFrame(f: Frame) returns (buf: array<byte>)
    ensures fresh(buf) && buf[..] == Encode(f)
  {
    buf := new byte[HEAD_LEN + |f.value|];
    PutUint16(buf, 0, f.typ);
    PutUint32(buf, 2, |f.value| % 0x1_0000_0000);
    ghost var head := buf[..6];
    assert head == BigEndian16(f.typ) + BigEndian32(f.OnWire().length);
    forall i | 0 <= i < |f.value| {
      buf[6 + i] := f.value[i];
    }
    assert buf[..6] == head;
    assert buf[6..] == f.value;
  }

  function Flatten(chunks: seq<seq<byte>>): seq<byte> {
    if chunks == [] then [] else chunks[0] + Flatten(chunks[1..])
  }

  /** The receiving end of a connection: bytes arrive in chunks that ignore frame boundaries. */
  class Reader {
    var chunks: seq<seq<byte>>

    constructor (chunks: seq<seq<byte>>)
      ensures this.chunks == chunks
    {
      this.chunks := chunks;
    }

    ghost function Bytes(): seq<byte>
      reads this
    {
      Flatten(chunks)
    }

    /** Delivers at most one chunk into buf[at..]; fails only when the stream has ended. */
    method Read(buf: array<byte>, at: nat) returns (n: nat, ok: bool)
      requires at < buf.Length
      modifies this, buf
      ensures ok <==> old(chunks) != []
      ensures at + n <= buf.Length && buf[..at] == old(buf[..at])
      ensures buf[at..at + n] + Bytes() == old(Bytes())
      ensures ok ==> |chunks| < old(|chunks|) || at + n == buf.Length
      ensures !ok ==> n == 0 && chunks == []
    {
      if chunks == [] {
        return 0, false;
      }
      var c := chunks[0];
      n := if |c| <= buf.Length - at then |c| else buf.Length - at;
      ok := true;
      forall i | 0 <= i < n {
        buf[at + i] := c[i];
      }
      chunks := if n == |c| then chunks[1..] else [c[n..]] + chunks[1..];
      assert buf[at..at + n] == c[..n];
      assert c[..n] + c[n..] == c;
      if n < |c| {
        assert chunks[1..] == old(chunks)[1..];
      }
    }
  }

  method ReadFull(r: Reader, buf: array<byte>) returns (ok: bool)
    modifies r, buf
    ensures ok <==> buf.Length <= |old(r.Bytes())|
    ensures ok ==> buf[..] + r.Bytes() == old(r.Bytes())
    ensures !ok ==> r.Bytes() == []
  {
    var n := 0;
    while n < buf.Length
      invariant 0 <= n <= buf.Length
      invariant buf[..n] + r.Bytes() == old(r.Bytes())
      decreases buf.Length != n, |r.chunks|
    {
      ghost var before, had := buf[..n], r.Bytes();
      var k, more := r.Read(buf, n);
      if !more {
        return false;
      }
      assert buf[..n + k] == before + buf[n..n + k];
      n := n + k;
    }
    assert buf[..] == buf[..n];
    ok := true;
  }

  method DecodeFrame(r: Reader) returns (d: Result<Frame, DecodeError>)
    modifies r
    ensures match Decode(old(r.Bytes()))
            case Got(frame, rest) => d == Ok(frame) && r.Bytes() == rest
            case Failed(error, rest) => d == Err(error) && r.Bytes() == rest
  {
    ghost var b := r.Bytes();
    var header := new byte[HEAD_LEN];
    var ok := ReadFull(r, header);
    if !ok {
      return Err(HeaderCut);
    }
    ghost var body := r.Bytes();
    assert b == header[..] + body;
    assert b[..2] == header[..2] && b[2..6] == header[2..6] && b[6..] == body;
    var typ, length := Value16(header[..2]), Value32(header[2..6]);
    if length > MAX_VALUE {
      return Err(TooLarge(length));
    }
    var value: seq<byte> := [];
    if length > 0 {
      var buf := new byte[length];
      ok := ReadFull(r, buf);
      if !ok {
        return Err(ValueCut);
      }
      value := buf[..];
    }
    assert body == value + r.Bytes();
    assert b[6..6 + length] == body[..length] == value;
    assert b[6 + length..] == body[length..] == r.Bytes();
    d := Ok(Frame(typ, length, value));
  }

  /** The read loop of one connection: `handled` is what it hands to the message handler, in order. */
  method ReadLoop(r: Reader) returns (handled: seq<Frame>, error: DecodeError)
    modifies r
    ensures handled == DecodeAll(old(r.Bytes())).frames
    ensures error == DecodeAll(old(r.Bytes())).error
  {
    handled := [];
    ghost var all := DecodeAll(r.Bytes());
    while true
      invariant all.frames == handled + DecodeAll(r.Bytes()).frames
      invariant all.error == DecodeAll(r.Bytes()).error
      decreases |r.Bytes()|
    {
      var d := DecodeFrame(r);
      if d.Err? {
        return handled, d.error;
      }
      handled := handled + [d.value];
    }
  }
}
