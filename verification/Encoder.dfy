/**
 The buffered Encoder of lib/fed/encoder.go and the pass-through of a PendingPacket in
 lib/fed/packet.go. Every method is specified by what it appends to the output: the bytes already
 handed to the writer followed by those still in the buffer.
 */
module Encoder {
  import opened Collections
  import opened Codec
  import opened Decoder

  datatype WriteError = WriteFailed | WrongNumberOfBytes | SourceEnded

  /** A sink that, unless it is reliable, accepts a number of writes and then fails. */
  class Writer {
    var data: seq<byte>
    var writes: nat
    const reliable: bool

    constructor (writes: nat, reliable: bool)
      ensures data == [] && this.writes == writes && this.reliable == reliable
    {
      data, this.writes, this.reliable := [], writes, reliable;
    }

    method Write(b: seq<byte>) returns (err: Option<WriteError>)
      modifies this
      ensures err.None? <==> reliable || old(writes) > 0
      ensures err.None? ==> data == old(data) + b
      ensures err.Some? ==> err.value == WriteFailed && unchanged(this)
    {
      if !reliable {
        if writes == 0 {
          return Some(WriteFailed);
        }
        writes := writes - 1;
      }
      data := data + b;
      return None;
    }
  }

  class Encoder {
    const buffer: array<byte>
    var bufferPos: nat
    const writer: Writer
    var packetType: byte
    var packetLength: int
    var packetPos: int

    constructor (writer: Writer)
      ensures Valid() && fresh(buffer) && this.writer == writer && Output() == writer.data
      ensures packetType == 0 && packetLength == 0 && packetPos == 0
    {
      buffer := new byte[BUFFER_SIZE](_ => 0);
      bufferPos, this.writer := 0, writer;
      packetType, packetLength, packetPos := 0, 0, 0;
    }

    ghost predicate Valid()
      reads this`bufferPos
    {
      buffer.Length == BUFFER_SIZE && bufferPos <= BUFFER_SIZE
    }

    /** All bytes written so far, flushed or not. */
    ghost function Output(): seq<byte>
      requires Valid()
      reads this`bufferPos, buffer, writer
    {
      writer.data + buffer[..bufferPos]
    }

    method Flush() returns (err: Option<WriteError>)
      requires Valid()
      modifies this`bufferPos, writer
      ensures Valid() && bufferPos == 0
      ensures err.None? ==> Output() == old(Output()) && writer.data == Output()
      ensures err.Some? ==> err.value == WriteFailed && !writer.reliable
    {
      if bufferPos == 0 {
        return None;
      }
      err := writer.Write(buffer[..bufferPos]);
      bufferPos := 0;
    }

    /** Copies bytes for which there is room. */
    method Append(b: seq<byte>)
      requires Valid() && bufferPos + |b| <= BUFFER_SIZE
      modifies this`bufferPos, buffer
      ensures Valid() && bufferPos == old(bufferPos) + |b| && Output() == old(Output()) + b
    {
      ghost var before := buffer[..bufferPos];
      Copy(buffer, bufferPos, b);
      bufferPos := bufferPos + |b|;
      assert buffer[..bufferPos] == before + b;
      assert writer.data + (before + b) == writer.data + before + b;
    }

    /** Makes room for k bytes, flushing if the buffer is too full. */
    method Reserve(k: nat) returns (err: Option<WriteError>)
      requires Valid() && k <= BUFFER_SIZE
      modifies this`bufferPos, writer
      ensures Valid()
      ensures err.None? ==> Output() == old(Output()) && bufferPos + k <= BUFFER_SIZE
      ensures err.Some? ==> err.value == WriteFailed && !writer.reliable
    {
      if bufferPos + k > buffer.Length {
        err := Flush();
        return;
      }
      return None;
    }

    method PutByte(b: byte) returns (err: Option<WriteError>)
      requires Valid()
      modifies this`bufferPos, buffer, writer
      ensures Valid()
      ensures err.None? ==> Output() == old(Output()) + [b]
      ensures err.Some? ==> err.value == WriteFailed && !writer.reliable
    {
      hide Output;
      err := Reserve(1);
      if err.Some? {
        return;
      }
      Append([b]);
    }

    /** Starts a packet; the previous one must have been written in full. */
    method Next(typ: byte, length: nat) returns (err: Option<WriteError>)
      requires Valid()
      modifies this`bufferPos, this`packetType, this`packetLength, this`packetPos, buffer, writer
      ensures Valid()
      ensures err == Some(WrongNumberOfBytes) <==> old(packetPos) != old(packetLength)
      ensures err.None? ==>
        && Output() == old(Output()) + (if typ != 0 then [typ] else []) + EncodeNum(4, length + 4)
        && packetType == typ && packetLength == length && packetPos == 0
      ensures err.Some? ==> err.value == WrongNumberOfBytes || (err.value == WriteFailed && !writer.reliable)
      ensures err == Some(WrongNumberOfBytes) ==> Output() == old(Output())
      ensures err.Some? ==> packetLength == old(packetLength) && packetPos == old(packetPos)
    {
      hide Output;
      if packetPos != packetLength {
        return Some(WrongNumberOfBytes);
      }
      ghost var header: seq<byte> := if typ != 0 then [typ] else [];
      assert Output() + [] == Output();
      if typ != 0 {
        err := PutByte(typ);
        if err.Some? {
          return;
        }
      }
      assert Output() == old(Output()) + header;
      err := Reserve(4);
      if err.Some? {
        return;
      }
      Append(EncodeNum(4, length + 4));
      packetType, packetLength, packetPos := typ, length, 0;
      return None;
    }

    /** Uint8 to Uint64: the position of a single byte advances even if it could not be written. */
    method Uint(w: nat, v: int) returns (err: Option<WriteError>)
      requires Valid() && w <= 8
      modifies this`bufferPos, this`packetPos, buffer, writer
      ensures Valid()
      ensures err.None? ==> Output() == old(Output()) + EncodeNum(w, v) && packetPos == old(packetPos) + w
      ensures err.None? ==> old(Output()) <= Output() && BigEndian(Output()[|old(Output())|..], v)
      ensures err.Some? ==> err.value == WriteFailed && !writer.reliable && packetPos == old(packetPos) + (if w == 1 then 1 else 0)
    {
      hide Output, BigEndian;
      err := Reserve(w);
      if err.Some? {
        if w == 1 {
          packetPos := packetPos + 1;
        }
        return;
      }
      Append(EncodeNum(w, v));
      packetPos := packetPos + w;
      NumIsBigEndian(w, v);
      assert Output()[|old(Output())|..] == EncodeNum(w, v);
    }

    /** Everything that is left of the source's packet, or of the source if that ends first. */
    method ReadFrom(r: Decoder) returns (n: nat, err: Option<WriteError>)
      requires Valid() && r.Valid() && r.packetPos <= r.packetLength
      requires buffer != r.buffer
      modifies this`bufferPos, this`packetPos, buffer, writer, r`bufferRead, r`bufferWrite, r`packetPos, r.buffer, r.reader
      ensures Valid() && r.Valid() && n <= |old(r.Stream())|
      ensures packetPos == old(packetPos) + n && r.packetPos == old(r.packetPos) + n <= r.packetLength
      ensures r.Stream() == old(r.Stream())[n..]
      ensures err.None? ==> n > 0 && (r.packetPos == r.packetLength || r.Stream() == [])
      ensures err.None? ==> Output() == old(Output()) + old(r.Stream())[..n]
      ensures err == Some(SourceEnded) ==> n == 0 && (r.packetPos == r.packetLength || r.Stream() == [])
      ensures err.Some? ==> err.value != WrongNumberOfBytes
    {
      hide Output, Decoder.Stream, Decoder.Valid;
      n := 0;
      ghost var s := r.Stream();
      assert Output() + s[..0] == Output() && s[0..] == s;
      while true
        invariant Valid() && r.Valid() && packetPos == old(packetPos) && n <= |s|
        invariant r.packetPos == old(r.packetPos) + n <= r.packetLength
        invariant r.Stream() == s[n..] && Output() == old(Output()) + s[..n]
        decreases r.packetLength - r.packetPos
      {
        if bufferPos >= buffer.Length {
          err := Flush();
          if err.Some? {
            packetPos := packetPos + n;
            return;
          }
        }
        var count, end := Receive(r);
        Relay(old(Output()), s, n, count);
        n := n + count;
        if end {
          break;
        }
      }
      packetPos := packetPos + n;
      if n == 0 {
        return n, Some(SourceEnded);
      }
      return n, None;
    }

    /** One read of the source straight into the buffer; its only error is the end of its packet or of itself. */
    method Receive(r: Decoder) returns (count: nat, end: bool)
      requires Valid() && r.Valid() && r.packetPos <= r.packetLength && bufferPos < BUFFER_SIZE
      requires buffer != r.buffer
      modifies this`bufferPos, buffer, r`bufferRead, r`bufferWrite, r`packetPos, r.buffer, r.reader
      ensures Valid() && r.Valid() && count <= |old(r.Stream())|
      ensures Output() == old(Output()) + old(r.Stream())[..count] && r.Stream() == old(r.Stream())[count..]
      ensures r.packetPos == old(r.packetPos) + count <= r.packetLength
      ensures end <==> old(r.packetPos) == r.packetLength || old(r.Stream()) == []
      ensures if end then count == 0 else count > 0
    {
      hide Decoder.Stream, Decoder.Valid;
      ghost var b, s := buffer[..], r.Stream();
      var err;
      count, err := r.Read(buffer, bufferPos, buffer.Length);
      Filled(b, buffer[..], s, 0, bufferPos, count);
      assert buffer[..bufferPos + count] == b[..bufferPos] + s[..count];
      assert writer.data + (b[..bufferPos] + s[..count]) == writer.data + b[..bufferPos] + s[..count];
      bufferPos := bufferPos + count;
      end := err.Some?;
    }

    /** A zero-terminated string, flushed piece by piece as the buffer fills. */
    method String(v0: seq<byte>) returns (err: Option<WriteError>)
      requires Valid()
      modifies this`bufferPos, this`packetPos, buffer, writer
      ensures Valid()
      ensures err.None? ==> Output() == old(Output()) + (v0 + [0]) && packetPos == old(packetPos) + |v0| + 1
      ensures err.Some? ==> err.value == WriteFailed && !writer.reliable
    {
      hide Output;
      var v := v0;
      ghost var done := [];
      assert Output() + [] == Output();
      while |v| > 0
        invariant Valid() && v0 == done + v && Output() == old(Output()) + done
        invariant packetPos == old(packetPos) + |done|
        decreases |v|, bufferPos
      {
        var n := Min(buffer.Length - bufferPos, |v|);
        Append(v[..n]);
        Advance(old(Output()), v0, done, v, n);
        done := done + v[..n];
        packetPos := packetPos + n;
        v := v[n..];
        if bufferPos >= buffer.Length {
          err := Flush();
          if err.Some? {
            return;
          }
        }
      }
      assert done + [] == done;
      err := PutByte(0);
      if err.Some? {
        return;
      }
      assert old(Output()) + v0 + [0] == old(Output()) + (v0 + [0]);
      packetPos := packetPos + 1;
    }
  }

  lemma Relay(out: seq<byte>, s: seq<byte>, n: nat, count: nat)
    requires n + count <= |s|
    ensures out + s[..n] + s[n..][..count] == out + s[..n + count] && s[n..][count..] == s[n + count..]
  {
    assert s[..n] + s[n..][..count] == s[..n + count];
  }

  /**
   PendingPacket.WriteTo: forwards a packet of any length through both buffers. On success the
   output is extended by exactly the bytes of the packet and the source is left at its end.
   */
  method WritePending(r: Decoder, e: Encoder) returns (err: Option<WriteError>)
    requires e.Valid() && r.Valid() && e.buffer != r.buffer
    modifies e`bufferPos, e`packetPos, e.buffer, e.writer, r`bufferRead, r`bufferWrite, r`packetPos, r.buffer, r.reader
    ensures e.Valid() && r.Valid()
    ensures err.None? ==>
      var rem := Unread(old(r.packetPos), r.packetLength);
      && r.packetPos == old(r.packetPos) + rem && rem <= |old(r.Stream())| && r.Stream() == old(r.Stream())[rem..]
      && e.Output() == old(e.Output()) + old(r.Stream())[..rem] && e.packetPos == old(e.packetPos) + rem
    ensures err == Some(SourceEnded) ==> |old(r.Stream())| < Unread(old(r.packetPos), r.packetLength)
  {
    hide Encoder.Output, Decoder.Stream, Decoder.Valid, Encoder.Valid;
    ghost var s, n := r.Stream(), 0;
    assert e.Output() + s[..0] == e.Output() && s[0..] == s;
    while r.packetPos < r.packetLength
      invariant e.Valid() && r.Valid() && n <= |s|
      invariant r.packetPos == old(r.packetPos) + n && n <= Unread(old(r.packetPos), r.packetLength) && e.packetPos == old(e.packetPos) + n
      invariant r.Stream() == s[n..] && e.Output() == old(e.Output()) + s[..n]
      decreases r.packetLength - r.packetPos
    {
      var count;
      count, err := e.ReadFrom(r);
      if err.Some? {
        return;
      }
      Relay(old(e.Output()), s, n, count);
      n := n + count;
    }
    err := None;
  }

  /** What is left of a packet; nothing once its fields have overrun it. */
  function Unread(pos: int, length: int): nat {
    if pos < length then length - pos else 0
  }

  lemma Advance(out: seq<byte>, all: seq<byte>, done: seq<byte>, v: seq<byte>, n: nat)
    requires all == done + v && n <= |v|
    ensures all == (done + v[..n]) + v[n..] && out + done + v[..n] == out + (done + v[..n])
  {
    assert v == v[..n] + v[n..];
  }
}
