/**
 The record and replay middleware of the hybrid pool (lib/gat/handlers/pool/pools/hybrid): what a
 client sends to a replica is recorded, and read again from the record when the primary takes over.
 The record is one byte slice with a read position (buffer.go); here the encoder's writer holds the
 slice and the decoder's reader the part of it that is not read yet.
 */
module Hybrid {
  import opened Collections
  import opened Codec
  import opened Decoder
  import opened Encoder
  import opened Packets

  /** A field of an ErrorResponse. */
  datatype ErrorField = ErrorField(code: char, value: string)

  datatype Outcome = Suppressed | ReadOnly | Forwarded

  const READ_ONLY_SQL_TRANSACTION := "25006"

  class Middleware {
    var primary: bool
    const enc: Encoder
    const dec: Decoder
    ghost var log: seq<Message>

    ghost predicate Sound()
      reads this, enc, dec, enc.writer, dec.reader, enc.buffer
    {
      && enc.Valid() && dec.Valid() && enc.buffer != dec.buffer && enc.buffer != dec.decodeBuf && enc.writer.reliable
      && enc.bufferPos == 0 && enc.packetPos == enc.packetLength
      && enc.writer.data == Wire(log)
      && (forall i :: 0 <= i < |log| ==> Sendable(log[i]))
    }

    /** While recording, only the packet just handed out may have bytes left to read. */
    ghost predicate Recording()
      requires Sound()
      reads this, enc, dec, enc.writer, dec.reader, enc.buffer, dec.buffer
    {
      !primary && 0 <= Left(dec) == |dec.Stream()|
    }

    /** While replaying, the last packet handed out was read to its end, and `rest` is still to come. */
    ghost predicate Replaying(rest: seq<Message>)
      requires Sound()
      reads this, enc, dec, enc.writer, dec.reader, enc.buffer, dec.buffer
    {
      primary && Left(dec) == 0 && dec.Stream() == Wire(rest) && forall i :: 0 <= i < |rest| ==> Sendable(rest[i])
    }

    constructor ()
      ensures Sound() && log == [] && Recording()
      ensures fresh(enc) && fresh(dec) && fresh(enc.writer) && fresh(dec.reader) && fresh(enc.buffer)
      ensures fresh(dec.buffer) && fresh(dec.decodeBuf)
    {
      primary, log := false, [];
      var w := new Writer(0, true);
      var r := new Reader([], []);
      enc := new Encoder(w);
      dec := new Decoder(r);
    }

    /** The packet goes into the record and is handed out from there. */
    method Record(m: Message)
      requires Sound() && Recording() && Sendable(m)
      modifies this`log, enc, dec, enc.writer, dec.reader, enc.buffer, dec.buffer, dec.decodeBuf
      ensures Sound() && Recording() && log == old(log) + [m]
      ensures dec.packetType == m.typ && dec.packetPos == 0 && dec.packetLength == |Encode(m.schema, m.value)|
      ensures dec.Stream() == Encode(m.schema, m.value)
    {
      hide Wire, Frame, Sendable, Encoder.Valid, Decoder.Valid, Decoder.Stream, Encoder.Output;
      ghost var unread := dec.Stream();
      var before := |enc.writer.data|;
      Settled(enc);
      var err := Send(enc, m);
      err := enc.Flush();
      WireAppend(log, m);
      Grow(enc.writer.data[before..]);
      assert dec.Stream() == unread + Frame(m);
      log := log + [m];
      FrameSize(m);
      var e := dec.Next(m.typ != 0);
      assert (unread + Frame(m))[|unread|..] == Frame(m) + [];
      FrameHeader(m, [], dec.packetLength, dec.packetType, dec.Stream());
      assert Encode(m.schema, m.value) + [] == Encode(m.schema, m.value);
    }

    /** ReadPacket: recorded on a replica, passed on as it is on the primary. */
    method ReadPacket(m: Message) returns (recorded: bool)
      requires Sound() && (primary || (Recording() && Sendable(m)))
      modifies this`log, enc, dec, enc.writer, dec.reader, enc.buffer, dec.buffer, dec.decodeBuf
      ensures Sound() && (recorded <==> !primary)
      ensures !recorded ==> log == old(log) && dec.Stream() == old(dec.Stream()) && Left(dec) == old(Left(dec))
      ensures recorded ==>
        && Recording() && log == old(log) + [m]
        && dec.packetType == m.typ && dec.packetPos == 0 && dec.packetLength == |Encode(m.schema, m.value)|
        && dec.Stream() == Encode(m.schema, m.value)
    {
      if primary {
        return false;
      }
      Record(m);
      return true;
    }

    /** What is appended to the slice can be read. */
    method Grow(b: seq<byte>)
      requires dec.Valid()
      modifies dec.reader
      ensures dec.Valid() && dec.Stream() == old(dec.Stream()) + b
    {
      ghost var buffered := dec.buffer[dec.bufferRead..dec.bufferWrite];
      assert buffered + (dec.reader.data + b) == buffered + dec.reader.data + b;
      dec.reader.data := dec.reader.data + b;
    }

    /** Primary: from now on the record is read from its start. */
    method Primary()
      requires Sound()
      modifies this`primary, dec, dec.reader
      ensures Sound() && log == old(log) && Replaying(log)
    {
      primary := true;
      dec.reader.data := enc.writer.data;
      dec.Reset();
    }

    /** Whether anything recorded is unread, in the slice or in the decoder's buffer. */
    method Buffered() returns (some: bool)
      requires dec.Valid()
      ensures some <==> dec.Stream() != []
    {
      some := |dec.reader.data| > 0 || dec.bufferWrite - dec.bufferRead > 0;
    }

    /** PreRead: the next recorded packet, or nothing, and then the live connection is read. */
    method PreRead(typed: bool, ghost rest: seq<Message>) returns (packet: bool)
      requires Sound() && (primary ==> Replaying(rest) && (rest != [] ==> (typed <==> rest[0].typ != 0)))
      modifies dec, dec.reader, dec.buffer, dec.decodeBuf
      ensures Sound() && (packet <==> primary && rest != [])
      ensures !packet ==> dec.Stream() == old(dec.Stream()) && Left(dec) == old(Left(dec))
      ensures packet ==>
        && dec.packetType == rest[0].typ && dec.packetPos == 0
        && var body := Encode(rest[0].schema, rest[0].value);
           dec.packetLength == |body| && dec.Stream() == body + Wire(rest[1..])
    {
      hide Frame, Sendable, Encoder.Valid, Decoder.Valid, Decoder.Stream;
      if !primary {
        return false;
      }
      var some := Buffered();
      if !some {
        if rest != [] {
          FrameSize(rest[0]);
        }
        return false;
      }
      FrameSize(rest[0]);
      assert dec.Stream()[0..] == dec.Stream();
      var e := dec.Next(typed);
      FrameHeader(rest[0], Wire(rest[1..]), dec.packetLength, dec.packetType, dec.Stream());
      return true;
    }

    /** WritePacket to the client; `fields` are those of an ErrorResponse, of any other packet none. */
    method WritePacket(fields: seq<ErrorField>) returns (outcome: Outcome)
      requires dec.Valid()
      ensures outcome == Suppressed <==> primary && dec.Stream() != []
      ensures outcome == ReadOnly ==> ErrorField('C', READ_ONLY_SQL_TRANSACTION) in fields
      ensures outcome == Forwarded ==> ErrorField('C', READ_ONLY_SQL_TRANSACTION) !in fields
    {
      if primary {
        var some := Buffered();
        if some {
          return Suppressed;
        }
      }
      for i := 0 to |fields|
        invariant ErrorField('C', READ_ONLY_SQL_TRANSACTION) !in fields[..i]
      {
        if fields[i].code == 'C' && fields[i].value == READ_ONLY_SQL_TRANSACTION {
          return ReadOnly;
        }
      }
      assert fields[..|fields|] == fields;
      return Forwarded;
    }

    /** Reset: a new record; the encoder's own packet position is left as it is. */
    method Reset()
      requires Sound()
      modifies this, enc`bufferPos, dec, enc.writer, dec.reader
      ensures Sound() && log == [] && Recording()
    {
      primary, log := false, [];
      enc.writer.data := [];
      enc.bufferPos := 0;
      dec.reader.data := [];
      dec.Reset();
    }

    /**
     The primary reads the whole record: the packets come with the types and values they were
     recorded with, in order, nothing is forwarded to the client before the last of them is read,
     and then reads go to the live connection.
     */
    method Replay(ghost ms: seq<Message>, typed: seq<bool>, schemas: seq<Schema>) returns (types: seq<byte>, values: seq<Value>)
      requires Sound() && Replaying(ms) && |typed| == |schemas| == |ms|
      requires forall i :: 0 <= i < |ms| ==> schemas[i] == ms[i].schema && (typed[i] <==> ms[i].typ != 0)
      modifies dec, dec.reader, dec.buffer, dec.decodeBuf
      ensures Sound() && Replaying([]) && |types| == |values| == |ms|
      ensures forall i :: 0 <= i < |ms| ==> types[i] == ms[i].typ && values[i] == ms[i].value
    {
      hide Frame, Sendable, Encoder.Valid, Decoder.Valid, Decoder.Stream, Decode, Encode;
      types, values := [], [];
      assert ms[0..] == ms;
      for i := 0 to |schemas|
        invariant Sound() && Replaying(ms[i..]) && |types| == |values| == i
        invariant forall j :: 0 <= j < i ==> types[j] == ms[j].typ && values[j] == ms[j].value
      {
        assert ms[i..][0] == ms[i] && ms[i..][1..] == ms[i + 1..];
        FrameSize(ms[i]);
        var outcome := WritePacket([]);
        assert outcome == Suppressed;
        var packet := PreRead(typed[i], ms[i..]);
        ReadsBack(ms[i], Wire(ms[i + 1..]));
        var v, err := ReadFrom(dec, schemas[i]);
        types, values := types + [dec.packetType], values + [v];
      }
      assert ms[|ms|..] == [];
      var packet := PreRead(true, []);
      assert !packet;
    }
  }

  lemma Settled(e: Encoder)
    requires e.Valid() && e.bufferPos == 0
    ensures e.Output() == e.writer.data
  {
    assert e.buffer[..0] == [];
  }

  lemma {:induction false} WireAppend(ms: seq<Message>, m: Message)
    ensures Wire(ms + [m]) == Wire(ms) + Frame(m)
  {
    hide Frame;
    if ms == [] {
      assert [m][1..] == [];
      assert ms + [m] == [m];
    } else {
      WireAppend(ms[1..], m);
      assert (ms + [m])[1..] == ms[1..] + [m];
    }
  }
}
