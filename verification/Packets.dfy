/**
 The code that hack/packetgen generates for a packet type: WriteTo and ReadFrom as loops over an
 Encoder and a Decoder, proved against the schema-directed functions of module Codec, and the
 framing of a packet by its header.
 */
module Packets {
  import opened Collections
  import opened Codec
  import opened Decoder
  import opened Encoder

  // ---- WriteTo ---------------------------------------------------------------------------

  method WriteBasic(e: Encoder, b: Basic, v: Value) returns (err: Option<WriteError>)
    requires e.Valid()
    modifies e`bufferPos, e`packetPos, e.buffer, e.writer
    ensures e.Valid()
    ensures err.Some? ==> err.value == WriteFailed && !e.writer.reliable
    ensures err.None? ==> e.Output() == old(e.Output()) + EncodeBasic(b, v) && e.packetPos == old(e.packetPos) + |EncodeBasic(b, v)|
  {
    hide Encoder.Output, EncodeNum;
    err := None;
    assert e.Output() + [] == e.Output();
    match b
    case Str =>
      if v.Text? {
        err := e.String(v.text);
      }
    case _ =>
      if v.Num? {
        err := e.Uint(b.width, v.n);
      }
  }

  method WriteTo(e: Encoder, s: Schema, v: Value) returns (err: Option<WriteError>)
    requires e.Valid()
    modifies e`bufferPos, e`packetPos, e.buffer, e.writer
    ensures e.Valid()
    ensures err.Some? ==> err.value == WriteFailed && !e.writer.reliable
    ensures err.None? ==> e.Output() == old(e.Output()) + Encode(s, v) && e.packetPos == old(e.packetPos) + |Encode(s, v)|
    decreases s, 1, 0
  {
    hide Encoder.Output, EncodeBasic, EncodeItems, EncodeFields, EncodeRows, EncodeCase;
    err := None;
    assert e.Output() + [] == e.Output();
    match s
    case Base(b) => err := WriteBasic(e, b, v);
    case Array(_, item) =>
      if v.List? {
        err := WriteItems(e, item, v.items);
      }
    case Struct(fields) =>
      if v.List? {
        err := WriteFields(e, fields, v.items);
      }
    case LengthPrefixed(p, item) =>
      if v.List? {
        err := WriteBasic(e, p, Num(|v.items|));
        if err.Some? {
          return;
        }
        err := WriteItems(e, item, v.items);
        Assoc(old(e.Output()), EncodeBasic(p, Num(|v.items|)), EncodeItems(item, v.items));
      }
    case NullablePrefixed(p, item) =>
      if v.Null? {
        err := WriteBasic(e, p, Num(-1));
      } else if v.List? {
        err := WriteBasic(e, p, Num(|v.items|));
        if err.Some? {
          return;
        }
        err := WriteItems(e, item, v.items);
        Assoc(old(e.Output()), EncodeBasic(p, Num(|v.items|)), EncodeItems(item, v.items));
      }
    case ZeroTerminated(fields) =>
      if v.List? && fields.Field? {
        err := WriteRows(e, fields, v.items);
        if err.Some? {
          return;
        }
        err := WriteTo(e, fields.schema, Zero(fields.schema));
        Assoc(old(e.Output()), EncodeRows(fields, v.items), Encode(fields.schema, Zero(fields.schema)));
      }
    case Remaining(item) =>
      if v.List? {
        err := WriteItems(e, item, v.items);
      }
    case Map(p, cases) =>
      if v.Tagged? {
        err := WriteBasic(e, p, Num(v.tag));
        if err.Some? {
          return;
        }
        err := WriteCase(e, cases, v.tag, v.value);
        Assoc(old(e.Output()), EncodeBasic(p, Num(v.tag)), EncodeCase(cases, v.tag, v.value));
      }
  }

  lemma Assoc(a: seq<byte>, b: seq<byte>, c: seq<byte>)
    ensures a + b + c == a + (b + c)
  {
  }

  method WriteItems(e: Encoder, s: Schema, vs: seq<Value>) returns (err: Option<WriteError>)
    requires e.Valid()
    modifies e`bufferPos, e`packetPos, e.buffer, e.writer
    ensures e.Valid()
    ensures err.Some? ==> err.value == WriteFailed && !e.writer.reliable
    ensures err.None? ==> e.Output() == old(e.Output()) + EncodeItems(s, vs) && e.packetPos == old(e.packetPos) + |EncodeItems(s, vs)|
    decreases s, 2, 0
  {
    hide Encoder.Output, Encode;
    for i := 0 to |vs|
      invariant e.Valid() && e.Output() + EncodeItems(s, vs[i..]) == old(e.Output()) + EncodeItems(s, vs)
      invariant e.packetPos + |EncodeItems(s, vs[i..])| == old(e.packetPos) + |EncodeItems(s, vs)|
    {
      ghost var out := e.Output();
      err := WriteTo(e, s, vs[i]);
      if err.Some? {
        return;
      }
      assert vs[i..][0] == vs[i] && vs[i..][1..] == vs[i + 1..];
      Assoc(out, Encode(s, vs[i]), EncodeItems(s, vs[i + 1..]));
    }
    assert vs[|vs|..] == [] && e.Output() + [] == e.Output();
    err := None;
  }

  method WriteFields(e: Encoder, fields: Fields, vs0: seq<Value>) returns (err: Option<WriteError>)
    requires e.Valid()
    modifies e`bufferPos, e`packetPos, e.buffer, e.writer
    ensures e.Valid()
    ensures err.Some? ==> err.value == WriteFailed && !e.writer.reliable
    ensures err.None? ==> e.Output() == old(e.Output()) + EncodeFields(fields, vs0) && e.packetPos == old(e.packetPos) + |EncodeFields(fields, vs0)|
    decreases fields, 1, 0
  {
    hide Encoder.Output, Encode;
    if fields.NoFields? || vs0 == [] {
      assert e.Output() + [] == e.Output();
      return None;
    }
    err := WriteTo(e, fields.schema, vs0[0]);
    if err.Some? {
      return;
    }
    err := WriteFields(e, fields.rest, vs0[1..]);
    Assoc(old(e.Output()), Encode(fields.schema, vs0[0]), EncodeFields(fields.rest, vs0[1..]));
  }

  method WriteRows(e: Encoder, fields: Fields, rows: seq<Value>) returns (err: Option<WriteError>)
    requires e.Valid()
    modifies e`bufferPos, e`packetPos, e.buffer, e.writer
    ensures e.Valid()
    ensures err.Some? ==> err.value == WriteFailed && !e.writer.reliable
    ensures err.None? ==> e.Output() == old(e.Output()) + EncodeRows(fields, rows) && e.packetPos == old(e.packetPos) + |EncodeRows(fields, rows)|
    decreases fields, 2, 0
  {
    hide Encoder.Output, Encode, EncodeFields;
    for i := 0 to |rows|
      invariant e.Valid() && e.Output() + EncodeRows(fields, rows[i..]) == old(e.Output()) + EncodeRows(fields, rows)
      invariant e.packetPos + |EncodeRows(fields, rows[i..])| == old(e.packetPos) + |EncodeRows(fields, rows)|
    {
      ghost var out := e.Output();
      assert rows[i..][0] == rows[i] && rows[i..][1..] == rows[i + 1..];
      if rows[i].List? {
        err := WriteFields(e, fields, rows[i].items);
        if err.Some? {
          return;
        }
        Assoc(out, EncodeFields(fields, rows[i].items), EncodeRows(fields, rows[i + 1..]));
      } else {
        assert [] + EncodeRows(fields, rows[i + 1..]) == EncodeRows(fields, rows[i + 1..]);
      }
    }
    assert rows[|rows|..] == [] && e.Output() + [] == e.Output();
    err := None;
  }

  method WriteCase(e: Encoder, cases: Cases, tag: int, v: Value) returns (err: Option<WriteError>)
    requires e.Valid()
    modifies e`bufferPos, e`packetPos, e.buffer, e.writer
    ensures e.Valid()
    ensures err.Some? ==> err.value == WriteFailed && !e.writer.reliable
    ensures err.None? ==> e.Output() == old(e.Output()) + EncodeCase(cases, tag, v) && e.packetPos == old(e.packetPos) + |EncodeCase(cases, tag, v)|
    decreases cases, 1, 0
  {
    hide Encoder.Output, Encode;
    if cases.NoCases? {
      assert e.Output() + [] == e.Output();
      return None;
    }
    if cases.tag == tag {
      err := WriteTo(e, cases.schema, v);
    } else {
      err := WriteCase(e, cases.rest, tag, v);
    }
  }

  // ---- ReadFrom --------------------------------------------------------------------------

  /** What the packet's header leaves to be read of it; below zero once the fields overran it. */
  ghost function Left(d: Decoder): int
    reads d`packetLength, d`packetPos
  {
    d.packetLength - d.packetPos
  }

  /** A read of `before` ended as the decoding function says: same value, same rest, same error. */
  ghost predicate Agrees<T(!new)>(r: Result<Parsed<T>>, v: T, err: Option<Error>, before: seq<byte>, left: int,
                                  after: seq<byte>, leftAfter: int)
  {
    match r
    case Ok(p) => err.None? && v == p.value && after == p.rest && leftAfter == left - (|before| - |after|)
    case Err(e) => err == Some(e)
  }

  ghost function Prepend(vs: seq<Value>, r: Result<Parsed<seq<Value>>>): Result<Parsed<seq<Value>>> {
    if r.Ok? then Ok(Parsed(vs + r.value.value, r.value.rest)) else r
  }

  lemma PrependNext(vs: seq<Value>, v: Value, r: Result<Parsed<seq<Value>>>)
    ensures Prepend(vs, Prepend([v], r)) == Prepend(vs + [v], r)
  {
    if r.Ok? {
      assert vs + ([v] + r.value.value) == vs + [v] + r.value.value;
    }
  }

  lemma PrependNone(r: Result<Parsed<seq<Value>>>)
    ensures Prepend([], r) == r
  {
    if r.Ok? {
      assert [] + r.value.value == r.value.value;
    }
  }

  method ReadBasic(d: Decoder, b: Basic) returns (v: Value, err: Option<Error>)
    requires d.Valid()
    modifies d`bufferRead, d`bufferWrite, d`packetPos, d.decodeBuf, d.buffer, d.reader
    ensures d.Valid()
    ensures Agrees(DecodeBasic(b, old(d.Stream())), v, err, old(d.Stream()), old(Left(d)), d.Stream(), Left(d))
  {
    hide Decoder.Stream, DecodeNum, FindZero;
    v, err := Null, None;
    match b
    case Str =>
      var text, e := d.String();
      v := Text(text);
      if e.Some? {
        err := Some(EndOfInput);
      }
    case _ =>
      var n, e := d.Uint(b.width);
      v := Num(FromUnsigned(b, n));
      if e.Some? {
        err := Some(EndOfInput);
      }
  }

  method ReadFrom(d: Decoder, s: Schema) returns (v: Value, err: Option<Error>)
    requires d.Valid() && Decode(s, d.Stream(), Left(d)) != Err(Diverges)
    modifies d`bufferRead, d`bufferWrite, d`packetPos, d.decodeBuf, d.buffer, d.reader
    ensures d.Valid()
    ensures Agrees(Decode(s, old(d.Stream()), old(Left(d))), v, err, old(d.Stream()), old(Left(d)), d.Stream(), Left(d))
    decreases s, 1, 0
  {
    hide Decoder.Stream, DecodeBasic, DecodeItems, DecodeFields, DecodeRows, DecodeRemaining, DecodeCase;
    v, err := Null, None;
    match s
    case Base(b) => v, err := ReadBasic(d, b);
    case Array(n, item) =>
      var vs;
      vs, err := ReadItems(d, item, n);
      v := List(vs);
    case Struct(fields) =>
      var vs;
      vs, err := ReadFields(d, fields);
      v := List(vs);
    case LengthPrefixed(p, item) =>
      v, err := ReadBasic(d, p);
      if err.Some? {
        return;
      }
      if !v.Num? || v.n < 0 {
        return v, Some(Panic);
      }
      var vs;
      vs, err := ReadItems(d, item, v.n);
      v := List(vs);
    case NullablePrefixed(p, item) =>
      v, err := ReadBasic(d, p);
      if err.Some? {
        return;
      }
      if !v.Num? {
        return v, Some(Panic);
      }
      if v.n == -1 {
        v := Null;
      } else if v.n < 0 {
        err := Some(Panic);
      } else {
        var vs;
        vs, err := ReadItems(d, item, v.n);
        v := List(vs);
      }
    case ZeroTerminated(fields) =>
      if fields.NoFields? {
        return v, Some(Panic);
      }
      var vs;
      vs, err := ReadRows(d, fields);
      v := List(vs);
    case Remaining(item) =>
      var vs;
      vs, err := ReadRemaining(d, item);
      v := List(vs);
    case Map(p, cases) =>
      v, err := ReadBasic(d, p);
      if err.Some? {
        return;
      }
      if !v.Num? {
        return v, Some(InvalidFormat);
      }
      var tag := v.n;
      v, err := ReadCase(d, cases, tag);
      v := Tagged(tag, v);
  }

  method ReadItems(d: Decoder, s: Schema, n: nat) returns (vs: seq<Value>, err: Option<Error>)
    requires d.Valid() && DecodeItems(s, n, d.Stream(), Left(d)) != Err(Diverges)
    modifies d`bufferRead, d`bufferWrite, d`packetPos, d.decodeBuf, d.buffer, d.reader
    ensures d.Valid()
    ensures Agrees(DecodeItems(s, n, old(d.Stream()), old(Left(d))), vs, err,
                   old(d.Stream()), old(Left(d)), d.Stream(), Left(d))
    decreases s, 2, 0
  {
    hide Decoder.Stream, Decode, Prepend;
    ghost var all := DecodeItems(s, n, d.Stream(), Left(d));
    vs := [];
    PrependNone(all);
    for i := 0 to n
      invariant d.Valid() && Prepend(vs, DecodeItems(s, n - i, d.Stream(), Left(d))) == all
      invariant Left(d) == old(Left(d)) - (|old(d.Stream())| - |d.Stream()|)
    {
      ghost var before, left := d.Stream(), Left(d);
      ItemsStep(s, n - i, before, left, vs);
      var v;
      v, err := ReadFrom(d, s);
      if err.Some? {
        return;
      }
      PrependNext(vs, v, DecodeItems(s, n - i - 1, d.Stream(), Left(d)));
      vs := vs + [v];
    }
    PrependDone(vs, d.Stream());
    err := None;
  }

  lemma PrependDone(vs: seq<Value>, rest: seq<byte>)
    ensures Prepend(vs, Ok(Parsed([], rest))) == Ok(Parsed(vs, rest))
  {
    assert vs + [] == vs;
  }

  /** One round of the item loop, in terms of what is prepended. */
  lemma ItemsStep(s: Schema, n: nat, input: seq<byte>, left: int, vs: seq<Value>)
    requires n > 0
    ensures var p := Decode(s, input, left);
      if p.Err? then Prepend(vs, DecodeItems(s, n, input, left)) == Err(p.error)
      else
        DecodeItems(s, n, input, left) ==
        Prepend([p.value.value], DecodeItems(s, n - 1, p.value.rest, left - (|input| - |p.value.rest|)))
  {
  }

  method ReadFields(d: Decoder, fields: Fields) returns (vs: seq<Value>, err: Option<Error>)
    requires d.Valid() && DecodeFields(fields, d.Stream(), Left(d)) != Err(Diverges)
    modifies d`bufferRead, d`bufferWrite, d`packetPos, d.decodeBuf, d.buffer, d.reader
    ensures d.Valid()
    ensures Agrees(DecodeFields(fields, old(d.Stream()), old(Left(d))), vs, err,
                   old(d.Stream()), old(Left(d)), d.Stream(), Left(d))
    decreases fields, 1, 0
  {
    hide Decoder.Stream, Decode;
    if fields.NoFields? {
      return [], None;
    }
    vs := [];
    var v;
    v, err := ReadFrom(d, fields.schema);
    if err.Some? {
      return;
    }
    vs, err := ReadFields(d, fields.rest);
    vs := [v] + vs;
  }

  method ReadRows(d: Decoder, fields: Fields) returns (vs: seq<Value>, err: Option<Error>)
    requires fields.Field? && d.Valid() && DecodeRows(fields, d.Stream(), Left(d)) != Err(Diverges)
    modifies d`bufferRead, d`bufferWrite, d`packetPos, d.decodeBuf, d.buffer, d.reader
    ensures d.Valid()
    ensures Agrees(DecodeRows(fields, old(d.Stream()), old(Left(d))), vs, err,
                   old(d.Stream()), old(Left(d)), d.Stream(), Left(d))
    decreases fields, 2, 0
  {
    hide Decoder.Stream, Decode, DecodeFields, Prepend;
    ghost var all := DecodeRows(fields, d.Stream(), Left(d));
    vs := [];
    PrependNone(all);
    while true
      invariant d.Valid() && Prepend(vs, DecodeRows(fields, d.Stream(), Left(d))) == all
      invariant Left(d) == old(Left(d)) - (|old(d.Stream())| - |d.Stream()|)
      decreases |d.Stream()|
    {
      RowsStep(fields, d.Stream(), Left(d), vs);
      var v;
      v, err := ReadFrom(d, fields.schema);
      if err.Some? {
        return;
      }
      if v == Zero(fields.schema) {
        PrependDone(vs, d.Stream());
        return;
      }
      var row;
      row, err := ReadFields(d, fields.rest);
      if err.Some? {
        return;
      }
      PrependNext(vs, List([v] + row), DecodeRows(fields, d.Stream(), Left(d)));
      vs := vs + [List([v] + row)];
    }
  }

  /** One round of the row loop. */
  lemma RowsStep(fs: Fields, input: seq<byte>, left: int, vs: seq<Value>)
    requires fs.Field? && Prepend(vs, DecodeRows(fs, input, left)) != Err(Diverges)
    ensures var p := Decode(fs.schema, input, left);
      if p.Err? then p.error != Diverges && Prepend(vs, DecodeRows(fs, input, left)) == Err(p.error)
      else if p.value.value == Zero(fs.schema) then DecodeRows(fs, input, left) == Ok(Parsed([], p.value.rest))
      else
        var q := DecodeFields(fs.rest, p.value.rest, left - (|input| - |p.value.rest|));
        if q.Err? then q.error != Diverges && Prepend(vs, DecodeRows(fs, input, left)) == Err(q.error)
        else
          && |q.value.rest| < |input|
          && DecodeRows(fs, input, left) == Prepend([List([p.value.value] + q.value.value)],
                                                    DecodeRows(fs, q.value.rest, left - (|input| - |q.value.rest|)))
  {
    hide Decode, DecodeFields, Zero;
  }

  method ReadRemaining(d: Decoder, s: Schema) returns (vs: seq<Value>, err: Option<Error>)
    requires d.Valid() && DecodeRemaining(s, d.Stream(), Left(d)) != Err(Diverges)
    modifies d`bufferRead, d`bufferWrite, d`packetPos, d.decodeBuf, d.buffer, d.reader
    ensures d.Valid()
    ensures Agrees(DecodeRemaining(s, old(d.Stream()), old(Left(d))), vs, err,
                   old(d.Stream()), old(Left(d)), d.Stream(), Left(d))
    decreases s, 2, 0
  {
    hide Decoder.Stream, Decode, Prepend;
    ghost var all := DecodeRemaining(s, d.Stream(), Left(d));
    vs := [];
    PrependNone(all);
    while d.packetPos < d.packetLength
      invariant d.Valid() && Prepend(vs, DecodeRemaining(s, d.Stream(), Left(d))) == all
      invariant Left(d) == old(Left(d)) - (|old(d.Stream())| - |d.Stream()|)
      decreases |d.Stream()|
    {
      RemainingStep(s, d.Stream(), Left(d), vs);
      var v;
      v, err := ReadFrom(d, s);
      if err.Some? {
        return;
      }
      PrependNext(vs, v, DecodeRemaining(s, d.Stream(), Left(d)));
      vs := vs + [v];
    }
    PrependDone(vs, d.Stream());
    err := None;
  }

  /** One round of the loop over the rest of the packet. */
  lemma RemainingStep(s: Schema, input: seq<byte>, left: int, vs: seq<Value>)
    requires left > 0 && Prepend(vs, DecodeRemaining(s, input, left)) != Err(Diverges)
    ensures var p := Decode(s, input, left);
      if p.Err? then p.error != Diverges && Prepend(vs, DecodeRemaining(s, input, left)) == Err(p.error)
      else
        && |p.value.rest| < |input|
        && DecodeRemaining(s, input, left) ==
           Prepend([p.value.value], DecodeRemaining(s, p.value.rest, left - (|input| - |p.value.rest|)))
  {
    hide Decode;
  }

  method ReadCase(d: Decoder, cases: Cases, tag: int) returns (v: Value, err: Option<Error>)
    requires d.Valid() && DecodeCase(cases, tag, d.Stream(), Left(d)) != Err(Diverges)
    modifies d`bufferRead, d`bufferWrite, d`packetPos, d.decodeBuf, d.buffer, d.reader
    ensures d.Valid()
    ensures Agrees(DecodeCase(cases, tag, old(d.Stream()), old(Left(d))), v, err,
                   old(d.Stream()), old(Left(d)), d.Stream(), Left(d))
    decreases cases, 1, 0
  {
    hide Decoder.Stream, Decode;
    if cases.NoCases? {
      return Null, Some(InvalidFormat);
    }
    if cases.tag == tag {
      v, err := ReadFrom(d, cases.schema);
    } else {
      v, err := ReadCase(d, cases.rest, tag);
    }
  }

  // ---- whole conversations ---------------------------------------------------------------

  datatype Message = Message(typ: byte, schema: Schema, value: Value)

  /** A packet on the wire: its type unless it has none, its length counting itself, its fields. */
  function Frame(m: Message): seq<byte> {
    (if m.typ != 0 then [m.typ] else []) + EncodeNum(4, |Encode(m.schema, m.value)| + 4) + Encode(m.schema, m.value)
  }

  function Wire(ms: seq<Message>): seq<byte> {
    if ms == [] then [] else Frame(ms[0]) + Wire(ms[1..])
  }

  /** A packet whose value survives the trip and whose length fits its header. */
  predicate Sendable(m: Message) {
    && Fits(m.schema, m.value) && (Closed(m.schema) || Packet(m.schema))
    && |Encode(m.schema, m.value)| + 4 < Pow256(4)
  }

  /** WritePacket: the announced length is what WriteTo emits, so the next packet can always start. */
  method Send(e: Encoder, m: Message) returns (err: Option<WriteError>)
    requires e.Valid() && e.packetPos == e.packetLength
    modifies e`bufferPos, e`packetType, e`packetLength, e`packetPos, e.buffer, e.writer
    ensures e.Valid()
    ensures err.Some? ==> err.value == WriteFailed && !e.writer.reliable
    ensures err.None? ==> e.Output() == old(e.Output()) + Frame(m) && e.packetPos == e.packetLength
  {
    hide Encoder.Output, Encode, Length, EncodeNum;
    LengthIsExact(m.schema, m.value);
    err := e.Next(m.typ, Length(m.schema, m.value));
    if err.Some? {
      return;
    }
    err := WriteTo(e, m.schema, m.value);
    ghost var t: seq<byte> := if m.typ != 0 then [m.typ] else [];
    Assoc3(old(e.Output()), t, EncodeNum(4, |Encode(m.schema, m.value)| + 4), Encode(m.schema, m.value));
  }

  lemma Assoc3(a: seq<byte>, b: seq<byte>, c: seq<byte>, d: seq<byte>)
    ensures a + b + c + d == a + (b + c + d)
  {
  }

  method SendAll(e: Encoder, ms: seq<Message>) returns (err: Option<WriteError>)
    requires e.Valid() && e.packetPos == e.packetLength
    modifies e`bufferPos, e`packetType, e`packetLength, e`packetPos, e.buffer, e.writer
    ensures e.Valid()
    ensures err.Some? ==> err.value == WriteFailed && !e.writer.reliable
    ensures err.None? ==> e.Output() == old(e.Output()) + Wire(ms) && e.packetPos == e.packetLength
  {
    hide Encoder.Output, Frame;
    for i := 0 to |ms|
      invariant e.Valid() && e.packetPos == e.packetLength
      invariant e.Output() + Wire(ms[i..]) == old(e.Output()) + Wire(ms)
    {
      ghost var out := e.Output();
      err := Send(e, ms[i]);
      if err.Some? {
        return;
      }
      assert ms[i..][0] == ms[i] && ms[i..][1..] == ms[i + 1..];
      Assoc(out, Frame(ms[i]), Wire(ms[i + 1..]));
    }
    assert ms[|ms|..] == [] && e.Output() + [] == e.Output();
    err := None;
  }

  /** The header at the front of a frame says what follows it. */
  lemma FrameHeader(m: Message, more: seq<byte>, length: int, typ: byte, rest: seq<byte>)
    requires Sendable(m) && Decoder.Header(Frame(m) + more, m.typ != 0, typ, length, rest)
    ensures typ == m.typ && length == |Encode(m.schema, m.value)| && rest == Encode(m.schema, m.value) + more
  {
    hide Encode, Fits, Closed, Packet, EncodeNum, DecodeNum, Pow256;
    var body := Encode(m.schema, m.value);
    DecodeEncodeNum(4, |body| + 4);
    HeaderParts(if m.typ != 0 then [m.typ] else [], EncodeNum(4, |body| + 4), body, more);
    SmallMod(|body| + 4, Pow256(4));
  }

  lemma SmallMod(n: nat, m: nat)
    requires n < m
    ensures n % m == n
  {
  }

  lemma HeaderParts(t: seq<byte>, num: seq<byte>, body: seq<byte>, more: seq<byte>)
    requires |num| == 4
    ensures var s, k := t + num + body + more, |t|;
      s[..k] == t && (k > 0 ==> s[0] == t[0]) && s[k..k + 4] == num && s[k + 4..] == body + more
  {
  }

  /** ReadPacket once: skips what is unread and reads the next packet, its body only if wanted. */
  method ReceiveOne(d: Decoder, typed: bool, ghost m: Message, schema: Schema, want: bool, ghost unread: seq<byte>,
                    ghost more: seq<byte>)
    returns (typ: byte, v: Value, err: Option<Error>, ghost left: seq<byte>)
    requires Sendable(m) && schema == m.schema && (typed <==> m.typ != 0)
    requires d.Valid() && Left(d) == |unread| && d.Stream() == unread + (Frame(m) + more)
    modifies d`bufferRead, d`bufferWrite, d`packetType, d`packetLength, d`packetPos, d.decodeBuf, d.buffer, d.reader
    ensures d.Valid() && Left(d) == |left| && d.Stream() == left + more
    ensures err.None? && typ == m.typ
    ensures if want then left == [] && v == m.value else left == Encode(m.schema, m.value)
  {
    hide Decoder.Stream, Sendable, Frame, Decoder.Valid, Decode;
    FrameSize(m);
    assert d.Stream()[|unread|..] == Frame(m) + more;
    var e := d.Next(typed);
    FrameHeader(m, more, d.packetLength, d.packetType, d.Stream());
    typ, v, err, left := d.packetType, Null, None, Encode(m.schema, m.value);
    if want {
      ReadsBack(m, more);
      v, err := ReadFrom(d, schema);
      left := [];
      assert [] + more == more;
    }
  }

  /**
   ReadPacket in a loop: of the packets whose turn it is, those wanted are read and the others left
   for Next to skip. Whatever pieces the bytes arrive in, every wanted packet reads back as it was
   written, and the reader ends inside the last packet at the latest.
   */
  method ReceiveAll(d: Decoder, typed: seq<bool>, ghost ms: seq<Message>, schemas: seq<Schema>, want: seq<bool>, ghost suffix: seq<byte>)
    returns (types: seq<byte>, values: seq<Value>, err: Option<Error>)
    requires |typed| == |schemas| == |want| == |ms|
    requires forall i :: 0 <= i < |ms| ==> schemas[i] == ms[i].schema && Sendable(ms[i]) && (typed[i] <==> ms[i].typ != 0)
    requires d.Valid() && Left(d) == 0 && d.Stream() == Wire(ms) + suffix
    modifies d`bufferRead, d`bufferWrite, d`packetType, d`packetLength, d`packetPos, d.decodeBuf, d.buffer, d.reader
    ensures d.Valid() && err.None?
    ensures |types| == |values| == |ms|
    ensures forall i :: 0 <= i < |ms| ==> types[i] == ms[i].typ && (want[i] ==> values[i] == ms[i].value)
    ensures 0 <= Left(d) <= |d.Stream()| && d.Stream()[Left(d)..] == suffix
    ensures |ms| > 0 && want[|ms| - 1] ==> Left(d) == 0
  {
    hide Decoder.Stream, Sendable, Frame, Decoder.Valid, Encode;
    types, values, err := [], [], None;
    ghost var unread: seq<byte> := [];
    assert d.Stream() == unread + (Wire(ms[0..]) + suffix);
    for i := 0 to |schemas|
      invariant d.Valid() && err.None? && Left(d) == |unread| && d.Stream() == unread + (Wire(ms[i..]) + suffix)
      invariant |types| == |values| == i
      invariant forall j :: 0 <= j < i ==> types[j] == ms[j].typ && (want[j] ==> values[j] == ms[j].value)
      invariant i > 0 && want[i - 1] ==> unread == []
    {
      ghost var more := Wire(ms[i + 1..]) + suffix;
      assert ms[i..][0] == ms[i] && ms[i..][1..] == ms[i + 1..];
      assert Wire(ms[i..]) + suffix == Frame(ms[i]) + more;
      var typ, v;
      typ, v, err, unread := ReceiveOne(d, typed[i], ms[i], schemas[i], want[i], unread, more);
      types, values := types + [typ], values + [v];
    }
    assert ms[|ms|..] == [] && [] + suffix == suffix;
  }

  lemma FrameSize(m: Message)
    requires Sendable(m)
    ensures |Frame(m)| >= if m.typ != 0 then 5 else 4
  {
    hide Encode, Fits, Closed, Packet, EncodeNum, Pow256;
  }

  lemma ReadsBack(m: Message, more: seq<byte>)
    requires Sendable(m)
    ensures var body := Encode(m.schema, m.value);
      Decode(m.schema, body + more, |body|) == Ok(Parsed(m.value, more))
  {
    RoundTrip(m.schema, m.value, more, |Encode(m.schema, m.value)|);
  }
}
