/**
 Where things stand on the wire. That a reader undoes a writer leaves the format open, since both
 could agree on another one; here positions and values of the bytes are stated by themselves.
 */
module Layout {
  import opened Codec
  import Packets

  ghost predicate Zeros(b: seq<byte>) {
    forall i :: 0 <= i < |b| ==> b[i] == 0
  }

  // ---- the zero value --------------------------------------------------------------------

  lemma {:induction false} ZeroNum(w: nat)
    ensures Zeros(EncodeNum(w, 0))
  {
    if w > 0 {
      ZeroNum(w - 1);
    }
  }

  /** The zero value of a comparable type, which ends a zero-terminated slice, is nothing but zero bytes. */
  lemma {:induction false} ZeroBytes(s: Schema)
    requires Comparable(s)
    ensures Zeros(Encode(s, Zero(s)))
    decreases s, 1, 0
  {
    match s
    case Base(b) =>
      if !b.Str? {
        ZeroNum(b.width);
      }
    case Array(n, item) => ZeroItems(item, n);
    case Struct(fields) => ZeroFieldBytes(fields);
  }

  lemma {:induction false} ZeroItems(s: Schema, n: nat)
    requires Comparable(s)
    ensures Zeros(EncodeItems(s, seq(n, _ => Zero(s))))
    decreases s, 2, n
  {
    if n > 0 {
      assert seq(n, _ => Zero(s))[1..] == seq(n - 1, _ => Zero(s));
      ZeroBytes(s);
      ZeroItems(s, n - 1);
    }
  }

  lemma {:induction false} ZeroFieldBytes(fs: Fields)
    requires ComparableFields(fs)
    ensures Zeros(EncodeFields(fs, ZeroFields(fs)))
    decreases fs, 1, 0
  {
    if fs.Field? {
      ZeroBytes(fs.schema);
      ZeroFieldBytes(fs.rest);
      assert ZeroFields(fs)[1..] == ZeroFields(fs.rest);
    }
  }

  lemma {:induction false} NumIsZero(b: seq<byte>)
    ensures DecodeNum(b) < Pow256(|b|)
    ensures DecodeNum(b) == 0 <==> Zeros(b)
  {
    if b != [] {
      NumIsZero(b[..|b| - 1]);
    }
  }

  /** What a value was read from. */
  ghost function Taken(input: seq<byte>, rest: seq<byte>): seq<byte>
    requires |rest| <= |input|
  {
    input[..|input| - |rest|]
  }

  lemma TakenTwice(input: seq<byte>, mid: seq<byte>, rest: seq<byte>)
    requires |rest| <= |mid| <= |input| && input == Taken(input, mid) + mid && mid == Taken(mid, rest) + rest
    ensures input == Taken(input, rest) + rest && Taken(input, rest) == Taken(input, mid) + Taken(mid, rest)
    ensures Zeros(Taken(input, rest)) <==> Zeros(Taken(input, mid)) && Zeros(Taken(mid, rest))
  {
    var a, b := Taken(input, mid), Taken(mid, rest);
    assert input == a + b + rest;
    assert Taken(input, rest) == a + b;
    if Zeros(a + b) {
      assert forall i | 0 <= i < |a| :: (a + b)[i] == a[i];
      assert forall i | 0 <= i < |b| :: (a + b)[|a| + i] == b[i];
    }
  }

  ghost function Copies(z: Value, n: nat): seq<Value> {
    seq(n, _ => z)
  }

  /** A comparable value is the zero value if and only if every byte it was read from is zero. */
  lemma {:induction false} ZeroIff(s: Schema, input: seq<byte>, left: int)
    requires Comparable(s) && Decode(s, input, left).Ok?
    ensures var p := Decode(s, input, left).value;
      input == Taken(input, p.rest) + p.rest && (p.value == Zero(s) <==> Zeros(Taken(input, p.rest)))
    decreases s, 1, 0
  {
    match s
    case Base(b) =>
      if b.Str? {
        var i := FindZero(input);
        assert Taken(input, input[i + 1..]) == input[..i + 1];
        assert i > 0 ==> input[..i + 1][0] != 0;
      } else {
        NumIsZero(input[..b.width]);
        assert Taken(input, input[b.width..]) == input[..b.width];
      }
    case Array(n, item) =>
      ItemsZeroIff(item, n, input, left);
      assert Copies(Zero(item), n) == seq(n, _ => Zero(item));
    case Struct(fields) => FieldsZeroIff(fields, input, left);
  }

  lemma {:induction false} ItemsZeroIff(s: Schema, n: nat, input: seq<byte>, left: int)
    requires Comparable(s) && DecodeItems(s, n, input, left).Ok?
    ensures var p := DecodeItems(s, n, input, left).value;
      input == Taken(input, p.rest) + p.rest && (p.value == Copies(Zero(s), n) <==> Zeros(Taken(input, p.rest)))
    decreases s, 2, n
  {
    hide Decode, Zero, Comparable, Zeros, Taken, Copies;
    OneMore(Zero(s), n);
    if n == 0 {
      NoZeros(input);
    } else {
      var p := Decode(s, input, left).value;
      var q := DecodeItems(s, n - 1, p.rest, left - (|input| - |p.rest|)).value;
      ZeroIff(s, input, left);
      ItemsZeroIff(s, n - 1, p.rest, left - (|input| - |p.rest|));
      TakenTwice(input, p.rest, q.rest);
      Consed(p.value, q.value, Zero(s), Copies(Zero(s), n - 1));
    }
  }

  lemma {:induction false} FieldsZeroIff(fs: Fields, input: seq<byte>, left: int)
    requires ComparableFields(fs) && DecodeFields(fs, input, left).Ok?
    ensures var p := DecodeFields(fs, input, left).value;
      input == Taken(input, p.rest) + p.rest && (p.value == ZeroFields(fs) <==> Zeros(Taken(input, p.rest)))
    decreases fs, 1, 0
  {
    hide Decode, Zero, Comparable, Zeros;
    if fs.NoFields? {
      NoZeros(input);
    } else {
      var p := Decode(fs.schema, input, left).value;
      var q := DecodeFields(fs.rest, p.rest, left - (|input| - |p.rest|)).value;
      ZeroIff(fs.schema, input, left);
      FieldsZeroIff(fs.rest, p.rest, left - (|input| - |p.rest|));
      TakenTwice(input, p.rest, q.rest);
      Consed(p.value, q.value, Zero(fs.schema), ZeroFields(fs.rest));
    }
  }

  lemma OneMore(z: Value, n: nat)
    ensures Copies(z, n) == if n == 0 then [] else [z] + Copies(z, n - 1)
  {
  }

  lemma NoZeros(input: seq<byte>)
    ensures Taken(input, input) == [] && input == [] + input && Zeros([])
  {
  }

  lemma Consed(v: Value, vs: seq<Value>, w: Value, ws: seq<Value>)
    ensures [v] + vs == [w] + ws <==> v == w && vs == ws
  {
    if [v] + vs == [w] + ws {
      assert ([v] + vs)[1..] == vs && ([w] + ws)[1..] == ws;
      assert ([v] + vs)[0] == v && ([w] + ws)[0] == w;
    }
  }

  /** The row loop stops exactly at a first field of zero bytes, and takes those bytes and no more. */
  lemma RowLoopEnds(fs: Fields, input: seq<byte>, left: int)
    requires fs.Field? && Comparable(fs.schema) && Decode(fs.schema, input, left).Ok?
    ensures var first := Taken(input, Decode(fs.schema, input, left).value.rest);
      var rows := DecodeRows(fs, input, left);
      if Zeros(first) then rows == Ok(Parsed([], input[|first|..])) else rows.Err? || rows.value.value != []
  {
    ZeroIff(fs.schema, input, left);
    var p := Decode(fs.schema, input, left).value;
    hide Decode, Zero, Zeros, DecodeFields;
    assert p.rest == input[|Taken(input, p.rest)|..];
  }

  // ---- where items and fields stand ------------------------------------------------------

  lemma {:induction false} ItemsSplit(s: Schema, vs: seq<Value>, i: nat)
    requires i <= |vs|
    ensures EncodeItems(s, vs) == EncodeItems(s, vs[..i]) + EncodeItems(s, vs[i..])
    decreases i
  {
    hide Encode;
    if i == 0 {
      assert vs[..0] == [] && vs[0..] == vs;
    } else {
      ItemsSplit(s, vs[1..], i - 1);
      assert vs[1..][..i - 1] == vs[..i][1..] && vs[1..][i - 1..] == vs[i..];
    }
  }

  /** Item i is written behind the items before it, at the sum of their lengths. */
  lemma ItemAt(s: Schema, vs: seq<Value>, i: nat)
    requires i < |vs|
    ensures var from := LengthItems(s, vs[..i]);
      var to := from + Length(s, vs[i]);
      to <= |EncodeItems(s, vs)| && EncodeItems(s, vs)[from..to] == Encode(s, vs[i])
  {
    ItemsSplit(s, vs, i);
    LengthItemsExact(s, vs[..i]);
    LengthIsExact(s, vs[i]);
    hide Encode, Length;
    var a, b, c := EncodeItems(s, vs[..i]), Encode(s, vs[i]), EncodeItems(s, vs[i..][1..]);
    assert EncodeItems(s, vs[i..]) == b + c;
    assert a + (b + c) == a + b + c;
  }

  ghost function FieldOf(fs: Fields, i: nat): (r: Fields)
    ensures r.Field? ==> r.schema < fs
  {
    if i == 0 || fs.NoFields? then fs else FieldOf(fs.rest, i - 1)
  }

  /** Field i of a struct is written with its own schema behind the fields before it. */
  lemma {:induction false} FieldAt(fs: Fields, vs: seq<Value>, i: nat)
    requires i < |vs| && FieldOf(fs, i).Field?
    ensures var s := FieldOf(fs, i).schema;
      var from := LengthFields(fs, vs[..i]);
      var to := from + Length(s, vs[i]);
      to <= |EncodeFields(fs, vs)| && EncodeFields(fs, vs)[from..to] == Encode(s, vs[i])
    decreases i
  {
    hide Encode, Length;
    LengthIsExact(fs.schema, vs[0]);
    if i > 0 {
      FieldAt(fs.rest, vs[1..], i - 1);
      assert vs[..i][1..] == vs[1..][..i - 1] && vs[..i][0] == vs[0];
      Shift(Encode(fs.schema, vs[0]), EncodeFields(fs.rest, vs[1..]),
            LengthFields(fs.rest, vs[1..][..i - 1]), Length(FieldOf(fs, i).schema, vs[i]));
    } else {
      assert vs[..0] == [];
    }
  }

  lemma Shift(a: seq<byte>, b: seq<byte>, from: nat, n: nat)
    requires from + n <= |b|
    ensures (a + b)[|a| + from..|a| + from + n] == b[from..from + n]
  {
  }

  /** A number that its bytes can hold is what they weigh. */
  lemma Weighs(w: nat, n: nat)
    requires n < Pow256(w)
    ensures Weighted(EncodeNum(w, n)) == n
  {
    DecodeEncodeNum(w, n);
    NumValue(EncodeNum(w, n));
    hide EncodeNum, Pow256, Weighted, DecodeNum;
    ModUnique(n, Pow256(w), 0, n);
  }

  /** A counted slice starts with its number of items, most significant byte first. */
  lemma CountPrefix(p: Basic, item: Schema, vs: seq<Value>)
    requires !p.Str? && InRange(p, |vs|)
    ensures var b := Encode(LengthPrefixed(p, item), List(vs));
      && p.width <= |b| && Weighted(b[..p.width]) == |vs| && b[p.width..] == EncodeItems(item, vs)
      && Encode(NullablePrefixed(p, item), List(vs)) == b
  {
    hide EncodeNum, EncodeItems, Pow256, Weighted;
    Weighs(p.width, |vs|);
    var n := EncodeNum(p.width, |vs|);
    assert (n + EncodeItems(item, vs))[..p.width] == n;
  }

  /** A variant starts with its tag in two's complement, and the fields of that case follow. */
  lemma TagPrefix(p: Basic, cases: Cases, tag: int, v: Value)
    requires !p.Str?
    ensures var b := Encode(Map(p, cases), Tagged(tag, v));
      && Pow256(p.width) > 0 && p.width <= |b| && Weighted(b[..p.width]) == tag % Pow256(p.width)
      && b[p.width..] == EncodeCase(cases, tag, v)
  {
    var n := EncodeNum(p.width, tag);
    DecodeEncodeNum(p.width, tag);
    NumValue(n);
    hide EncodeNum, EncodeCase, Pow256, Weighted, DecodeNum;
    assert (n + EncodeCase(cases, tag, v))[..p.width] == n;
  }

  lemma {:induction false} Ones(w: nat)
    ensures forall i | 0 <= i < w :: EncodeNum(w, -1)[i] == 255
  {
    if w > 0 {
      Ones(w - 1);
    }
  }

  /** A missing slice is the prefix -1, whose bytes are all ones, and nothing else. */
  lemma NullBytes(p: Basic, item: Schema, i: nat)
    requires !p.Str? && i < p.width
    ensures var b := Encode(NullablePrefixed(p, item), Null); |b| == p.width && b[i] == 255
  {
    Ones(p.width);
  }

  // ---- the header ------------------------------------------------------------------------

  /** The header of a packet: its type unless it has none, then the number of bytes behind the type. */
  lemma FrameLength(m: Packets.Message)
    requires |Encode(m.schema, m.value)| + 4 < Pow256(4)
    ensures var f, k := Packets.Frame(m), if m.typ != 0 then 1 else 0;
      |f| >= k + 4 && (m.typ != 0 ==> f[0] == m.typ) && Weighted(f[k..k + 4]) == |f| - k
  {
    hide Encode, EncodeNum, Pow256, Weighted;
    var body := Encode(m.schema, m.value);
    Weighs(4, |body| + 4);
    var f, k := Packets.Frame(m), if m.typ != 0 then 1 else 0;
    assert f[k..k + 4] == EncodeNum(4, |body| + 4);
  }
}
