/**
 The packet codec generated by hack/packetgen: the templates encode.tmpl, decode.tmpl and
 length.tmpl are structural recursions over a schema language, modelled here once for all
 schemas. Values are what the generated Go types hold; floats are their bit patterns.
 */
module Codec {

  type byte = x: int | 0 <= x < 256

  type Width = w: nat | w == 1 || w == 2 || w == 4 || w == 8 witness 1

  /** Integers of 8 to 64 bits, floats as the unsigned bit pattern of their width, and strings. */
  datatype Basic = Unsigned(width: Width) | Signed(width: Width) | Str

  datatype Schema =
    | Base(basic: Basic)
    | Array(length: nat, item: Schema)
    | Struct(fields: Fields)
    | LengthPrefixed(prefix: Basic, item: Schema)
    | NullablePrefixed(prefix: Basic, item: Schema)
    | ZeroTerminated(fields: Fields)
    | Remaining(item: Schema)
    | Map(prefix: Basic, cases: Cases)

  datatype Fields = NoFields | Field(schema: Schema, rest: Fields)

  datatype Cases = NoCases | Case(tag: int, schema: Schema, rest: Cases)

  datatype Value =
    | Num(n: int)
    | Text(text: seq<byte>)
    | List(items: seq<Value>)
    | Null
    | Tagged(tag: int, value: Value)

  datatype Error = EndOfInput | InvalidFormat | Panic | Diverges

  datatype Result<+T> = Ok(value: T) | Err(error: Error) {
    predicate IsFailure() {
      Err?
    }
    function PropagateFailure<U>(): Result<U>
      requires Err?
    {
      Err(error)
    }
    function Extract(): T
      requires Ok?
    {
      value
    }
  }

  // ---- numbers ---------------------------------------------------------------------------

  function Pow256(w: nat): nat {
    if w == 0 then 1 else 256 * Pow256(w - 1)
  }

  /** The w low bytes of n in two's complement, most significant first. */
  function EncodeNum(w: nat, n: int): (b: seq<byte>)
    ensures |b| == w
  {
    if w == 0 then [] else EncodeNum(w - 1, n / 256) + [n % 256]
  }

  function DecodeNum(b: seq<byte>): nat {
    if b == [] then 0 else 256 * DecodeNum(b[..|b| - 1]) + b[|b| - 1]
  }

  /** Reinterprets an unsigned number of the width as the type's own. */
  function FromUnsigned(b: Basic, n: nat): int {
    if b.Signed? && Pow256(b.width) <= 2 * n then n - Pow256(b.width) else n
  }

  /** The numbers the type can hold. */
  predicate InRange(b: Basic, n: int) {
    match b
    case Unsigned(w) => 0 <= n < Pow256(w)
    case Signed(w) => 0 <= 2 * n + Pow256(w) < 2 * Pow256(w)
    case Str => false
  }

  lemma {:induction false} DecodeEncodeNum(w: nat, n: int)
    ensures Pow256(w) > 0 && DecodeNum(EncodeNum(w, n)) == n % Pow256(w)
  {
    if w > 0 {
      DecodeEncodeNum(w - 1, n / 256);
      var b := EncodeNum(w, n);
      assert b[..|b| - 1] == EncodeNum(w - 1, n / 256);
      ModSplit(n, Pow256(w - 1));
    }
  }

  /** The most significant byte comes first, and byte i counts multiples of 256 to the power w - 1 - i. */
  lemma {:induction false} NumBytes(w: nat, n: int, i: nat)
    requires i < w
    ensures Pow256(w - 1 - i) > 0 && EncodeNum(w, n)[i] == n / Pow256(w - 1 - i) % 256
  {
    if i < w - 1 {
      NumBytes(w - 1, n / 256, i);
      DivTwice(n, Pow256(w - 2 - i));
    }
  }

  /** The digit of n for 256 to the power k. */
  ghost function Digit(n: int, k: nat): byte {
    PowPositive(k);
    n / Pow256(k) % 256
  }

  ghost predicate BigEndian(b: seq<byte>, n: int) {
    forall i | 0 <= i < |b| :: b[i] == Digit(n, |b| - 1 - i)
  }

  lemma NumIsBigEndian(w: nat, n: int)
    ensures BigEndian(EncodeNum(w, n), n)
  {
    forall i | 0 <= i < w
      ensures EncodeNum(w, n)[i] == Digit(n, w - 1 - i)
    {
      NumBytes(w, n, i);
    }
  }

  lemma DivTwice(n: int, p: nat)
    requires p > 0
    ensures n / 256 / p == n / (256 * p)
  {
    ModSplit(n, p);
    var a, b := n / 256 / p, n / (256 * p);
    assert n / 256 == p * a + n / 256 % p;
    assert n == 256 * p * a + n % (256 * p);
    assert n == 256 * p * b + n % (256 * p);
    assert 256 * p * (a - b) == 0;
    Multiples(256 * p, a - b);
  }

  /** The bytes weighted by their places. */
  ghost function Weighted(b: seq<byte>): nat {
    if b == [] then 0 else b[0] * Pow256(|b| - 1) + Weighted(b[1..])
  }

  lemma {:induction false} WeightedLast(b: seq<byte>, y: byte)
    ensures Weighted(b + [y]) == 256 * Weighted(b) + y
  {
    if b == [] {
      assert [y][1..] == [];
    } else {
      WeightedLast(b[1..], y);
      assert (b + [y])[1..] == b[1..] + [y];
      Regroup(b[0], Pow256(|b| - 1), Weighted(b[1..]));
    }
  }

  lemma Regroup(x: nat, p: nat, r: nat)
    ensures x * (256 * p) + 256 * r == 256 * (x * p + r)
  {
  }

  /** Reading is the sum of the bytes, each times 256 to the power of the number of bytes behind it. */
  lemma {:induction false} NumValue(b: seq<byte>)
    ensures DecodeNum(b) == Weighted(b)
  {
    if b != [] {
      var a := b[..|b| - 1];
      NumValue(a);
      WeightedLast(a, b[|b| - 1]);
      assert b == a + [b[|b| - 1]];
    }
  }

  lemma ModSplit(n: int, p: nat)
    requires p > 0
    ensures 256 * ((n / 256) % p) + n % 256 == n % (256 * p)
  {
    var q, r := n / 256, n % 256;
    var a, b := q / p, q % p;
    assert q == p * a + b;
    assert n == 256 * q + r;
    assert n == (256 * p) * a + (256 * b + r);
    assert 0 <= 256 * b + r < 256 * p;
    ModUnique(n, 256 * p, a, 256 * b + r);
  }

  lemma Multiples(m: int, d: int)
    requires m > 0
    ensures d >= 1 ==> m * d >= m
    ensures d <= -1 ==> m * d <= -m
  {
    if d >= 1 {
      assert m * (d - 1) >= 0;
    } else if d <= -1 {
      assert m * (d + 1) <= 0;
    }
  }

  lemma ModUnique(n: int, m: int, a: int, r: int)
    requires m > 0 && n == m * a + r && 0 <= r < m
    ensures n % m == r
  {
    var d := n / m - a;
    assert m * d == r - n % m;
    Multiples(m, d);
  }

  /** A number survives the trip through its bytes if and only if the type can hold it. */
  lemma NumRoundTrip(b: Basic, n: int)
    requires !b.Str?
    ensures FromUnsigned(b, DecodeNum(EncodeNum(b.width, n))) == n <==> InRange(b, n)
  {
    hide Pow256, DecodeNum, EncodeNum;
    DecodeEncodeNum(b.width, n);
    var m: int := Pow256(b.width);
    if InRange(b, n) {
      ModUnique(n, m, if n >= 0 then 0 else -1, if n >= 0 then n else n + m);
    } else {
      Reinterpreted(b, n % m);
    }
  }

  /** Whatever the bytes, the number read from them is one the type can hold. */
  lemma Reinterpreted(b: Basic, r: nat)
    requires !b.Str? && r < Pow256(b.width)
    ensures InRange(b, FromUnsigned(b, r))
  {
    hide Pow256;
  }

  // ---- encode.tmpl -----------------------------------------------------------------------

  /** The packet field, or nothing for values that the generated type cannot hold. */
  function Encode(s: Schema, v: Value): (b: seq<byte>)
    decreases s, 1, 0
  {
    match s
    case Base(basic) => EncodeBasic(basic, v)
    case Array(_, item) => if v.List? then EncodeItems(item, v.items) else []
    case Struct(fields) => if v.List? then EncodeFields(fields, v.items) else []
    case LengthPrefixed(p, item) =>
      if v.List? then EncodeBasic(p, Num(|v.items|)) + EncodeItems(item, v.items) else []
    case NullablePrefixed(p, item) =>
      if v.Null? then EncodeBasic(p, Num(-1))
      else if v.List? then EncodeBasic(p, Num(|v.items|)) + EncodeItems(item, v.items)
      else []
    case ZeroTerminated(fields) =>
      if v.List? && fields.Field? then EncodeRows(fields, v.items) + Encode(fields.schema, Zero(fields.schema)) else []
    case Remaining(item) => if v.List? then EncodeItems(item, v.items) else []
    case Map(p, cases) => if v.Tagged? then EncodeBasic(p, Num(v.tag)) + EncodeCase(cases, v.tag, v.value) else []
  }

  function EncodeBasic(b: Basic, v: Value): seq<byte> {
    match b
    case Str => if v.Text? then v.text + [0] else []
    case _ => if v.Num? then EncodeNum(b.width, v.n) else []
  }

  function EncodeItems(s: Schema, vs: seq<Value>): seq<byte>
    decreases s, 2, |vs|
  {
    if vs == [] then [] else Encode(s, vs[0]) + EncodeItems(s, vs[1..])
  }

  function EncodeFields(fs: Fields, vs: seq<Value>): seq<byte>
    decreases fs, 1, 0
  {
    if fs.NoFields? || vs == [] then []
    else Encode(fs.schema, vs[0]) + EncodeFields(fs.rest, vs[1..])
  }

  /** The items of a zero-terminated slice, each a struct. */
  function EncodeRows(fs: Fields, rows: seq<Value>): seq<byte>
    decreases fs, 2, |rows|
  {
    if rows == [] then []
    else (if rows[0].List? then EncodeFields(fs, rows[0].items) else []) + EncodeRows(fs, rows[1..])
  }

  function EncodeCase(cs: Cases, tag: int, v: Value): seq<byte>
    decreases cs, 1, 0
  {
    match cs
    case NoCases => []
    case Case(t, s, rest) => if t == tag then Encode(s, v) else EncodeCase(rest, tag, v)
  }

  /** The zero value of a type; only comparable types have one here. */
  function Zero(s: Schema): Value {
    match s
    case Base(Str) => Text([])
    case Base(_) => Num(0)
    case Array(n, item) => List(seq(n, _ => Zero(item)))
    case Struct(fields) => List(ZeroFields(fields))
    case _ => Null
  }

  function ZeroFields(fs: Fields): seq<Value> {
    match fs
    case NoFields => []
    case Field(s, rest) => [Zero(s)] + ZeroFields(rest)
  }

  // ---- length.tmpl -----------------------------------------------------------------------

  /** The length announced in the packet header, accumulated without encoding. */
  function Length(s: Schema, v: Value): nat
    decreases s, 1, 0
  {
    match s
    case Base(basic) => LengthBasic(basic, v)
    case Array(_, item) => if v.List? then LengthItems(item, v.items) else 0
    case Struct(fields) => if v.List? then LengthFields(fields, v.items) else 0
    case LengthPrefixed(p, item) =>
      if v.List? then LengthBasic(p, Num(|v.items|)) + LengthItems(item, v.items) else 0
    case NullablePrefixed(p, item) =>
      if v.Null? then LengthBasic(p, Num(0))
      else if v.List? then LengthBasic(p, Num(|v.items|)) + LengthItems(item, v.items)
      else 0
    case ZeroTerminated(fields) =>
      if v.List? && fields.Field? then LengthRows(fields, v.items) + Length(fields.schema, Zero(fields.schema)) else 0
    case Remaining(item) => if v.List? then LengthItems(item, v.items) else 0
    case Map(p, cases) => if v.Tagged? then LengthBasic(p, Num(v.tag)) + LengthCase(cases, v.tag, v.value) else 0
  }

  function LengthBasic(b: Basic, v: Value): nat {
    match b
    case Str => if v.Text? then |v.text| + 1 else 0
    case _ => if v.Num? then b.width else 0
  }

  function LengthItems(s: Schema, vs: seq<Value>): nat
    decreases s, 2, |vs|
  {
    if vs == [] then 0 else Length(s, vs[0]) + LengthItems(s, vs[1..])
  }

  function LengthFields(fs: Fields, vs: seq<Value>): nat
    decreases fs, 1, 0
  {
    if fs.NoFields? || vs == [] then 0 else Length(fs.schema, vs[0]) + LengthFields(fs.rest, vs[1..])
  }

  function LengthRows(fs: Fields, rows: seq<Value>): nat
    decreases fs, 2, |rows|
  {
    if rows == [] then 0
    else (if rows[0].List? then LengthFields(fs, rows[0].items) else 0) + LengthRows(fs, rows[1..])
  }

  function LengthCase(cs: Cases, tag: int, v: Value): nat
    decreases cs, 1, 0
  {
    match cs
    case NoCases => 0
    case Case(t, s, rest) => if t == tag then Length(s, v) else LengthCase(rest, tag, v)
  }

  /** Length is exactly the number of bytes that WriteTo emits, for every schema and value. */
  lemma {:induction false} LengthIsExact(s: Schema, v: Value)
    ensures Length(s, v) == |Encode(s, v)|
    decreases s, 1, 0
  {
    match s
    case Base(_) =>
    case Array(_, item) => if v.List? { LengthItemsExact(item, v.items); }
    case Struct(fields) => if v.List? { LengthFieldsExact(fields, v.items); }
    case LengthPrefixed(_, item) => if v.List? { LengthItemsExact(item, v.items); }
    case NullablePrefixed(_, item) => if v.List? { LengthItemsExact(item, v.items); }
    case ZeroTerminated(fields) =>
      if v.List? && fields.Field? {
        LengthRowsExact(fields, v.items);
        LengthIsExact(fields.schema, Zero(fields.schema));
      }
    case Remaining(item) => if v.List? { LengthItemsExact(item, v.items); }
    case Map(_, cases) => if v.Tagged? { LengthCaseExact(cases, v.tag, v.value); }
  }

  lemma {:induction false} LengthItemsExact(s: Schema, vs: seq<Value>)
    ensures LengthItems(s, vs) == |EncodeItems(s, vs)|
    decreases s, 2, |vs|
  {
    if vs != [] {
      LengthIsExact(s, vs[0]);
      LengthItemsExact(s, vs[1..]);
    }
  }

  lemma {:induction false} LengthFieldsExact(fs: Fields, vs: seq<Value>)
    ensures LengthFields(fs, vs) == |EncodeFields(fs, vs)|
    decreases fs, 1, 0
  {
    if fs.Field? && vs != [] {
      LengthIsExact(fs.schema, vs[0]);
      LengthFieldsExact(fs.rest, vs[1..]);
    }
  }

  lemma {:induction false} LengthRowsExact(fs: Fields, rows: seq<Value>)
    ensures LengthRows(fs, rows) == |EncodeRows(fs, rows)|
    decreases fs, 2, |rows|
  {
    if rows != [] {
      if rows[0].List? {
        LengthFieldsExact(fs, rows[0].items);
      }
      LengthRowsExact(fs, rows[1..]);
    }
  }

  lemma {:induction false} LengthCaseExact(cs: Cases, tag: int, v: Value)
    ensures LengthCase(cs, tag, v) == |EncodeCase(cs, tag, v)|
    decreases cs, 1, 0
  {
    if cs.Case? {
      if cs.tag == tag {
        LengthIsExact(cs.schema, v);
      } else {
        LengthCaseExact(cs.rest, tag, v);
      }
    }
  }

  // ---- decode.tmpl -----------------------------------------------------------------------

  /** A decoded value and what is left of the input. */
  datatype Parsed<T> = Parsed(value: T, rest: seq<byte>)

  /**
   Decodes from `input`, of which `left` bytes belong to the packet according to its header. `left`
   only matters to Remaining; like the source, nothing else looks at it, and it falls below zero
   when the fields run past the end of the packet.
   */
  function Decode(s: Schema, input: seq<byte>, left: int): (r: Result<Parsed<Value>>)
    ensures r.Ok? ==> |r.value.rest| <= |input|
    decreases s, 1, 0
  {
    match s
    case Base(basic) => DecodeBasic(basic, input)
    case Array(n, item) =>
      var p :- DecodeItems(item, n, input, left);
      Ok(Parsed(List(p.value), p.rest))
    case Struct(fields) =>
      var p :- DecodeFields(fields, input, left);
      Ok(Parsed(List(p.value), p.rest))
    case LengthPrefixed(prefix, item) =>
      var n :- DecodeBasic(prefix, input);
      if !n.value.Num? || n.value.n < 0 then Err(Panic) else
      var p :- DecodeItems(item, n.value.n, n.rest, left - (|input| - |n.rest|));
      Ok(Parsed(List(p.value), p.rest))
    case NullablePrefixed(prefix, item) =>
      var n :- DecodeBasic(prefix, input);
      if n.value == Num(-1) then Ok(Parsed(Null, n.rest))
      else if !n.value.Num? || n.value.n < 0 then Err(Panic) else
      var p :- DecodeItems(item, n.value.n, n.rest, left - (|input| - |n.rest|));
      Ok(Parsed(List(p.value), p.rest))
    case ZeroTerminated(fields) =>
      if fields.NoFields? then Err(Panic) else
      var p :- DecodeRows(fields, input, left);
      Ok(Parsed(List(p.value), p.rest))
    case Remaining(item) =>
      var p :- DecodeRemaining(item, input, left);
      Ok(Parsed(List(p.value), p.rest))
    case Map(prefix, cases) =>
      var t :- DecodeBasic(prefix, input);
      if !t.value.Num? then Err(InvalidFormat) else
      var p :- DecodeCase(cases, t.value.n, t.rest, left - (|input| - |t.rest|));
      Ok(Parsed(Tagged(t.value.n, p.value), p.rest))
  }

  /** The position of the first zero byte. */
  function FindZero(b: seq<byte>): (i: nat)
    ensures i <= |b| && (forall j :: 0 <= j < i ==> b[j] != 0) && (i < |b| ==> b[i] == 0)
  {
    if b == [] || b[0] == 0 then 0 else 1 + FindZero(b[1..])
  }

  function DecodeBasic(b: Basic, input: seq<byte>): (r: Result<Parsed<Value>>)
    ensures r.Ok? ==> |r.value.rest| <= |input|
  {
    match b
    case Str =>
      var i := FindZero(input);
      if i == |input| then Err(EndOfInput) else Ok(Parsed(Text(input[..i]), input[i + 1..]))
    case _ =>
      if |input| < b.width then Err(EndOfInput)
      else Ok(Parsed(Num(FromUnsigned(b, DecodeNum(input[..b.width]))), input[b.width..]))
  }

  function DecodeItems(s: Schema, n: nat, input: seq<byte>, left: int): (r: Result<Parsed<seq<Value>>>)
    ensures r.Ok? ==> |r.value.rest| <= |input|
    decreases s, 2, n
  {
    if n == 0 then Ok(Parsed([], input)) else
    var p :- Decode(s, input, left);
    var q :- DecodeItems(s, n - 1, p.rest, left - (|input| - |p.rest|));
    Ok(Parsed([p.value] + q.value, q.rest))
  }

  function DecodeFields(fs: Fields, input: seq<byte>, left: int): (r: Result<Parsed<seq<Value>>>)
    ensures r.Ok? ==> |r.value.rest| <= |input|
    decreases fs, 1, 0
  {
    if fs.NoFields? then Ok(Parsed([], input)) else
    var p :- Decode(fs.schema, input, left);
    var q :- DecodeFields(fs.rest, p.rest, left - (|input| - |p.rest|));
    Ok(Parsed([p.value] + q.value, q.rest))
  }

  /** Rows up to one whose first field is zero; a row that takes no input repeats for ever. */
  function DecodeRows(fs: Fields, input: seq<byte>, left: int): (r: Result<Parsed<seq<Value>>>)
    requires fs.Field?
    ensures r.Ok? ==> |r.value.rest| <= |input|
    decreases fs, 2, |input|
  {
    var p :- Decode(fs.schema, input, left);
    if p.value == Zero(fs.schema) then Ok(Parsed([], p.rest)) else
    var q :- DecodeFields(fs.rest, p.rest, left - (|input| - |p.rest|));
    if |q.rest| == |input| then Err(Diverges) else
    var more :- DecodeRows(fs, q.rest, left - (|input| - |q.rest|));
    Ok(Parsed([List([p.value] + q.value)] + more.value, more.rest))
  }

  /** Items until the packet is used up; an item that takes no input repeats for ever. */
  function DecodeRemaining(s: Schema, input: seq<byte>, left: int): (r: Result<Parsed<seq<Value>>>)
    ensures r.Ok? ==> |r.value.rest| <= |input|
    decreases s, 2, |input|
  {
    if left <= 0 then Ok(Parsed([], input)) else
    var p :- Decode(s, input, left);
    if |p.rest| == |input| then Err(Diverges) else
    var q :- DecodeRemaining(s, p.rest, left - (|input| - |p.rest|));
    Ok(Parsed([p.value] + q.value, q.rest))
  }

  function DecodeCase(cs: Cases, tag: int, input: seq<byte>, left: int): (r: Result<Parsed<Value>>)
    ensures r.Ok? ==> |r.value.rest| <= |input|
    decreases cs, 1, 0
  {
    match cs
    case NoCases => Err(InvalidFormat)
    case Case(t, s, rest) => if t == tag then Decode(s, input, left) else DecodeCase(rest, tag, input, left)
  }

  // ---- what a schema and a value must satisfy --------------------------------------------

  /** Types whose zero value the generated code can compare with. */
  predicate Comparable(s: Schema) {
    match s
    case Base(_) => true
    case Array(_, item) => Comparable(item)
    case Struct(fields) => ComparableFields(fields)
    case _ => false
  }

  predicate ComparableFields(fs: Fields) {
    fs.NoFields? || (Comparable(fs.schema) && ComparableFields(fs.rest))
  }

  /** Schemas that contain no Remaining: where they end does not depend on the packet's length. */
  predicate Closed(s: Schema) {
    match s
    case Base(_) => true
    case Array(_, item) => Closed(item)
    case Struct(fields) => ClosedFields(fields)
    case LengthPrefixed(p, item) => !p.Str? && Closed(item)
    case NullablePrefixed(p, item) => p.Signed? && p.width > 0 && Closed(item)
    case ZeroTerminated(fields) => fields.Field? && Comparable(fields.schema) && ClosedFields(fields)
    case Remaining(_) => false
    case Map(p, cases) => !p.Str? && ClosedCases(cases)
  }

  predicate ClosedFields(fs: Fields) {
    fs.NoFields? || (Closed(fs.schema) && ClosedFields(fs.rest))
  }

  predicate ClosedCases(cs: Cases) {
    cs.NoCases? || (Closed(cs.schema) && ClosedCases(cs.rest))
  }

  /** Schemas in which Remaining comes last, if at all, with items that take up room. */
  predicate Packet(s: Schema) {
    match s
    case Struct(fields) => PacketFields(fields)
    case Remaining(item) => Closed(item) && Sizable(item)
    case Map(p, cases) => !p.Str? && PacketCases(cases)
    case _ => Closed(s)
  }

  predicate PacketFields(fs: Fields) {
    match fs
    case NoFields => true
    case Field(s, NoFields) => Packet(s)
    case Field(s, rest) => Closed(s) && PacketFields(rest)
  }

  predicate PacketCases(cs: Cases) {
    cs.NoCases? || (Packet(cs.schema) && PacketCases(cs.rest))
  }

  /** No value of the schema is encoded by no bytes. */
  predicate Sizable(s: Schema) {
    match s
    case Base(b) => b.Str? || b.width > 0
    case Array(n, item) => n > 0 && Sizable(item)
    case Struct(fields) => SizableFields(fields)
    case LengthPrefixed(p, _) => !p.Str? && p.width > 0
    case NullablePrefixed(p, _) => !p.Str? && p.width > 0
    case ZeroTerminated(fields) => fields.Field? && Sizable(fields.schema)
    case Remaining(_) => false
    case Map(p, _) => !p.Str? && p.width > 0
  }

  predicate SizableFields(fs: Fields) {
    fs.Field? && (Sizable(fs.schema) || SizableFields(fs.rest))
  }

  /**
   The values that survive the trip: numbers in range, no NUL in strings, counts that fit their
   prefix, rows of a zero-terminated slice that do not look like its end, and known tags.
   */
  predicate Fits(s: Schema, v: Value)
    decreases s, 1, 0
  {
    match s
    case Base(Str) => v.Text? && forall i :: 0 <= i < |v.text| ==> v.text[i] != 0
    case Base(b) => v.Num? && InRange(b, v.n)
    case Array(n, item) => v.List? && |v.items| == n && FitsItems(item, v.items)
    case Struct(fields) => v.List? && FitsFields(fields, v.items)
    case LengthPrefixed(p, item) => v.List? && InRange(p, |v.items|) && FitsItems(item, v.items)
    case NullablePrefixed(p, item) => v.Null? || (v.List? && InRange(p, |v.items|) && FitsItems(item, v.items))
    case ZeroTerminated(fields) => v.List? && FitsRows(fields, v.items)
    case Remaining(item) => v.List? && FitsItems(item, v.items)
    case Map(p, cases) => v.Tagged? && InRange(p, v.tag) && FitsCase(cases, v.tag, v.value)
  }

  predicate FitsItems(s: Schema, vs: seq<Value>)
    decreases s, 2, |vs|
  {
    vs == [] || (Fits(s, vs[0]) && FitsItems(s, vs[1..]))
  }

  predicate FitsFields(fs: Fields, vs: seq<Value>)
    decreases fs, 1, 0
  {
    match fs
    case NoFields => vs == []
    case Field(s, rest) => vs != [] && Fits(s, vs[0]) && FitsFields(rest, vs[1..])
  }

  predicate FitsRows(fs: Fields, rows: seq<Value>)
    decreases fs, 2, |rows|
  {
    rows == [] ||
    (&& rows[0].List? && fs.Field? && FitsFields(fs, rows[0].items) && rows[0].items[0] != Zero(fs.schema)
     && FitsRows(fs, rows[1..]))
  }

  predicate FitsCase(cs: Cases, tag: int, v: Value)
    decreases cs, 1, 0
  {
    match cs
    case NoCases => false
    case Case(t, s, rest) => if t == tag then Fits(s, v) else FitsCase(rest, tag, v)
  }

  lemma {:induction false} PowPositive(w: nat)
    ensures Pow256(w) > 0 && (w > 0 ==> Pow256(w) >= 256)
  {
    if w > 0 {
      PowPositive(w - 1);
    }
  }

  lemma {:induction false} ZeroFits(s: Schema)
    requires Comparable(s)
    ensures Fits(s, Zero(s))
    decreases s, 1, 0
  {
    match s
    case Base(b) =>
      if !b.Str? {
        PowPositive(b.width);
      }
    case Array(n, item) =>
      ZeroFits(item);
      ZeroItemsFit(item, n);
    case Struct(fields) => ZeroFieldsFit(fields);
  }

  lemma {:induction false} ZeroItemsFit(s: Schema, n: nat)
    requires Fits(s, Zero(s))
    ensures FitsItems(s, seq(n, _ => Zero(s)))
  {
    if n > 0 {
      assert seq(n, _ => Zero(s))[1..] == seq(n - 1, _ => Zero(s));
      ZeroItemsFit(s, n - 1);
    }
  }

  lemma {:induction false} ZeroFieldsFit(fs: Fields)
    requires ComparableFields(fs)
    ensures FitsFields(fs, ZeroFields(fs))
    decreases fs, 1, 0
  {
    if fs.Field? {
      ZeroFits(fs.schema);
      ZeroFieldsFit(fs.rest);
      assert ZeroFields(fs)[1..] == ZeroFields(fs.rest);
    }
  }

  lemma {:induction false} SizableEncodes(s: Schema, v: Value)
    requires Closed(s) && Sizable(s) && Fits(s, v)
    ensures |Encode(s, v)| > 0
    decreases s, 1, 0
  {
    match s
    case Array(n, item) => SizableEncodes(item, v.items[0]);
    case Struct(fields) => SizableFieldsEncode(fields, v.items);
    case ZeroTerminated(fields) =>
      ZeroFits(fields.schema);
      SizableEncodes(fields.schema, Zero(fields.schema));
    case _ =>
  }

  lemma {:induction false} SizableFieldsEncode(fs: Fields, vs: seq<Value>)
    requires ClosedFields(fs) && SizableFields(fs) && FitsFields(fs, vs)
    ensures |EncodeFields(fs, vs)| > 0
    decreases fs, 1, 0
  {
    if Sizable(fs.schema) {
      SizableEncodes(fs.schema, vs[0]);
    } else {
      SizableFieldsEncode(fs.rest, vs[1..]);
    }
  }

  // ---- decoding ends ---------------------------------------------------------------------

  /** Schemas whose open-ended loops have items that take up room. */
  predicate Productive(s: Schema) {
    match s
    case Base(_) => true
    case Array(_, item) => Productive(item)
    case Struct(fields) => ProductiveFields(fields)
    case LengthPrefixed(_, item) => Productive(item)
    case NullablePrefixed(_, item) => Productive(item)
    case ZeroTerminated(fields) => ProductiveFields(fields) && (fields.Field? ==> Sizable(fields.schema))
    case Remaining(item) => Productive(item) && Sizable(item)
    case Map(_, cases) => ProductiveCases(cases)
  }

  predicate ProductiveFields(fs: Fields) {
    fs.NoFields? || (Productive(fs.schema) && ProductiveFields(fs.rest))
  }

  predicate ProductiveCases(cs: Cases) {
    cs.NoCases? || (Productive(cs.schema) && ProductiveCases(cs.rest))
  }

  lemma {:induction false} SizableConsumes(s: Schema, input: seq<byte>, left: int)
    requires Sizable(s) && Decode(s, input, left).Ok?
    ensures |Decode(s, input, left).value.rest| < |input|
    decreases s, 1, 0
  {
    match s
    case Array(n, item) => SizableConsumes(item, input, left);
    case Struct(fields) => SizableFieldsConsume(fields, input, left);
    case ZeroTerminated(fields) => SizableConsumes(fields.schema, input, left);
    case _ =>
  }

  lemma {:induction false} SizableFieldsConsume(fs: Fields, input: seq<byte>, left: int)
    requires SizableFields(fs) && DecodeFields(fs, input, left).Ok?
    ensures |DecodeFields(fs, input, left).value.rest| < |input|
    decreases fs, 1, 0
  {
    var p := Decode(fs.schema, input, left).value;
    if Sizable(fs.schema) {
      SizableConsumes(fs.schema, input, left);
    } else {
      SizableFieldsConsume(fs.rest, p.rest, left - (|input| - |p.rest|));
    }
  }

  /** On a productive schema decoding ends, whatever the input. */
  lemma {:induction false} NeverDiverges(s: Schema, input: seq<byte>, left: int)
    requires Productive(s)
    ensures Decode(s, input, left) != Err(Diverges)
    decreases s, 1, 0
  {
    hide DecodeItems, DecodeFields, DecodeRows, DecodeRemaining, DecodeCase, Sizable;
    match s
    case Base(_) =>
    case Array(n, item) => ItemsEnd(item, n, input, left);
    case Struct(fields) => FieldsEnd(fields, input, left);
    case LengthPrefixed(p, item) => PrefixedEnds(p, item, input, left);
    case NullablePrefixed(p, item) => PrefixedEnds(p, item, input, left);
    case ZeroTerminated(fields) =>
      if fields.Field? {
        RowsEnd(fields, input, left);
      }
    case Remaining(item) => RemainingEnds(item, input, left);
    case Map(p, cases) =>
      var t := DecodeBasic(p, input);
      if t.Ok? && t.value.value.Num? {
        CaseEnds(cases, t.value.value.n, t.value.rest, left - (|input| - |t.value.rest|));
      }
  }

  lemma {:induction false} PrefixedEnds(p: Basic, item: Schema, input: seq<byte>, left: int)
    requires Productive(item)
    ensures var n := DecodeBasic(p, input);
      && n != Err(Diverges)
      && (n.Ok? && n.value.value.Num? && n.value.value.n >= 0 ==>
            DecodeItems(item, n.value.value.n, n.value.rest, left - (|input| - |n.value.rest|)) != Err(Diverges))
    decreases item, 3, 0
  {
    hide DecodeItems;
    var n := DecodeBasic(p, input);
    if n.Ok? && n.value.value.Num? && n.value.value.n >= 0 {
      ItemsEnd(item, n.value.value.n, n.value.rest, left - (|input| - |n.value.rest|));
    }
  }

  lemma {:induction false} ItemsEnd(s: Schema, n: nat, input: seq<byte>, left: int)
    requires Productive(s)
    ensures DecodeItems(s, n, input, left) != Err(Diverges)
    decreases s, 2, n
  {
    hide Decode, Productive;
    if n > 0 {
      NeverDiverges(s, input, left);
      var p := Decode(s, input, left);
      if p.Ok? {
        ItemsEnd(s, n - 1, p.value.rest, left - (|input| - |p.value.rest|));
      }
    }
  }

  lemma {:induction false} FieldsEnd(fs: Fields, input: seq<byte>, left: int)
    requires ProductiveFields(fs)
    ensures DecodeFields(fs, input, left) != Err(Diverges)
    decreases fs, 1, 0
  {
    hide Decode, Productive;
    if fs.Field? {
      NeverDiverges(fs.schema, input, left);
      var p := Decode(fs.schema, input, left);
      if p.Ok? {
        FieldsEnd(fs.rest, p.value.rest, left - (|input| - |p.value.rest|));
      }
    }
  }

  lemma {:induction false} RowsEnd(fs: Fields, input: seq<byte>, left: int)
    requires fs.Field? && ProductiveFields(fs) && Sizable(fs.schema)
    ensures DecodeRows(fs, input, left) != Err(Diverges)
    decreases fs, 2, |input|
  {
    hide Decode, Productive, Sizable, DecodeFields;
    NeverDiverges(fs.schema, input, left);
    var p := Decode(fs.schema, input, left);
    if p.Ok? && p.value.value != Zero(fs.schema) {
      SizableConsumes(fs.schema, input, left);
      var after := left - (|input| - |p.value.rest|);
      FieldsEnd(fs.rest, p.value.rest, after);
      var q := DecodeFields(fs.rest, p.value.rest, after);
      if q.Ok? {
        RowsEnd(fs, q.value.rest, left - (|input| - |q.value.rest|));
      }
    }
  }

  lemma {:induction false} RemainingEnds(s: Schema, input: seq<byte>, left: int)
    requires Productive(s) && Sizable(s)
    ensures DecodeRemaining(s, input, left) != Err(Diverges)
    decreases s, 2, |input|
  {
    hide Decode, Productive, Sizable;
    if left > 0 {
      NeverDiverges(s, input, left);
      var p := Decode(s, input, left);
      if p.Ok? {
        SizableConsumes(s, input, left);
        RemainingEnds(s, p.value.rest, left - (|input| - |p.value.rest|));
      }
    }
  }

  lemma {:induction false} CaseEnds(cs: Cases, tag: int, input: seq<byte>, left: int)
    requires ProductiveCases(cs)
    ensures DecodeCase(cs, tag, input, left) != Err(Diverges)
    decreases cs, 1, 0
  {
    hide Decode, Productive;
    if cs.Case? {
      if cs.tag == tag {
        NeverDiverges(cs.schema, input, left);
      } else {
        CaseEnds(cs.rest, tag, input, left);
      }
    }
  }

  // ---- decoding undoes encoding ----------------------------------------------------------

  lemma TextRoundTrip(text: seq<byte>, suffix: seq<byte>)
    requires forall i :: 0 <= i < |text| ==> text[i] != 0
    ensures DecodeBasic(Str, text + [0] + suffix) == Ok(Parsed(Text(text), suffix))
  {
    var b := text + [0] + suffix;
    var i := FindZero(b);
    assert b[|text|] == 0;
    assert forall j :: 0 <= j < |text| ==> b[j] == text[j];
    assert i == |text|;
    assert b[..i] == text && b[i + 1..] == suffix;
  }

  lemma BasicRoundTrip(b: Basic, v: Value, suffix: seq<byte>)
    requires Fits(Base(b), v)
    ensures DecodeBasic(b, EncodeBasic(b, v) + suffix) == Ok(Parsed(v, suffix))
  {
    hide EncodeNum, DecodeNum, FromUnsigned, Pow256, FindZero;
    match b
    case Str => TextRoundTrip(v.text, suffix);
    case _ =>
      hide InRange;
      NumRoundTrip(b, v.n);
      var e := EncodeNum(b.width, v.n);
      assert (e + suffix)[..b.width] == e && (e + suffix)[b.width..] == suffix;
  }

  lemma NumPrefixRoundTrip(b: Basic, n: int, suffix: seq<byte>)
    requires !b.Str? && InRange(b, n)
    ensures DecodeBasic(b, EncodeBasic(b, Num(n)) + suffix) == Ok(Parsed(Num(n), suffix))
  {
    BasicRoundTrip(b, Num(n), suffix);
  }

  lemma NullRoundTrip(b: Basic, suffix: seq<byte>)
    requires b.Signed? && b.width > 0
    ensures DecodeBasic(b, EncodeBasic(b, Num(-1)) + suffix) == Ok(Parsed(Num(-1), suffix))
  {
    PowPositive(b.width);
    BasicRoundTrip(b, Num(-1), suffix);
  }

  /**
   Decoding the encoding of a value, followed by anything, yields the value and exactly what
   followed. A schema with Remaining must be told where the packet ends.
   */
  lemma {:induction false} RoundTrip(s: Schema, v: Value, suffix: seq<byte>, left: int)
    requires Fits(s, v) && (Closed(s) || (Packet(s) && left == |Encode(s, v)|))
    ensures Decode(s, Encode(s, v) + suffix, left) == Ok(Parsed(v, suffix))
    decreases s, 1, 0
  {
    hide EncodeItems, EncodeFields, EncodeRows, EncodeCase, EncodeBasic, DecodeItems, DecodeFields, DecodeRows,
         DecodeRemaining, DecodeCase, DecodeBasic, FitsItems, FitsFields, FitsRows, FitsCase, InRange, Pow256, Zero;
    match s
    case Base(b) => BasicRoundTrip(b, v, suffix);
    case Array(n, item) => ItemsRoundTrip(item, v.items, suffix, left);
    case Struct(fields) => FieldsRoundTrip(fields, v.items, suffix, left);
    case LengthPrefixed(p, item) => PrefixedRoundTrip(p, item, v.items, suffix, left);
    case NullablePrefixed(p, item) =>
      if v.Null? {
        NullRoundTrip(p, suffix);
      } else {
        PrefixedRoundTrip(p, item, v.items, suffix, left);
      }
    case ZeroTerminated(fields) => RowsRoundTrip(fields, v.items, suffix, left);
    case Remaining(item) => RemainingRoundTrip(item, v.items, suffix, left);
    case Map(p, cases) =>
      var e, f := EncodeBasic(p, Num(v.tag)), EncodeCase(cases, v.tag, v.value);
      assert e + f + suffix == e + (f + suffix);
      NumPrefixRoundTrip(p, v.tag, f + suffix);
      CaseRoundTrip(cases, v.tag, v.value, suffix, left - |e|);
  }

  lemma {:induction false} PrefixedRoundTrip(p: Basic, item: Schema, vs: seq<Value>, suffix: seq<byte>, left: int)
    requires !p.Str? && InRange(p, |vs|) && Closed(item) && FitsItems(item, vs)
    ensures var input := EncodeBasic(p, Num(|vs|)) + EncodeItems(item, vs) + suffix;
      && DecodeBasic(p, input) == Ok(Parsed(Num(|vs|), EncodeItems(item, vs) + suffix))
      && DecodeItems(item, |vs|, EncodeItems(item, vs) + suffix,
                     left - (|input| - |EncodeItems(item, vs) + suffix|)) == Ok(Parsed(vs, suffix))
    decreases item, 3, 0
  {
    hide EncodeBasic, DecodeBasic, EncodeItems, DecodeItems, FitsItems, Closed, InRange;
    var e, f := EncodeBasic(p, Num(|vs|)), EncodeItems(item, vs);
    assert e + f + suffix == e + (f + suffix);
    NumPrefixRoundTrip(p, |vs|, f + suffix);
    ItemsRoundTrip(item, vs, suffix, left - (|e + f + suffix| - |f + suffix|));
  }

  lemma {:induction false} ItemsRoundTrip(s: Schema, vs: seq<Value>, suffix: seq<byte>, left: int)
    requires Closed(s) && FitsItems(s, vs)
    ensures DecodeItems(s, |vs|, EncodeItems(s, vs) + suffix, left) == Ok(Parsed(vs, suffix))
    decreases s, 2, |vs|
  {
    hide Encode, Decode, Fits, Closed, Sizable;
    if vs == [] {
      assert [] + suffix == suffix;
    } else {
      var e, f := Encode(s, vs[0]), EncodeItems(s, vs[1..]);
      assert e + f + suffix == e + (f + suffix);
      RoundTrip(s, vs[0], f + suffix, left);
      ItemsRoundTrip(s, vs[1..], suffix, left - |e|);
      assert [vs[0]] + vs[1..] == vs;
    }
  }

  lemma {:induction false} FieldsRoundTrip(fs: Fields, vs: seq<Value>, suffix: seq<byte>, left: int)
    requires FitsFields(fs, vs)
    requires ClosedFields(fs) || (PacketFields(fs) && left == |EncodeFields(fs, vs)|)
    ensures DecodeFields(fs, EncodeFields(fs, vs) + suffix, left) == Ok(Parsed(vs, suffix))
    decreases fs, 1, 0
  {
    hide Encode, Decode, Fits, Closed, Packet;
    if fs.NoFields? {
      assert [] + suffix == suffix;
    } else {
      var e, f := Encode(fs.schema, vs[0]), EncodeFields(fs.rest, vs[1..]);
      assert e + f + suffix == e + (f + suffix);
      RoundTrip(fs.schema, vs[0], f + suffix, left);
      FieldsRoundTrip(fs.rest, vs[1..], suffix, left - |e|);
      assert [vs[0]] + vs[1..] == vs;
    }
  }

  lemma {:induction false} CaseRoundTrip(cs: Cases, tag: int, v: Value, suffix: seq<byte>, left: int)
    requires FitsCase(cs, tag, v)
    requires ClosedCases(cs) || (PacketCases(cs) && left == |EncodeCase(cs, tag, v)|)
    ensures DecodeCase(cs, tag, EncodeCase(cs, tag, v) + suffix, left) == Ok(Parsed(v, suffix))
    decreases cs, 1, 0
  {
    if cs.tag == tag {
      RoundTrip(cs.schema, v, suffix, left);
    } else {
      CaseRoundTrip(cs.rest, tag, v, suffix, left);
    }
  }

  lemma {:induction false} RemainingRoundTrip(s: Schema, vs: seq<Value>, suffix: seq<byte>, left: int)
    requires Closed(s) && Sizable(s) && FitsItems(s, vs) && left == |EncodeItems(s, vs)|
    ensures DecodeRemaining(s, EncodeItems(s, vs) + suffix, left) == Ok(Parsed(vs, suffix))
    decreases s, 2, |vs|
  {
    hide Encode, Decode, Fits, Closed, Sizable;
    if vs == [] {
      assert [] + suffix == suffix;
    } else {
      var e, f := Encode(s, vs[0]), EncodeItems(s, vs[1..]);
      SizableEncodes(s, vs[0]);
      assert e + f + suffix == e + (f + suffix);
      RoundTrip(s, vs[0], f + suffix, left);
      RemainingRoundTrip(s, vs[1..], suffix, left - |e|);
      assert [vs[0]] + vs[1..] == vs;
    }
  }

  lemma {:induction false} EmptyIsZero(s: Schema, v: Value)
    requires Closed(s) && Comparable(s) && Fits(s, v) && Encode(s, v) == []
    ensures v == Zero(s)
    decreases s, 2, 0
  {
    ZeroFits(s);
    var z := Encode(s, Zero(s));
    RoundTrip(s, v, z, 0);
    RoundTrip(s, Zero(s), [], 0);
    assert [] + z == z && z + [] == z;
  }

  /** Values that differ from zero take up room. */
  lemma {:induction false} NonZeroEncodes(s: Schema, v: Value)
    requires Closed(s) && Comparable(s) && Fits(s, v) && v != Zero(s)
    ensures |Encode(s, v)| > 0
    decreases s, 3, 0
  {
    if Encode(s, v) == [] {
      EmptyIsZero(s, v);
    }
  }

  /** One row that is read, and what is read behind it. */
  lemma RowRead(fs: Fields, input: seq<byte>, left: int, v: Value, mid: seq<byte>, vs: seq<Value>, tail: seq<byte>,
                rows: seq<Value>, rest: seq<byte>)
    requires fs.Field? && Decode(fs.schema, input, left) == Ok(Parsed(v, mid)) && v != Zero(fs.schema)
    requires DecodeFields(fs.rest, mid, left - (|input| - |mid|)) == Ok(Parsed(vs, tail)) && |tail| < |input|
    requires DecodeRows(fs, tail, left - (|input| - |tail|)) == Ok(Parsed(rows, rest))
    ensures DecodeRows(fs, input, left) == Ok(Parsed([List([v] + vs)] + rows, rest))
  {
    hide Decode, Zero, DecodeFields;
  }

  lemma {:induction false} RowsRoundTrip(fs: Fields, rows: seq<Value>, suffix: seq<byte>, left: int)
    requires fs.Field? && Comparable(fs.schema) && ClosedFields(fs) && FitsRows(fs, rows)
    ensures DecodeRows(fs, EncodeRows(fs, rows) + Encode(fs.schema, Zero(fs.schema)) + suffix, left) == Ok(Parsed(rows, suffix))
    decreases fs, 2, |rows|
  {
    hide Encode, Decode, Fits, Closed, Zero, Comparable, DecodeFields;
    var z := Encode(fs.schema, Zero(fs.schema));
    if rows == [] {
      ZeroFits(fs.schema);
      RoundTrip(fs.schema, Zero(fs.schema), suffix, left);
      assert [] + z + suffix == z + suffix;
    } else {
      hide DecodeRows;
      var vs := rows[0].items;
      var e, f, g := Encode(fs.schema, vs[0]), EncodeFields(fs.rest, vs[1..]), EncodeRows(fs, rows[1..]);
      var tail := g + z + suffix;
      RowTail(e, f, g, z, suffix);
      RoundTrip(fs.schema, vs[0], f + tail, left);
      NonZeroEncodes(fs.schema, vs[0]);
      FieldsRoundTrip(fs.rest, vs[1..], tail, left - |e|);
      RowsRoundTrip(fs, rows[1..], suffix, left - |e| - |f|);
      RowRead(fs, e + (f + tail), left, vs[0], f + tail, vs[1..], tail, rows[1..], suffix);
      assert [vs[0]] + vs[1..] == vs && [rows[0]] + rows[1..] == rows;
    }
  }

  lemma RowTail(e: seq<byte>, f: seq<byte>, g: seq<byte>, z: seq<byte>, suffix: seq<byte>)
    ensures e + f + g + z + suffix == e + (f + (g + z + suffix))
  {
  }

  /** No encoding is the beginning of another: a stream of values has one reading. */
  lemma UniquelyDecodable(s: Schema, v: Value, w: Value, x: seq<byte>, y: seq<byte>)
    requires Closed(s) && Fits(s, v) && Fits(s, w) && Encode(s, v) + x == Encode(s, w) + y
    ensures v == w && x == y
  {
    RoundTrip(s, v, x, 0);
    RoundTrip(s, w, y, 0);
  }
}
