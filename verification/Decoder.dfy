/**
 The buffered Decoder of lib/fed/decoder.go over a reader that delivers its bytes in arbitrary
 non-empty pieces. Every method is specified by what it does to the logical stream: the bytes
 still in the buffer followed by those the reader has not delivered yet.
 */
module Decoder {
  import opened Collections
  import opened Codec

  datatype IOError = EOF | UnexpectedEOF | OverranReadBuffer

  const BUFFER_SIZE := 4096

  function Min(a: nat, b: nat): nat {
    if a < b then a else b
  }

  /** n bytes were taken off a stream and written over a buffer at lo. */
  ghost predicate Moved(s: seq<byte>, t: seq<byte>, b: seq<byte>, c: seq<byte>, lo: nat, n: nat) {
    n <= |s| && lo + n <= |b| && c == b[..lo] + s[..n] + b[lo + n..] && t == s[n..]
  }

  lemma MovedNone(s: seq<byte>, b: seq<byte>, lo: nat)
    requires lo <= |b|
    ensures Moved(s, s, b, b, lo, 0)
  {
    assert b[..lo] + s[..0] + b[lo..] == b;
  }

  lemma MovedSizes(s: seq<byte>, t: seq<byte>, b: seq<byte>, c: seq<byte>, lo: nat, n: nat)
    requires Moved(s, t, b, c, lo, n)
    ensures |s| == |t| + n && |b| == |c|
  {
  }

  lemma MovedTwice(s: seq<byte>, t: seq<byte>, u: seq<byte>, b: seq<byte>, c: seq<byte>, d: seq<byte>, lo: nat, m: nat, n: nat)
    requires Moved(s, t, b, c, lo, m) && Moved(t, u, c, d, lo + m, n)
    ensures Moved(s, u, b, d, lo, m + n)
  {
    assert s[..m + n] == s[..m] + t[..n];
    assert c[..lo + m] == b[..lo] + s[..m];
    assert c[lo + m + n..] == b[lo + m + n..];
  }

  /** The builtin copy. */
  method Copy(b: array<byte>, lo: nat, src: seq<byte>)
    requires lo + |src| <= b.Length
    modifies b
    ensures b[..] == old(b[..lo]) + src + old(b[lo + |src|..])
  {
    forall i | 0 <= i < |src| {
      b[lo + i] := src[i];
    }
  }

  /** Filling a buffer from a source leaves the bytes in between the same. */
  lemma Filled(b: seq<byte>, c: seq<byte>, data: seq<byte>, r: nat, w: nat, n: nat)
    requires r <= w && w + n <= |b| && n <= |data| && c == b[..w] + data[..n] + b[w + n..]
    ensures c[r..w + n] + data[n..] == b[r..w] + data
  {
    assert c[r..w + n] == b[r..w] + data[..n];
    assert data[..n] + data[n..] == data;
    assert (b[r..w] + data[..n]) + data[n..] == b[r..w] + (data[..n] + data[n..]);
  }

  lemma Dropped(s: seq<byte>, a: nat, b: nat)
    requires a + b <= |s|
    ensures s[a..][b..] == s[a + b..]
  {
  }

  /** A source of bytes; `cuts` decides how much each read delivers, at least one byte. */
  class Reader {
    var data: seq<byte>
    var cuts: seq<nat>

    constructor (data: seq<byte>, cuts: seq<nat>)
      ensures this.data == data && this.cuts == cuts
    {
      this.data, this.cuts := data, cuts;
    }

    method Read(b: array<byte>, lo: nat, hi: nat) returns (n: nat, err: Option<IOError>)
      requires lo <= hi <= b.Length
      modifies this, b
      ensures lo + n <= hi && n <= |old(data)|
      ensures b[..] == old(b[..lo]) + old(data)[..n] + old(b[lo + n..])
      ensures data == old(data)[n..]
      ensures err.Some? <==> old(data) == []
      ensures err.Some? ==> err.value == EOF
      ensures err.None? && lo < hi ==> n > 0
    {
      if data == [] {
        return 0, Some(EOF);
      }
      n := Min(hi - lo, |data|);
      if cuts != [] {
        if 0 < cuts[0] {
          n := Min(n, cuts[0]);
        }
        cuts := cuts[1..];
      }
      Copy(b, lo, data[..n]);
      data := data[n..];
      err := None;
    }
  }

  class Decoder {
    const buffer: array<byte>
    const decodeBuf: array<byte>
    var bufferWrite: nat
    var bufferRead: nat
    const reader: Reader
    var packetType: byte
    var packetLength: int
    var packetPos: int

    constructor (reader: Reader)
      ensures Valid() && fresh(buffer) && fresh(decodeBuf) && this.reader == reader
      ensures Stream() == reader.data && packetLength == 0 && packetPos == 0 && packetType == 0
    {
      buffer := new byte[BUFFER_SIZE](_ => 0);
      decodeBuf := new byte[8](_ => 0);
      bufferWrite, bufferRead, this.reader := 0, 0, reader;
      packetType, packetLength, packetPos := 0, 0, 0;
    }

    /** Reset: forgets what was buffered. */
    method Reset()
      requires Valid()
      modifies this`bufferRead, this`bufferWrite, this`packetLength, this`packetPos
      ensures Valid() && packetLength == 0 && packetPos == 0 && Stream() == reader.data
    {
      packetLength, packetPos := 0, 0;
      bufferRead, bufferWrite := 0, 0;
    }

    ghost predicate Valid()
      reads this`bufferRead, this`bufferWrite
    {
      && buffer.Length == BUFFER_SIZE && decodeBuf.Length == 8 && buffer != decodeBuf && bufferWrite <= BUFFER_SIZE
      && (if bufferWrite == 0 then bufferRead == 0 else bufferRead < bufferWrite)
    }

    /** All bytes not consumed yet. */
    ghost function Stream(): seq<byte>
      requires Valid()
      reads this`bufferRead, this`bufferWrite, buffer, reader
    {
      buffer[bufferRead..bufferWrite] + reader.data
    }

    /** Reads once into the free part of the buffer, if there is any. */
    method Refill() returns (err: Option<IOError>)
      requires Valid()
      modifies this`bufferWrite, buffer, reader
      ensures Valid() && Stream() == old(Stream()) && old(bufferWrite) <= bufferWrite
      ensures err.Some? <==> old(bufferWrite) < BUFFER_SIZE && old(reader.data) == []
      ensures err.Some? ==> err.value == EOF && bufferWrite == old(bufferWrite)
      ensures err.None? ==> bufferWrite > 0
      ensures old(bufferWrite) == 0 ==> (err.Some? <==> old(Stream()) == [])
    {
      if bufferWrite >= buffer.Length {
        return None;
      }
      var n;
      n, err := reader.Read(buffer, bufferWrite, buffer.Length);
      Filled(old(buffer[..]), buffer[..], old(reader.data), bufferRead, bufferWrite, n);
      bufferWrite := bufferWrite + n;
      assert buffer[bufferRead..bufferWrite] == buffer[..][bufferRead..bufferWrite];
    }

    /** Advances in the buffer, which starts over once it is used up. */
    method Skip(count: nat)
      requires Valid() && count <= bufferWrite - bufferRead
      modifies this`bufferRead, this`bufferWrite
      ensures Valid() && count <= |old(Stream())| && Stream() == old(Stream())[count..]
      ensures bufferWrite == if old(bufferRead) + count == old(bufferWrite) then 0 else old(bufferWrite)
      ensures bufferRead == if old(bufferRead) + count == old(bufferWrite) then 0 else old(bufferRead) + count
    {
      ghost var b := buffer[bufferRead..bufferWrite];
      assert buffer[bufferRead + count..bufferWrite] == b[count..];
      assert (b + reader.data)[count..] == b[count..] + reader.data;
      bufferRead := bufferRead + count;
      if bufferRead == bufferWrite {
        bufferRead, bufferWrite := 0, 0;
      }
    }

    lemma StreamLength()
      requires Valid()
      ensures |Stream()| == bufferWrite - bufferRead + |reader.data|
    {
    }

    method Discard(n0: int) returns (err: Option<IOError>)
      requires Valid()
      modifies this`bufferWrite, this`bufferRead, buffer, reader
      ensures Valid()
      ensures err.Some? <==> 0 < n0 && |old(Stream())| <= n0
      ensures err.Some? ==> err.value == EOF && Stream() == []
      ensures err.None? ==> Stream() == old(Stream())[if 0 < n0 then n0 else 0..]
    {
      hide Stream;
      var n := n0;
      ghost var gone := 0;
      assert Stream()[0..] == Stream();
      while n > 0
        invariant Valid() && 0 <= gone <= |old(Stream())| && Stream() == old(Stream())[gone..]
        invariant 0 < n0 ==> n == n0 - gone && 0 <= n
        invariant n0 <= 0 ==> n == n0 && gone == 0
        invariant 0 < n0 && n == 0 ==> 0 < |Stream()|
        decreases n, bufferWrite == 0
      {
        if bufferWrite != 0 {
          var count := Min(n, bufferWrite - bufferRead);
          Skip(count);
          Dropped(old(Stream()), gone, count);
          n := n - count;
          gone := gone + count;
          StreamLength();
          if bufferWrite != 0 {
            break;
          }
        }
        err := Refill();
        StreamLength();
        if err.Some? {
          return;
        }
      }
      err := None;
    }

    /** b[lo..lo + n] is what was taken off the front of the stream; the rest of b is untouched. */
    twostate predicate Took(b: array<byte>, lo: nat, n: nat)
      requires old(Valid()) && Valid()
      reads this`bufferRead, this`bufferWrite, buffer, reader, b
    {
      Moved(old(Stream()), Stream(), old(b[..]), b[..], lo, n)
    }

    /** Copies out of the buffer. */
    method Drain(b: array<byte>, lo: nat, hi: nat) returns (n: nat)
      requires Valid() && lo <= hi <= b.Length && b != buffer
      modifies this`bufferRead, this`bufferWrite, b
      ensures Valid() && n == Min(hi - lo, old(bufferWrite - bufferRead)) && Took(b, lo, n)
    {
      n := Min(hi - lo, bufferWrite - bufferRead);
      ghost var have := Stream();
      var x := buffer[bufferRead..bufferRead + n];
      assert x == have[..n];
      Copy(b, lo, x);
      assert Stream() == have;
      Skip(n);
    }

    /** read: at least one byte unless the stream has ended or none is asked for. */
    method ReadSome(b: array<byte>, lo: nat, hi: nat) returns (n: nat, err: Option<IOError>)
      requires Valid() && lo <= hi <= b.Length && b != buffer
      modifies this`bufferRead, this`bufferWrite, b, buffer, reader
      ensures Valid() && lo + n <= hi && Took(b, lo, n)
      ensures err.Some? <==> lo < hi && old(Stream()) == []
      ensures err.Some? ==> err.value == EOF && n == 0
      ensures err.None? && lo < hi ==> n > 0
    {
      err := None;
      if lo == hi {
        return 0, None;
      }
      if bufferWrite != 0 {
        n := Drain(b, lo, hi);
        return;
      }
      if hi - lo > buffer.Length {
        assert Stream() == reader.data;
        n, err := reader.Read(b, lo, hi);
        assert Stream() == reader.data;
        return;
      }
      err := Refill();
      n := Drain(b, lo, hi);
    }

    /** readFull: all of b[lo..hi] or an error, which is EOF only if nothing was left. */
    method ReadFull(b: array<byte>, lo: nat, hi: nat) returns (err: Option<IOError>)
      requires Valid() && lo <= hi <= b.Length && b != buffer
      modifies this`bufferRead, this`bufferWrite, b, buffer, reader
      ensures Valid()
      ensures err.Some? <==> |old(Stream())| < hi - lo
      ensures err.None? ==> Took(b, lo, hi - lo)
      ensures err.Some? ==> Took(b, lo, |old(Stream())|) && err.value == if old(Stream()) == [] then EOF else UnexpectedEOF
    {
      hide Moved, Stream, Valid;
      var n := 0;
      MovedNone(Stream(), b[..], lo);
      while n < hi - lo
        invariant Valid() && n <= hi - lo && Took(b, lo, n)
        decreases hi - lo - n
      {
        ghost var before, bytes := Stream(), b[..];
        var count;
        count, err := ReadSome(b, lo + n, hi);
        MovedTwice(old(Stream()), before, Stream(), old(b[..]), bytes, b[..], lo, n, count);
        MovedSizes(old(Stream()), before, old(b[..]), bytes, lo, n);
        MovedSizes(before, Stream(), bytes, b[..], lo + n, count);
        n := n + count;
        if err.Some? {
          if err.value == EOF && n != 0 {
            err := Some(UnexpectedEOF);
          }
          return;
        }
      }
      MovedSizes(old(Stream()), Stream(), old(b[..]), b[..], lo, n);
      err := None;
    }

    /** Read: never past the end of the current packet. */
    method Read(b: array<byte>, lo: nat, hi: nat) returns (n: nat, err: Option<IOError>)
      requires Valid() && lo <= hi <= b.Length && b != buffer && packetPos <= packetLength
      modifies this`bufferRead, this`bufferWrite, this`packetPos, b, buffer, reader
      ensures Valid() && lo + n <= hi && Took(b, lo, n) && packetPos == old(packetPos) + n <= packetLength
      ensures err.Some? <==> old(packetPos) == packetLength || (lo < hi && old(Stream()) == [])
      ensures err.Some? ==> err.value == EOF && n == 0
      ensures err.None? && lo < hi ==> n > 0
    {
      hide Moved, Stream, Valid;
      var rem := packetLength - packetPos;
      if rem == 0 {
        MovedNone(Stream(), b[..], lo);
        return 0, Some(EOF);
      }
      if hi - lo > rem {
        n, err := ReadSome(b, lo, lo + rem);
      } else {
        n, err := ReadSome(b, lo, hi);
      }
      packetPos := packetPos + n;
    }

    /** The first w bytes of decodeBuf, freshly read, as a big-endian number. */
    method Uint(w: nat) returns (v: nat, err: Option<IOError>)
      requires Valid() && w <= 8
      modifies this`bufferRead, this`bufferWrite, this`packetPos, decodeBuf, buffer, reader
      ensures Valid() && packetPos == old(packetPos) + w
      ensures err.None? <==> w <= |old(Stream())|
      ensures err.None? ==> v == DecodeNum(old(Stream())[..w]) && Stream() == old(Stream())[w..]
      ensures err.None? ==> v == Weighted(old(Stream())[..w])
      ensures err.Some? ==> Stream() == []
    {
      hide Stream;
      err := ReadFull(decodeBuf, 0, w);
      packetPos := packetPos + w;
      var d := decodeBuf[..];
      v := DecodeNum(d[..w]);
      if err.None? {
        assert d[..w] == old(Stream())[..w];
        NumValue(d[..w]);
      }
    }

    /** What the header of the next packet says, once the rest of this one is skipped. */
    static ghost predicate Header(s: seq<byte>, typed: bool, typ: byte, length: int, rest: seq<byte>) {
      var k := if typed then 1 else 0;
      && |s| >= k + 4 && typ == (if typed then s[0] else 0)
      && length == DecodeNum(s[k..k + 4]) - 4 && rest == s[k + 4..]
    }

    method Next(typed: bool) returns (err: Option<IOError>)
      requires Valid()
      modifies this`bufferRead, this`bufferWrite, this`packetType, this`packetLength, this`packetPos, decodeBuf, buffer, reader
      ensures Valid()
      ensures old(packetLength < packetPos) ==> err == Some(OverranReadBuffer) && Stream() == old(Stream())
      ensures old(packetPos <= packetLength) ==>
        (err.None? <==> |old(Stream())| >= old(packetLength - packetPos) + (if typed then 5 else 4))
      ensures err.None? ==>
        packetPos == 0 && Header(old(Stream())[old(packetLength - packetPos)..], typed, packetType, packetLength, Stream())
      ensures err.Some? ==> packetPos == old(packetPos) && packetLength == old(packetLength)
    {
      hide Stream, DecodeNum;
      var rem := packetLength - packetPos;
      if rem < 0 {
        return Some(OverranReadBuffer);
      } else if rem > 0 {
        err := Discard(rem);
        if err.Some? {
          return;
        }
      }
      ghost var s := Stream();
      if typed {
        err := ReadFull(decodeBuf, 0, 5);
      } else {
        decodeBuf[0] := 0;
        err := ReadFull(decodeBuf, 1, 5);
      }
      if err.Some? {
        return;
      }
      var d := decodeBuf[..];
      ghost var k := if typed then 1 else 0;
      assert d[1..5] == s[k..k + 4];
      packetType := d[0];
      packetLength := DecodeNum(d[1..5]) - 4;
      packetPos := 0;
    }

    /** The offset of the first zero in the buffered bytes, or their number. */
    method Scan() returns (i: nat)
      requires Valid()
      ensures Valid() && i == FindZero(buffer[bufferRead..bufferWrite])
    {
      i := 0;
      ghost var b := buffer[bufferRead..bufferWrite];
      while i < bufferWrite - bufferRead && buffer[bufferRead + i] != 0
        invariant i <= |b| && forall j :: 0 <= j < i ==> b[j] != 0
      {
        i := i + 1;
      }
    }

    /** The buffered bytes up to a zero, which is skipped, or all of them. */
    method Chunk() returns (piece: seq<byte>, done: bool)
      requires Valid() && bufferWrite != 0
      modifies this`bufferRead, this`bufferWrite
      ensures Valid() && forall j :: 0 <= j < |piece| ==> piece[j] != 0
      ensures old(Stream()) == if done then piece + ([0] + Stream()) else piece + Stream()
      ensures !done ==> bufferWrite == 0 && |piece| > 0
    {
      var i := Scan();
      var b := buffer[bufferRead..bufferWrite];
      piece := b[..i];
      done := i < bufferWrite - bufferRead;
      SplitAt(b, i, reader.data);
      Skip(if done then i + 1 else i);
    }

    /** A zero-terminated string, however its bytes are spread over refills. */
    method String() returns (res: seq<byte>, err: Option<IOError>)
      requires Valid()
      modifies this`bufferRead, this`bufferWrite, this`packetPos, buffer, reader
      ensures Valid()
      ensures Terminated(old(Stream()), res, err, Stream(), packetPos - old(packetPos))
    {
      hide Terminated, Stream, Valid;
      ghost var s := Stream();
      res := [];
      assert [] + s == s;
      while true
        invariant Valid() && s == res + Stream() && (forall j :: 0 <= j < |res| ==> res[j] != 0)
        invariant packetPos == old(packetPos)
        decreases |Stream()|, bufferWrite == 0
      {
        if bufferWrite == 0 {
          err := Refill();
          if err.Some? {
            NotTerminated(s, res);
            packetPos := packetPos + |res|;
            return;
          }
        }
        ghost var have := Stream();
        var piece, done := Chunk();
        ghost var left := Stream();
        Joined(s, res, have, piece, done, left);
        NoZeros(res, piece);
        res := res + piece;
        if done {
          packetPos := packetPos + |res| + 1;
          return res, None;
        }
      }
    }
  }

  /** res is the stream up to its first zero, which is consumed as well, or all of it if there is none. */
  ghost predicate Terminated(s: seq<byte>, res: seq<byte>, err: Option<IOError>, rest: seq<byte>, consumed: int) {
    var i := FindZero(s);
    && res == s[..i]
    && if i < |s| then err.None? && rest == s[i + 1..] && consumed == i + 1
       else err == Some(EOF) && rest == [] && consumed == i
  }

  lemma NoZeros(a: seq<byte>, b: seq<byte>)
    requires (forall j :: 0 <= j < |a| ==> a[j] != 0) && (forall j :: 0 <= j < |b| ==> b[j] != 0)
    ensures forall j :: 0 <= j < |a + b| ==> (a + b)[j] != 0
  {
  }

  lemma NotTerminated(s: seq<byte>, res: seq<byte>)
    requires s == res + [] && forall j :: 0 <= j < |res| ==> res[j] != 0
    ensures Terminated(s, res, Some(EOF), [], |res|)
  {
    assert s == res;
  }

  lemma SplitAt(b: seq<byte>, i: nat, data: seq<byte>)
    requires i <= |b|
    ensures i < |b| && b[i] == 0 ==> b + data == b[..i] + ([0] + (b + data)[i + 1..])
    ensures b + data == b[..i] + (b + data)[i..]
  {
  }

  /** One more piece of a zero-terminated string. */
  lemma Joined(s: seq<byte>, res: seq<byte>, have: seq<byte>, piece: seq<byte>, done: bool, rest: seq<byte>)
    requires s == res + have && (forall j :: 0 <= j < |res| ==> res[j] != 0)
    requires forall j :: 0 <= j < |piece| ==> piece[j] != 0
    requires have == if done then piece + ([0] + rest) else piece + rest
    ensures !done ==> s == (res + piece) + rest
    ensures done ==> Terminated(s, res + piece, None, rest, |res + piece| + 1)
  {
    if done {
      var i := |res + piece|;
      assert s == (res + piece) + ([0] + rest);
      assert s[i] == 0;
      assert forall j :: 0 <= j < i ==> s[j] == (res + piece)[j];
    } else {
      assert s == (res + piece) + rest;
    }
  }
}
