/**
 The growable ring of lib/util/ring/ring.go, an array with a head, a tail and a length, refines a
 plain sequence used as a deque.
 */
module Ring {
  import opened Collections

  /** Index x of an array of n elements that starts over at its end. */
  function Wrap(n: nat, x: nat): nat {
    if x < n then x else x - n
  }

  predicate Placed(n: nat, head: nat, length: nat) {
    length <= n && (head < n || (n == 0 && head == 0))
  }

  /** The elements of a ring, first to last. */
  function Window<T>(b: seq<T>, head: nat, length: nat): seq<T>
    requires Placed(|b|, head, length)
  {
    if head + length <= |b| then b[head..head + length] else b[head..] + b[..head + length - |b|]
  }

  lemma WindowAt<T>(b: seq<T>, head: nat, length: nat)
    requires Placed(|b|, head, length)
    ensures |Window(b, head, length)| == length
    ensures forall i :: 0 <= i < length ==> Window(b, head, length)[i] == b[Wrap(|b|, head + i)]
  {
  }

  /** Dropping the first element, whatever is stored in its place. */
  lemma WithoutFirst<T>(b: seq<T>, head: nat, length: nat, x: T)
    requires 0 < length && Placed(|b|, head, length)
    ensures Window(b[head := x], Wrap(|b|, head + 1), length - 1) == Window(b, head, length)[1..]
  {
    hide Window;
    WindowAt(b, head, length);
    WindowAt(b[head := x], Wrap(|b|, head + 1), length - 1);
  }

  lemma WithoutLast<T>(b: seq<T>, head: nat, length: nat, x: T)
    requires 0 < length && Placed(|b|, head, length)
    ensures Window(b[Wrap(|b|, head + length - 1) := x], head, length - 1) == Window(b, head, length)[..length - 1]
  {
    hide Window;
    WindowAt(b, head, length);
    WindowAt(b[Wrap(|b|, head + length - 1) := x], head, length - 1);
  }

  lemma WithFirst<T>(b: seq<T>, head: nat, length: nat, x: T)
    requires length < |b| && Placed(|b|, head, length)
    ensures var h := if head == 0 then |b| - 1 else head - 1;
      Window(b[h := x], h, length + 1) == [x] + Window(b, head, length)
  {
    hide Window;
    var h := if head == 0 then |b| - 1 else head - 1;
    WindowAt(b, head, length);
    WindowAt(b[h := x], h, length + 1);
  }

  lemma WithLast<T>(b: seq<T>, head: nat, length: nat, x: T)
    requires length < |b| && Placed(|b|, head, length)
    ensures Window(b[Wrap(|b|, head + length) := x], head, length + 1) == Window(b, head, length) + [x]
  {
    hide Window;
    WindowAt(b, head, length);
    WindowAt(b[Wrap(|b|, head + length) := x], head, length + 1);
  }

  // ---- where the indices go --------------------------------------------------------------

  /** The fields of a ring over an array of n elements. */
  datatype Places = Places(n: nat, head: nat, tail: nat, length: nat)

  function Made(length: nat, capacity: nat): Places {
    Places(capacity, 0, length, length)
  }

  function IncHead(p: Places): Places
    requires p.length > 0
  {
    p.(length := p.length - 1, head := if p.head + 1 == p.n then 0 else p.head + 1)
  }

  /** incTail when there is room. */
  function IncTail(p: Places): Places
    requires p.length < p.n
  {
    p.(length := p.length + 1, tail := if p.tail + 1 == p.n then 0 else p.tail + 1)
  }

  function TailSub1(p: Places): nat
    requires p.n > 0
  {
    if p.tail == 0 then p.n - 1 else p.tail - 1
  }

  /**
   A ring made with elements, of which one is taken off the front: the next PushBack has room, and
   writes outside the array if and only if the ring was made full.
   */
  lemma FullRingWritesOutside(length: nat, capacity: nat)
    requires 0 < length <= capacity
    ensures var p := IncHead(Made(length, capacity));
      && p.length < p.n
      && (TailSub1(IncTail(p)) >= p.n <==> length == capacity)
  {
  }

  class Ring<T(0)> {
    var buf: array<T>
    var head: nat
    var tail: nat
    var length: nat

    ghost predicate Valid()
      reads this
    {
      && Placed(buf.Length, head, length)
      && (buf.Length == 0 ==> tail == 0)
      && (buf.Length > 0 ==> tail < buf.Length && tail == Wrap(buf.Length, head + length))
    }

    function Fields(): Places
      reads this
    {
      Places(buf.Length, head, tail, length)
    }

    ghost function Contents(): seq<T>
      requires Valid()
      reads this, buf
    {
      Window(buf[..], head, length)
    }

    /** The zero value. */
    constructor ()
      ensures Valid() && fresh(buf) && Contents() == []
    {
      buf := new T[0];
      head, tail, length := 0, 0, 0;
    }

    /**
     MakeRing panics unless length <= capacity. A non-empty ring made full has its tail one past
     the end of the array, where no other operation ever puts it.
     */
    constructor Make(length: nat, capacity: nat)
      requires length <= capacity
      ensures fresh(buf) && Fields() == Made(length, capacity)
      ensures Valid() <==> length < capacity || capacity == 0
    {
      buf := new T[capacity];
      head, tail := 0, length;
      this.length := length;
    }

    method Grow()
      requires Valid() && length == buf.Length
      modifies this
      ensures Valid() && fresh(buf) && length == old(length) < buf.Length && Contents() == old(Contents())
      ensures head == 0
    {
      hide Window;
      var size := buf.Length * 2;
      if size == 0 {
        size := 2;
      }
      var b := new T[size];
      var n := buf.Length;
      forall i | 0 <= i < n - head {
        b[i] := buf[head + i];
      }
      forall i | 0 <= i < head {
        b[n - head + i] := buf[i];
      }
      ghost var c := Contents();
      WindowAt(buf[..], head, length);
      WindowAt(b[..], 0, length);
      assert Window(b[..], 0, length) == c;
      head := 0;
      tail := length;
      buf := b;
    }

    method PopFront() returns (front: Option<T>)
      requires Valid()
      modifies this, buf
      ensures Valid() && buf == old(buf)
      ensures Fields() == if old(length) == 0 then old(Fields()) else IncHead(old(Fields()))
      ensures front == if old(Contents()) == [] then None else Some(old(Contents())[0])
      ensures Contents() == if old(Contents()) == [] then [] else old(Contents())[1..]
    {
      hide Window;
      WindowAt(buf[..], head, length);
      if length == 0 {
        return None;
      }
      front := Some(buf[head]);
      var zero: T := *;
      WithoutFirst(buf[..], head, length, zero);
      ghost var b := buf[..];
      buf[head] := zero;
      assert buf[..] == b[head := zero];
      length := length - 1;
      head := head + 1;
      if head == buf.Length {
        head := 0;
      }
    }

    method PopBack() returns (back: Option<T>)
      requires Valid()
      modifies this, buf
      ensures Valid() && buf == old(buf)
      ensures back == if old(Contents()) == [] then None else Some(old(Contents())[|old(Contents())| - 1])
      ensures Contents() == if old(Contents()) == [] then [] else old(Contents())[..|old(Contents())| - 1]
    {
      hide Window;
      WindowAt(buf[..], head, length);
      if length == 0 {
        return None;
      }
      var zero: T := *;
      WithoutLast(buf[..], head, length, zero);
      length := length - 1;
      tail := if tail == 0 then buf.Length - 1 else tail - 1;
      back := Some(buf[tail]);
      ghost var b := buf[..];
      buf[tail] := zero;
      assert buf[..] == b[tail := zero];
    }

    method Clear()
      requires Valid()
      modifies this
      ensures Valid() && buf == old(buf) && Contents() == []
    {
      head, tail, length := 0, 0, 0;
    }

    method PushFront(value: T)
      requires Valid()
      modifies this, buf
      ensures Valid() && (buf == old(buf) || fresh(buf)) && Contents() == [value] + old(Contents())
    {
      hide Window;
      if length == buf.Length {
        Grow();
      }
      WithFirst(buf[..], head, length, value);
      length := length + 1;
      head := if head == 0 then buf.Length - 1 else head - 1;
      ghost var b := buf[..];
      buf[head] := value;
      assert buf[..] == b[head := value];
    }

    method PushBack(value: T)
      requires Valid()
      modifies this, buf
      ensures Valid() && (buf == old(buf) || fresh(buf)) && Contents() == old(Contents()) + [value]
      ensures old(length < buf.Length) ==> Fields() == IncTail(old(Fields())) && buf[TailSub1(Fields())] == value
    {
      hide Window;
      if length == buf.Length {
        Grow();
      }
      WithLast(buf[..], head, length, value);
      length := length + 1;
      tail := tail + 1;
      if tail == buf.Length {
        tail := 0;
      }
      var last := if tail == 0 then buf.Length - 1 else tail - 1;
      ghost var b := buf[..];
      buf[last] := value;
      assert buf[..] == b[last := value];
    }

    method Length() returns (n: nat)
      requires Valid()
      ensures n == |Contents()|
    {
      WindowAt(buf[..], head, length);
      return length;
    }

    /** Get panics from the length on. */
    method Get(n: nat) returns (x: T)
      requires Valid() && n < |Contents()|
      ensures x == Contents()[n]
    {
      WindowAt(buf[..], head, length);
      var ptr := head + n;
      if ptr >= buf.Length {
        ptr := ptr - buf.Length;
      }
      return buf[ptr];
    }
  }
}
