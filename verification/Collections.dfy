/** Optional values, the order in which a Go map is walked, and removal from a slice. */
module Collections {
  datatype Option<+T> = None | Some(value: T) {
    predicate IsFailure() {
      None?
    }
    function PropagateFailure<U>(): Option<U>
      requires None?
    {
      None
    }
    function Extract(): T
      requires Some?
    {
      value
    }
  }

  predicate Distinct<T(==)>(s: seq<T>) {
    forall i, j :: 0 <= i < j < |s| ==> s[i] != s[j]
  }

  /** The keys of a map in some order, each once. */
  predicate Walks<K(==)>(keys: seq<K>, s: set<K>) {
    (forall k | k in keys :: k in s) && (forall k | k in s :: k in keys) && Distinct(keys)
  }

  method Walk<K(==)>(s: set<K>) returns (keys: seq<K>)
    ensures Walks(keys, s)
  {
    var left := s;
    keys := [];
    while left != {}
      invariant left <= s && (forall k | k in keys :: k in s && k !in left) && (forall k | k in s :: k in keys || k in left)
      invariant Distinct(keys)
      decreases |left|
    {
      ghost var some := Member(left);
      var k :| k in left;
      left := left - {k};
      keys := keys + [k];
    }
  }

  /** A member of the set, if there is any. */
  lemma Member<T>(s: set<T>) returns (some: Option<T>)
    ensures some.None? <==> s == {}
    ensures some.Some? ==> some.value in s
  {
    if exists x :: x in s {
      var x :| x in s;
      some := Some(x);
    } else {
      assert forall x :: x !in s;
      some := None;
    }
  }

  /** The sequence without the first occurrence. */
  function Without<T(==)>(s: seq<T>, x: T): seq<T> {
    if s == [] then [] else if s[0] == x then s[1..] else [s[0]] + Without(s[1..], x)
  }

  lemma {:induction false} WithoutIs<T>(s: seq<T>, x: T)
    ensures forall y :: y in Without(s, x) ==> y in s
    ensures Distinct(s) ==> Distinct(Without(s, x)) && forall y :: y in Without(s, x) <==> y in s && y != x
  {
    if s != [] {
      WithoutIs(s[1..], x);
      assert forall y :: y in s <==> y == s[0] || y in s[1..];
      assert Distinct(s) ==> s[0] !in s[1..] && Distinct(s[1..]);
    }
  }

  /** Where the element stands first, or -1. */
  method Index<T(==)>(haystack: seq<T>, needle: T) returns (i: int)
    ensures -1 <= i < |haystack|
    ensures if i == -1 then needle !in haystack else haystack[i] == needle && needle !in haystack[..i]
  {
    for j := 0 to |haystack|
      invariant needle !in haystack[..j]
    {
      if haystack[j] == needle {
        return j;
      }
    }
    assert haystack[..|haystack|] == haystack;
    return -1;
  }

  /** Remove and Delete of lib/util/slices/remove.go: what is behind the element moves up. */
  method RemoveFrom<T(==)>(s: seq<T>, x: T) returns (r: seq<T>)
    ensures r == Without(s, x)
  {
    var i := Index(s, x);
    if i == -1 {
      WithoutNone(s, x);
      return s;
    }
    WithoutAt(s, i);
    return s[..i] + s[i + 1..];
  }

  lemma {:induction false} WithoutNone<T>(s: seq<T>, x: T)
    requires x !in s
    ensures Without(s, x) == s
  {
    if s != [] {
      WithoutNone(s[1..], x);
    }
  }

  lemma {:induction false} WithoutAt<T>(s: seq<T>, i: nat)
    requires i < |s| && s[i] !in s[..i]
    ensures Without(s, s[i]) == s[..i] + s[i + 1..]
  {
    if i > 0 {
      assert s[1..][..i - 1] == s[1..i];
      assert s[0] in s[..i];
      WithoutAt(s[1..], i - 1);
      assert s[..i] == [s[0]] + s[1..i];
    }
  }

  // ---- a stack that may also lose what is in the middle ----------------------------------

  ghost predicate Cut<T>(q: seq<T>, r: seq<T>, k: nat) {
    k < |q| && r == q[..k] + q[k + 1..]
  }

  /** Nothing changed, all was taken off, something new was put on top, or one element was taken out. */
  ghost predicate Shifted<T(!new)>(q: seq<T>, r: seq<T>) {
    r == q || r == [] || (exists x :: x !in q && r == q + [x]) || (exists k :: Cut(q, r, k))
  }

  ghost predicate InOrder<T>(q: seq<T>, x: T, y: T) {
    exists i, j :: 0 <= i < j < |q| && q[i] == x && q[j] == y
  }

  /** What was there stays in order, below anything new. */
  lemma ShiftedOrder<T(!new)>(q: seq<T>, r: seq<T>, i: nat, j: nat)
    requires Shifted(q, r) && i < j < |r|
    ensures InOrder(q, r[i], r[j]) || (r[i] in q && r[j] !in q)
  {
    if k: nat :| Cut(q, r, k) {
      var a, b := if i < k then i else i + 1, if j < k then j else j + 1;
      assert q[a] == r[i] && q[b] == r[j];
    } else if j < |q| {
      assert q[i] == r[i] && q[j] == r[j];
    }
  }

  lemma WithoutShifts<T(!new)>(q: seq<T>, x: T)
    requires Distinct(q)
    ensures Shifted(q, Without(q, x))
  {
    if x in q {
      var k :| 0 <= k < |q| && q[k] == x;
      WithoutAt(q, k);
      assert Cut(q, Without(q, x), k);
    } else {
      WithoutNone(q, x);
    }
  }
}
