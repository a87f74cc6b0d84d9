/**
 The heap-allocated tree of lib/util/rbtree/rbtree.go: nodes linked and recoloured in place,
 with a free list. Every method is proved against the value-level operation of RBTreeSpec.
 */
module RBTree {
  import opened Collections
  import opened RBTreeSpec

  class Node<V> {
    var key: int
    var value: V
    var left: Node?<V>
    var right: Node?<V>
    var red: bool

    constructor (zero: V)
      ensures Blank(zero)
    {
      key, value, left, right, red := 0, zero, null, null, false;
    }

    /** The zero value of a node, in which alloc hands nodes out. */
    ghost predicate Blank(zero: V)
      reads this
    {
      key == 0 && value == zero && left == null && right == null && !red
    }
  }

  /** The nodes below n hold exactly the tree value t. */
  ghost predicate Stores<V>(n: Node?<V>, t: Tree<Node<V>, V>)
    reads Ids(t)
    decreases t
  {
    match t
    case Leaf => n == null
    case Branch(id, l, k, v, red, r) =>
      && n == id && id.key == k && id.value == v && id.red == red
      && Stores(id.left, l) && Stores(id.right, r)
  }

  ghost function Elements<T>(s: seq<T>): set<T> {
    set x | x in s
  }

  lemma ElementsOfLast<T>(s: seq<T>, x: T)
    ensures Elements(s + [x]) == Elements(s) + {x}
  {
  }

  function IsRedAt<V>(n: Node?<V>): bool
    reads n
  {
    n != null && n.red
  }

  /** What a node and its children look like from its tree value. */
  lemma Peek<V>(n: Node?<V>, t: Tree<Node<V>, V>)
    requires Stores(n, t)
    ensures (n == null <==> t.Leaf?) && (n != null ==> n in Ids(t)) && IsRedAt(n) == IsRed(t)
    ensures n != null ==> IsRedAt(n.left) == IsRed(t.left) && IsRedAt(n.right) == IsRed(t.right)
    ensures n != null ==> (n.left == null <==> t.left.Leaf?) && (n.right == null <==> t.right.Leaf?)
  {
  }

  /** Names the nodes of a tree, all of which exist already, so that later frames can refer to them. */
  lemma Footprint<V>(t: Tree<Node<V>, V>) returns (nodes: set<Node<V>>)
    ensures nodes == Ids(t)
  {
    nodes := Ids(t);
  }

  /** Hangs another subtree below n. */
  method SetRightAt<V>(n: Node<V>, r: Node?<V>, ghost t: Tree<Node<V>, V>, ghost v: Tree<Node<V>, V>)
    requires t.Branch? && n == t.id && n.key == t.key && n.value == t.value && n.red == t.red
    requires Stores(n.left, t.left) && Stores(r, v) && n !in Ids(t.left) && n !in Ids(v)
    modifies n`right
    ensures Stores(n, t.(right := v)) && n.right == r
  {
    n.right := r;
    assert Stores(n.left, t.left) && Stores(n.right, v);
  }

  method SetLeftAt<V>(n: Node<V>, l: Node?<V>, ghost t: Tree<Node<V>, V>, ghost v: Tree<Node<V>, V>)
    requires t.Branch? && n == t.id && n.key == t.key && n.value == t.value && n.red == t.red
    requires Stores(n.right, t.right) && Stores(l, v) && n !in Ids(t.right) && n !in Ids(v)
    modifies n`left
    ensures Stores(n, t.(left := v)) && n.left == l
  {
    n.left := l;
    assert Stores(n.right, t.right) && Stores(n.left, v);
  }

  method RotateRightAt<V>(n: Node<V>, ghost t: Tree<Node<V>, V>)
    returns (x: Node<V>, ghost u: Tree<Node<V>, V>)
    requires Stores(n, t) && DistinctNodes(t) && RotateRight(t).Some?
    modifies Ids(t)
    ensures Some(u) == RotateRight(t) && Stores(x, u)
  {
    x := n.left;
    n.left := x.right;
    x.right := n;
    x.red := n.red;
    n.red := true;
    u := t.left.(red := t.red, right := t.(left := t.left.right, red := true));
  }

  method RotateLeftAt<V>(n: Node<V>, ghost t: Tree<Node<V>, V>)
    returns (x: Node<V>, ghost u: Tree<Node<V>, V>)
    requires Stores(n, t) && DistinctNodes(t) && RotateLeft(t).Some?
    modifies Ids(t)
    ensures Some(u) == RotateLeft(t) && Stores(x, u)
  {
    x := n.right;
    n.right := x.left;
    x.left := n;
    x.red := n.red;
    n.red := true;
    u := t.right.(red := t.red, left := t.(right := t.right.left, red := true));
  }

  method FlipColorsAt<V>(n: Node<V>, ghost t: Tree<Node<V>, V>)
    returns (ghost u: Tree<Node<V>, V>)
    requires Stores(n, t) && DistinctNodes(t) && FlipColors(t).Some?
    modifies Ids(t)
    ensures Some(u) == FlipColors(t) && Stores(n, u)
  {
    n.red := !n.red;
    n.left.red := !n.left.red;
    n.right.red := !n.right.red;
    u := t.(red := !t.red,
            left := t.left.(red := !t.left.red),
            right := t.right.(red := !t.right.red));
  }

  method MoveRedLeftAt<V>(n: Node<V>, ghost t: Tree<Node<V>, V>)
    returns (m: Node<V>, ghost u: Tree<Node<V>, V>)
    requires Stores(n, t) && DistinctNodes(t) && MoveRedLeft(t).Some?
    modifies Ids(t)
    ensures Some(u) == MoveRedLeft(t) && Stores(m, u)
  {
    m := n;
    u := FlipColorsAt(n, t);
    FlipKeeps(t);
    Peek(n.right, u.right);
    if IsRedAt(n.right.left) {
      RotateRightKeeps(u.right);
      var r;
      ghost var v;
      var nodes := Footprint(u.left);
      r, v := RotateRightAt(n.right, u.right);
      n.right := r;
      ChildKeeps(u, u.left, v, u.red);
      u := u.(right := v);
      RotateLeftKeeps(u);
      m, u := RotateLeftAt(n, u);
      u := FlipColorsAt(m, u);
    }
  }

  method MoveRedRightAt<V>(n: Node<V>, ghost t: Tree<Node<V>, V>)
    returns (m: Node<V>, ghost u: Tree<Node<V>, V>)
    requires Stores(n, t) && DistinctNodes(t) && MoveRedRight(t).Some?
    modifies Ids(t)
    ensures Some(u) == MoveRedRight(t) && Stores(m, u)
  {
    m := n;
    u := FlipColorsAt(n, t);
    FlipKeeps(t);
    Peek(n.left, u.left);
    if IsRedAt(n.left.left) {
      RotateRightKeeps(u);
      m, u := RotateRightAt(n, u);
      u := FlipColorsAt(m, u);
    }
  }

  method BalanceAt<V>(n: Node<V>, ghost t: Tree<Node<V>, V>)
    returns (m: Node<V>, ghost u: Tree<Node<V>, V>)
    requires Stores(n, t) && DistinctNodes(t)
    modifies Ids(t)
    ensures Some(u) == Balance(t) && Stores(m, u)
  {
    m, u := n, t;
    Peek(m, u);
    if IsRedAt(m.right) && !IsRedAt(m.left) {
      RotateLeftKeeps(u);
      m, u := RotateLeftAt(m, u);
    }
    Peek(m, u);
    Peek(m.left, u.left);
    if IsRedAt(m.left) && IsRedAt(m.left.left) {
      RotateRightKeeps(u);
      m, u := RotateRightAt(m, u);
    }
    Peek(m, u);
    if IsRedAt(m.left) && IsRedAt(m.right) {
      u := FlipColorsAt(m, u);
    }
  }

  method MinAt<V>(n: Node?<V>, ghost t: Tree<Node<V>, V>) returns (m: Node?<V>)
    requires Stores(n, t)
    ensures Stores(m, MinNode(t))
    decreases t
  {
    if n == null {
      return null;
    }
    if n.left == null {
      return n;
    }
    m := MinAt(n.left, t.left);
  }

  method MaxAt<V>(n: Node?<V>, ghost t: Tree<Node<V>, V>) returns (m: Node?<V>)
    requires Stores(n, t)
    ensures Stores(m, MaxNode(t))
    decreases t
  {
    if n == null {
      return null;
    }
    if n.right == null {
      return n;
    }
    m := MaxAt(n.right, t.right);
  }

  method NextAt<V>(n: Node?<V>, key: int, ghost t: Tree<Node<V>, V>) returns (m: Node?<V>)
    requires Stores(n, t)
    ensures Stores(m, NextNode(t, key))
    decreases t
  {
    if n == null {
      return null;
    }
    if n.key == key {
      m := MinAt(n.right, t.right);
      return;
    }
    if n.key < key {
      m := NextAt(n.right, key, t.right);
      return;
    }
    var nodes := Footprint(t);
    m := NextAt(n.left, key, t.left);
    Peek(m, NextNode(t.left, key));
    if m == null {
      return n;
    }
  }

  method PrevAt<V>(n: Node?<V>, key: int, ghost t: Tree<Node<V>, V>) returns (m: Node?<V>)
    requires Stores(n, t)
    ensures Stores(m, PrevNode(t, key))
    decreases t
  {
    if n == null {
      return null;
    }
    if n.key == key {
      m := MaxAt(n.left, t.left);
      return;
    }
    if n.key > key {
      m := PrevAt(n.left, key, t.left);
      return;
    }
    var nodes := Footprint(t);
    m := PrevAt(n.right, key, t.right);
    Peek(m, PrevNode(t.right, key));
    if m == null {
      return n;
    }
  }

  class RBTree<V> {
    const zero: V
    var root: Node?<V>
    var pool: seq<Node<V>>
    ghost var tree: Tree<Node<V>, V>

    /** The nodes on the free list are blank and pairwise distinct. */
    ghost predicate PoolValid()
      reads this, pool
    {
      && (forall i :: 0 <= i < |pool| ==> pool[i].Blank(zero))
      && Distinct(pool)
    }

    ghost predicate Valid()
      reads this, pool, Ids(tree)
    {
      Holds(root, tree) && RBTreeSpec.Valid(tree)
    }

    /** All nodes owned: linked or on the free list. */
    ghost function Nodes(): set<Node<V>>
      reads this
    {
      Ids(tree) + Elements(pool)
    }

    ghost function Contents(): map<int, V>
      reads this
    {
      Model(tree)
    }

    constructor (zero: V)
      ensures Valid() && Contents() == map[]
      ensures root == null && pool == []
    {
      this.zero := zero;
      root, pool, tree := null, [], Leaf;
    }

    method Free(n: Node<V>)
      requires PoolValid() && n !in pool
      modifies this`pool, n
      ensures PoolValid() && pool == old(pool) + [n]
    {
      n.key, n.value, n.left, n.right, n.red := 0, zero, null, null, false;
      pool := pool + [n];
    }

    method Alloc() returns (n: Node<V>)
      requires PoolValid()
      modifies this`pool
      ensures PoolValid() && n.Blank(zero) && n !in pool
      ensures if old(pool) != [] then n == old(pool)[|old(pool)| - 1] && pool == old(pool)[..|old(pool)| - 1]
              else fresh(n) && pool == []
    {
      if |pool| > 0 {
        n := pool[|pool| - 1];
        pool := pool[..|pool| - 1];
        return;
      }
      n := new Node(zero);
    }

    method Get(key: int) returns (value: V, ok: bool)
      requires Valid()
      ensures Valid()
      ensures ok <==> key in Contents()
      ensures value == if ok then Contents()[key] else zero
    {
      var n := root;
      ghost var t := tree;
      while n != null
        invariant Stores(n, t) && Ordered(t)
        invariant key in Model(t) <==> key in Contents()
        invariant key in Model(t) ==> Model(t)[key] == Contents()[key]
        decreases t
      {
        if key > n.key {
          n, t := n.right, t.right;
        } else if key < n.key {
          n, t := n.left, t.left;
        } else {
          return n.value, true;
        }
      }
      return zero, false;
    }

    ghost predicate PoolApart(t: Tree<Node<V>, V>)
      reads this
    {
      forall i :: 0 <= i < |pool| ==> pool[i] !in Ids(t)
    }

    /** The nodes of t hold it, and the free list is sound and elsewhere. */
    ghost predicate Holds(n: Node?<V>, t: Tree<Node<V>, V>)
      reads this, pool, Ids(t)
    {
      Stores(n, t) && DistinctNodes(t) && PoolValid() && PoolApart(t)
    }

    method Rebalanced(n: Node<V>, ghost t: Tree<Node<V>, V>)
      returns (m: Node<V>, ghost u: Tree<Node<V>, V>)
      requires Holds(n, t)
      modifies Ids(t)
      ensures Some(u) == Balance(t) && Holds(m, u) && Ids(u) == Ids(t)
    {
      hide Balance;
      BalanceKeeps(t);
      m, u := BalanceAt(n, t);
    }

    method ReadyLeftAt(n: Node<V>, ghost t: Tree<Node<V>, V>)
      returns (m: Node<V>, ghost u: Tree<Node<V>, V>)
      requires Holds(n, t) && ReadyLeft(t).Some?
      modifies Ids(t)
      ensures Some(u) == ReadyLeft(t) && Holds(m, u) && Ids(u) == Ids(t)
    {
      hide MoveRedLeft;
      m, u := n, t;
      Peek(n, t);
      Peek(n.left, t.left);
      ReadyKeeps(t);
      if !IsRedAt(n.left) && !IsRedAt(n.left.left) {
        m, u := MoveRedLeftAt(n, t);
      }
    }

    method LeanRightAt(n: Node<V>, ghost t: Tree<Node<V>, V>)
      returns (m: Node<V>, ghost u: Tree<Node<V>, V>)
      requires Holds(n, t)
      modifies Ids(t)
      ensures Some(u) == LeanRight(t) && Holds(m, u) && Ids(u) == Ids(t)
    {
      m, u := n, t;
      Peek(n, t);
      ReadyKeeps(t);
      if IsRedAt(n.left) {
        m, u := RotateRightAt(n, t);
      }
    }

    method ReadyRightAt(n: Node<V>, ghost t: Tree<Node<V>, V>)
      returns (m: Node<V>, ghost u: Tree<Node<V>, V>)
      requires Holds(n, t) && ReadyRight(t).Some?
      modifies Ids(t)
      ensures Some(u) == ReadyRight(t) && Holds(m, u) && Ids(u) == Ids(t)
    {
      hide MoveRedRight;
      m, u := n, t;
      Peek(n, t);
      Peek(n.right, t.right);
      ReadyKeeps(t);
      if !IsRedAt(n.right) && !IsRedAt(n.right.left) {
        m, u := MoveRedRightAt(n, t);
      }
    }

    /** How put leaves the free list: shorter by its last node, which now holds the key, if the key was new. */
    twostate predicate Took(isNew: bool, new spare: Node<V>)
      reads this
    {
      if !isNew then pool == old(pool)
      else if old(pool) != [] then
        spare == old(pool)[|old(pool)| - 1] && pool == old(pool)[..|old(pool)| - 1]
      else fresh(spare) && pool == []
    }

    method PutAt(n: Node?<V>, key: int, value: V, ghost t: Tree<Node<V>, V>)
      returns (m: Node<V>, ghost u: Tree<Node<V>, V>, ghost spare: Node<V>)
      requires Holds(n, t) && Ordered(t)
      modifies this`pool, pool, Ids(t)
      ensures Some(u) == Put(t, key, value, spare) && Holds(m, u)
      ensures key in Model(t) || spare !in Ids(t)
      ensures Took(key !in Model(t), spare)
      decreases t, 1
    {
      if n == null {
        m := Alloc();
        m.key, m.value, m.red := key, value, true;
        u, spare := Branch(m, Leaf, key, value, true, Leaf), m;
        return;
      }
      spare := n;
      if key > n.key {
        u, spare := PutRight(n, key, value, t);
      } else if key < n.key {
        u, spare := PutLeft(n, key, value, t);
      } else {
        n.value := value;
        u := t.(value := value);
        assert Stores(n, u) && DistinctNodes(u);
      }
      m, u := Rebalanced(n, u);
    }

    method PutRight(n: Node<V>, key: int, value: V, ghost t: Tree<Node<V>, V>)
      returns (ghost u: Tree<Node<V>, V>, ghost spare: Node<V>)
      requires Holds(n, t) && Ordered(t) && n.key < key
      modifies this`pool, pool, Ids(t)
      ensures Put(t.right, key, value, spare).Some? && u == t.(right := Put(t.right, key, value, spare).value)
      ensures Holds(n, u)
      ensures forall o :: o in Ids(u) ==> o in Ids(t) || o in old(pool) || fresh(o)
      ensures key in Model(t) || spare !in Ids(t)
      ensures Took(key !in Model(t), spare)
      decreases t, 0
    {
      hide Put, Balance, Balanced;
      var nodes := Footprint(t);
      assert key in Model(t) <==> key in Model(t.right);
      var r;
      ghost var v;
      r, v, spare := PutAt(n.right, key, value, t.right);
      PutNodes(t.right, key, value, spare);
      u := t.(right := v);
      assert DistinctNodes(u) && PoolApart(u);
      SetRightAt(n, r, t, v);
      assert PoolValid();
    }

    method PutLeft(n: Node<V>, key: int, value: V, ghost t: Tree<Node<V>, V>)
      returns (ghost u: Tree<Node<V>, V>, ghost spare: Node<V>)
      requires Holds(n, t) && Ordered(t) && key < n.key
      modifies this`pool, pool, Ids(t)
      ensures Put(t.left, key, value, spare).Some? && u == t.(left := Put(t.left, key, value, spare).value)
      ensures Holds(n, u)
      ensures forall o :: o in Ids(u) ==> o in Ids(t) || o in old(pool) || fresh(o)
      ensures key in Model(t) || spare !in Ids(t)
      ensures Took(key !in Model(t), spare)
      decreases t, 0
    {
      hide Put, Balance, Balanced;
      var nodes := Footprint(t);
      assert key in Model(t) <==> key in Model(t.left);
      var l;
      ghost var v;
      l, v, spare := PutAt(n.left, key, value, t.left);
      PutNodes(t.left, key, value, spare);
      u := t.(left := v);
      assert DistinctNodes(u) && PoolApart(u);
      SetLeftAt(n, l, t, v);
      assert PoolValid();
    }

    /** How a deletion leaves the nodes: one of them moves from the tree to the end of the free list. */
    twostate predicate Gave(new t: Tree<Node<V>, V>, new u: Tree<Node<V>, V>, new freed: Node<V>)
      reads this
    {
      pool == old(pool) + [freed] && freed in Ids(t) && Ids(u) == Ids(t) - {freed}
    }

    method DeleteMinAt(n: Node<V>, ghost t: Tree<Node<V>, V>)
      returns (m: Node?<V>, ghost u: Tree<Node<V>, V>, ghost freed: Node<V>)
      requires Holds(n, t) && Ordered(t) && CanLend(t)
      modifies this`pool, Ids(t)
      ensures Some(Removal(u, freed)) == DeleteMin(t) && Holds(m, u)
      ensures Gave(t, u, freed)
      decreases Size(t), 1
    {
      hide Balance, MoveRedLeft, Balanced, LeftLeaning, BlackHeight, Prepared, Shrunk, Model, MinNode;
      DeleteMinColours(t);
      DeleteMinRemoves(t);
      Peek(n, t);
      if n.left == null {
        Free(n);
        m, u, freed := null, Leaf, n;
        return;
      }
      DescendLeft(t);
      ReadyKeeps(t);
      m, u := ReadyLeftAt(n, t);
      u, freed := DeleteMinLeft(m, u);
      m, u := Rebalanced(m, u);
    }

    /** n.left = T.deleteMin(n.left) */
    method DeleteMinLeft(n: Node<V>, ghost t: Tree<Node<V>, V>)
      returns (ghost u: Tree<Node<V>, V>, ghost freed: Node<V>)
      requires Holds(n, t) && Ordered(t) && CanLend(t.left)
      modifies this`pool, Ids(t)
      ensures DeleteMin(t.left).Some? && freed == DeleteMin(t.left).value.freed
      ensures u == t.(left := DeleteMin(t.left).value.tree) && Holds(n, u)
      ensures Gave(t, u, freed)
      decreases Size(t), 0
    {
      hide Balanced, LeftLeaning, BlackHeight, Model, Balance, Remove, DeleteMin, MinNode, Put;
      Peek(n, t);
      var nodes := Footprint(t);
      var l;
      ghost var v;
      l, v, freed := DeleteMinAt(n.left, t.left);
      n.left := l;
      u := t.(left := v);
    }

    /** n.left = T.delete(n.left, key) */
    method DeleteLeft(n: Node<V>, key: int, ghost t: Tree<Node<V>, V>)
      returns (ghost u: Tree<Node<V>, V>, ghost freed: Node<V>)
      requires Holds(n, t) && Ordered(t)
      requires CanDelete(t.left, key) && key in Model(t.left)
      modifies this`pool, Ids(t)
      ensures Remove(t.left, key).Some? && freed == Remove(t.left, key).value.freed
      ensures u == t.(left := Remove(t.left, key).value.tree) && Holds(n, u)
      ensures Gave(t, u, freed)
      decreases Size(t), 0
    {
      hide Balanced, LeftLeaning, BlackHeight, Model, Balance, Remove, DeleteMin, MinNode, Put;
      Peek(n, t);
      var nodes := Footprint(t);
      var l;
      ghost var v;
      l, v, freed := DeleteAt(n.left, key, t.left);
      n.left := l;
      u := t.(left := v);
    }

    /** n.right = T.delete(n.right, key) */
    method DeleteRight(n: Node<V>, key: int, ghost t: Tree<Node<V>, V>)
      returns (ghost u: Tree<Node<V>, V>, ghost freed: Node<V>)
      requires Holds(n, t) && Ordered(t)
      requires CanDelete(t.right, key) && key in Model(t.right)
      modifies this`pool, Ids(t)
      ensures Remove(t.right, key).Some? && freed == Remove(t.right, key).value.freed
      ensures u == t.(right := Remove(t.right, key).value.tree) && Holds(n, u)
      ensures Gave(t, u, freed)
      decreases Size(t), 0
    {
      hide Balanced, LeftLeaning, BlackHeight, Model, Balance, Remove, DeleteMin, MinNode, Put;
      Peek(n, t);
      var nodes := Footprint(t);
      var r;
      ghost var v;
      r, v, freed := DeleteAt(n.right, key, t.right);
      n.right := r;
      u := t.(right := v);
    }

    /** n.right = T.deleteMin(n.right) */
    method DeleteMinRight(n: Node<V>, ghost t: Tree<Node<V>, V>)
      returns (ghost u: Tree<Node<V>, V>, ghost freed: Node<V>)
      requires Holds(n, t)
      requires Ordered(t.right) && CanLend(t.right)
      modifies this`pool, Ids(t)
      ensures DeleteMin(t.right).Some? && freed == DeleteMin(t.right).value.freed
      ensures u == t.(right := DeleteMin(t.right).value.tree) && Holds(n, u)
      ensures Gave(t, u, freed)
      decreases Size(t), 0
    {
      hide Balanced, LeftLeaning, BlackHeight, Model, Balance, Remove, DeleteMin, MinNode, Put;
      Peek(n, t);
      var nodes := Footprint(t);
      var r;
      ghost var v;
      r, v, freed := DeleteMinAt(n.right, t.right);
      n.right := r;
      u := t.(right := v);
    }

    /** Copies the successor into n and removes it from the right subtree. */
    method DeleteRoot(n: Node<V>, ghost t: Tree<Node<V>, V>)
      returns (ghost u: Tree<Node<V>, V>, ghost freed: Node<V>)
      requires Holds(n, t) && Ordered(t)
      requires CanLend(t.right)
      modifies this`pool, Ids(t)
      ensures DeleteMin(t.right).Some? && freed == DeleteMin(t.right).value.freed
      ensures var x := MinNode(t.right);
        x.Branch? && u == t.(key := x.key, value := x.value, right := DeleteMin(t.right).value.tree)
      ensures Holds(n, u) && Gave(t, u, freed)
      decreases Size(t), 1
    {
      hide Balanced, LeftLeaning, BlackHeight, Model, Remove, Put, Balance;
      var nodes := Footprint(t);
      MinIsLeast(t.right);
      var x := MinAt(n.right, t.right);
      Peek(x, MinNode(t.right));
      n.key := x.key;
      n.value := x.value;
      u := t.(key := MinNode(t.right).key, value := MinNode(t.right).value);
      u, freed := DeleteMinRight(n, u);
    }

    method DeleteAt(n: Node<V>, key: int, ghost t: Tree<Node<V>, V>)
      returns (m: Node?<V>, ghost u: Tree<Node<V>, V>, ghost freed: Node<V>)
      requires Holds(n, t) && Ordered(t)
      requires CanDelete(t, key) && key in Model(t)
      modifies this`pool, Ids(t)
      ensures Some(Removal(u, freed)) == Remove(t, key) && Holds(m, u)
      ensures Gave(t, u, freed)
      decreases Size(t), 3
    {
      hide Balance, MoveRedLeft, MoveRedRight, Balanced, LeftLeaning, BlackHeight, Shrunk, MinNode, DeleteMin,
           Model, Ordered, CanLend, Prepared, RotateRight, ReadyLeft, ReadyRight;
      if key < n.key {
        m, u, freed := DeleteAtLeft(n, key, t);
      } else {
        ReadyKeeps(t);
        LeanRightColours(t, key);
        m, u := LeanRightAt(n, t);
        Peek(m, u);
        if key == m.key && m.right == null {
          DeleteAtBottom(t, u, key);
          freed := m;
          Free(m);
          return null, Leaf, freed;
        }
        AboveLean(t, u, key);
        m, u, freed := DeleteAtRight(m, key, t, u);
      }
    }

    /** delete for keys left of n. */
    method DeleteAtLeft(n: Node<V>, key: int, ghost t: Tree<Node<V>, V>)
      returns (m: Node<V>, ghost u: Tree<Node<V>, V>, ghost freed: Node<V>)
      requires Holds(n, t) && Ordered(t)
      requires CanDelete(t, key) && key in Model(t) && key < t.key
      modifies this`pool, Ids(t)
      ensures ReadyLeft(t).Some?
      ensures var w := ReadyLeft(t).value;
        && Remove(w.left, key).Some?
        && Some(Removal(u, freed)) ==
           Rebalance(w.(left := Remove(w.left, key).value.tree), Remove(w.left, key).value.freed)
      ensures Holds(m, u) && Gave(t, u, freed)
      decreases Size(t), 2
    {
      hide Balance, MoveRedLeft, Balanced, LeftLeaning, BlackHeight, Shrunk, DeleteMin, Remove;
      assert t.left.Branch?;
      DescendLeft(t);
      ReadyKeeps(t);
      BelowReady(t, key);
      m, u := ReadyLeftAt(n, t);
      u, freed := DeleteLeft(m, key, u);
      m, u := Rebalanced(m, u);
    }

    /** The rest of delete for keys not left of n, once n's left link is black. */
    method DeleteAtRight(n: Node<V>, key: int, ghost t: Tree<Node<V>, V>, ghost l: Tree<Node<V>, V>)
      returns (m: Node<V>, ghost u: Tree<Node<V>, V>, ghost freed: Node<V>)
      requires Holds(n, l) && Ordered(t)
      requires key in Model(t) && Rearranged(t, l) && Size(l) == Size(t)
      requires l.right.Branch? && l.key <= key && Prepared(t, l) && LeftLeaning(l.left) && LeftLeaning(l.right)
      requires if IsRed(l.right) then !l.red else l.red && CanLend(l)
      modifies this`pool, Ids(l)
      ensures ReadyRight(l).Some?
      ensures var w := ReadyRight(l).value;
        if key == w.key then
          var x := MinNode(w.right);
          && x.Branch? && DeleteMin(w.right).Some?
          && var d := DeleteMin(w.right).value;
             Some(Removal(u, freed)) ==
             Rebalance(w.(key := x.key, value := x.value, right := d.tree), d.freed)
        else
          && Remove(w.right, key).Some?
          && var d := Remove(w.right, key).value;
             Some(Removal(u, freed)) == Rebalance(w.(right := d.tree), d.freed)
      ensures Holds(m, u) && Gave(l, u, freed)
      decreases Size(t), 2
    {
      hide Balance, MoveRedLeft, MoveRedRight, Balanced, LeftLeaning, BlackHeight, Prepared, Shrunk, MinNode,
           DeleteMin, Remove, Model;
      ReadyRightColours(t, l, key);
      ReadyKeeps(l);
      m, u := ReadyRightAt(n, l);
      if key == m.key {
        u, freed := DeleteRoot(m, u);
      } else {
        AboveReady(t, u, key);
        u, freed := DeleteRight(m, key, u);
      }
      m, u := Rebalanced(m, u);
    }

    /** The root is m, painted black. */
    method Adopt(m: Node?<V>, ghost u: Tree<Node<V>, V>)
      requires Holds(m, u) && RBTreeSpec.Valid(Blacken(u))
      modifies this`root, this`tree, Ids(u)
      ensures Valid() && tree == Blacken(u) && Ids(tree) == Ids(u)
    {
      hide RBTreeSpec.Valid;
      Peek(m, u);
      root := m;
      tree := Blacken(u);
      if root != null {
        ChildKeeps(u, u.left, u.right, false);
        root.red := false;
      }
    }

    /** A red link for delete to borrow: the root turns red if both its children are black. */
    method Lend()
      requires Valid() && root != null
      modifies root
      ensures Holds(root, Borrow(tree)) && Ids(Borrow(tree)) == Ids(tree)
    {
      hide RBTreeSpec.Valid;
      Peek(root, tree);
      ChildKeeps(tree, tree.left, tree.right, true);
      if !IsRedAt(root.left) && !IsRedAt(root.right) {
        root.red := true;
      }
    }

    /** Set is map update; it allocates a node only when the key is new and the free list is empty. */
    method Set(key: int, value: V)
      requires Valid()
      modifies this, Nodes()
      ensures Valid() && Contents() == old(Contents())[key := value]
      ensures key in old(Contents()) || old(pool) != [] ==> Nodes() == old(Nodes())
      ensures key !in old(Contents()) && old(pool) == [] ==> exists n :: fresh(n) && Nodes() == old(Nodes()) + {n}
    {
      hide Put, Model, Ordered, RBTreeSpec.Valid;
      ghost var t := tree;
      ValidOrdered(t);
      var m;
      ghost var u, spare;
      m, u, spare := PutAt(root, key, value, t);
      SetCorrect(t, key, value, spare);
      PutNodes(t, key, value, spare);
      if |old(pool)| > 0 {
        ElementsOfLast(old(pool)[..|old(pool)| - 1], old(pool)[|old(pool)| - 1]);
        assert old(pool)[..|old(pool)| - 1] + [old(pool)[|old(pool)| - 1]] == old(pool);
      }
      Adopt(m, u);
    }

    /** Delete is map removal; the node it takes out of the tree goes to the free list. */
    method Delete(key: int)
      requires Valid()
      modifies this, Nodes()
      ensures Valid() && Contents() == old(Contents()) - {key}
      ensures Nodes() == old(Nodes())
    {
      hide Remove, Model, Ordered, RBTreeSpec.Valid, CanDelete, Borrow, Blacken, DistinctNodes, Stores;
      var nodes := Footprint(tree);
      var _, ok := Get(key);
      if !ok {
        return;
      }
      Peek(root, tree);
      ModelOfLeaf(tree, key);
      DeleteEntry(tree, key);
      DeleteCorrect(tree, key);
      ValidOrdered(tree);
      Lend();
      var m;
      ghost var u, freed;
      m, u, freed := DeleteAt(root, key, Borrow(tree));
      ElementsOfLast(old(pool), freed);
      Adopt(m, u);
    }

    method Min() returns (key: int, value: V, ok: bool)
      requires Valid()
      ensures Valid()
      ensures ok <==> Contents() != map[]
      ensures ok ==> key in Contents() && Contents()[key] == value && forall k :: k in Contents() ==> key <= k
      ensures !ok ==> key == 0 && value == zero
    {
      if tree.Branch? {
        MinIsLeast(tree);
      }
      var nodes := Footprint(tree);
      var m := MinAt(root, tree);
      Peek(m, MinNode(tree));
      if m == null {
        return 0, zero, false;
      }
      return m.key, m.value, true;
    }

    method Max() returns (key: int, value: V, ok: bool)
      requires Valid()
      ensures Valid()
      ensures ok <==> Contents() != map[]
      ensures ok ==> key in Contents() && Contents()[key] == value && forall k :: k in Contents() ==> k <= key
      ensures !ok ==> key == 0 && value == zero
    {
      if tree.Branch? {
        MaxIsGreatest(tree);
      }
      var nodes := Footprint(tree);
      var m := MaxAt(root, tree);
      Peek(m, MaxNode(tree));
      if m == null {
        return 0, zero, false;
      }
      return m.key, m.value, true;
    }

    /** The least binding above `after`, whether or not `after` itself is bound. */
    method Next(after: int) returns (key: int, value: V, ok: bool)
      requires Valid()
      ensures Valid()
      ensures ok <==> exists k :: k in Contents() && after < k
      ensures ok ==> key in Contents() && Contents()[key] == value && after < key
      ensures ok ==> forall k :: k in Contents() && after < k ==> key <= k
      ensures !ok ==> key == 0 && value == zero
    {
      var nodes := Footprint(tree);
      var m := NextAt(root, after, tree);
      Peek(m, NextNode(tree, after));
      NextIsSuccessor(tree, after);
      if m == null {
        return 0, zero, false;
      }
      assert m.key in Contents();
      return m.key, m.value, true;
    }

    /** The greatest binding below `before`. */
    method Prev(before: int) returns (key: int, value: V, ok: bool)
      requires Valid()
      ensures Valid()
      ensures ok <==> exists k :: k in Contents() && k < before
      ensures ok ==> key in Contents() && Contents()[key] == value && key < before
      ensures ok ==> forall k :: k in Contents() && k < before ==> k <= key
      ensures !ok ==> key == 0 && value == zero
    {
      var nodes := Footprint(tree);
      var m := PrevAt(root, before, tree);
      Peek(m, PrevNode(tree, before));
      PrevIsPredecessor(tree, before);
      if m == null {
        return 0, zero, false;
      }
      assert m.key in Contents();
      return m.key, m.value, true;
    }
  }
}
