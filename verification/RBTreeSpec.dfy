/**
 Value-level model of the left-leaning red-black tree in lib/util/rbtree/rbtree.go.

 A tree value carries, at every branch, the identity `id` of the node that stores it, so
 that one value describes both the shape of the heap and the contents of the map.
 Every operation that can panic or dereference nil in the source is `None` here on exactly
 those inputs; RBTreeSpec proves that valid trees never get there.
 */
module RBTreeSpec {
  import opened Collections

  datatype Tree<N, V> =
    | Leaf
    | Branch(id: N, left: Tree<N, V>, key: int, value: V, red: bool, right: Tree<N, V>)

  /** What a deletion leaves behind: the remaining tree and the node put on the free list. */
  datatype Removal<N, V> = Removal(tree: Tree<N, V>, freed: N)

  predicate IsRed<N, V>(t: Tree<N, V>) {
    t.Branch? && t.red
  }

  ghost function Ids<N, V>(t: Tree<N, V>): set<N> {
    match t
    case Leaf => {}
    case Branch(id, l, _, _, _, r) => Ids(l) + {id} + Ids(r)
  }

  /** No node is used twice. */
  ghost predicate DistinctNodes<N, V>(t: Tree<N, V>) {
    match t
    case Leaf => true
    case Branch(id, l, _, _, _, r) =>
      && DistinctNodes(l) && DistinctNodes(r)
      && id !in Ids(l) && id !in Ids(r) && Ids(l) !! Ids(r)
  }

  /** The finite map a tree stands for. */
  ghost function Model<N, V>(t: Tree<N, V>): map<int, V> {
    match t
    case Leaf => map[]
    case Branch(_, l, k, v, _, r) => Model(l)[k := v] + Model(r)
  }

  ghost predicate Ordered<N, V>(t: Tree<N, V>) {
    match t
    case Leaf => true
    case Branch(_, l, k, _, _, r) =>
      && Ordered(l) && Ordered(r)
      && (forall x :: x in Model(l) ==> x < k)
      && (forall x :: x in Model(r) ==> k < x)
  }

  /** Number of black links on the leftmost path. */
  ghost function BlackHeight<N, V>(t: Tree<N, V>): nat {
    match t
    case Leaf => 0
    case Branch(_, l, _, _, red, _) => BlackHeight(l) + (if red then 0 else 1)
  }

  /** Every path from the root to a leaf crosses the same number of black links. */
  ghost predicate Balanced<N, V>(t: Tree<N, V>) {
    match t
    case Leaf => true
    case Branch(_, l, _, _, _, r) => Balanced(l) && Balanced(r) && BlackHeight(l) == BlackHeight(r)
  }

  /** Red links lean left and no two of them are consecutive. */
  ghost predicate LeftLeaning<N, V>(t: Tree<N, V>) {
    match t
    case Leaf => true
    case Branch(_, l, _, _, red, r) =>
      LeftLeaning(l) && LeftLeaning(r) && !IsRed(r) && !(red && IsRed(l))
  }

  /** The invariant of a whole tree between operations. */
  ghost predicate Valid<N, V>(t: Tree<N, V>) {
    Ordered(t) && Balanced(t) && LeftLeaning(t) && !IsRed(t)
  }

  function Size<N, V>(t: Tree<N, V>): nat {
    match t
    case Leaf => 0
    case Branch(_, l, _, _, _, r) => Size(l) + 1 + Size(r)
  }

  lemma {:induction false} ValidOrdered<N, V>(t: Tree<N, V>)
    requires Valid(t)
    ensures Ordered(t)
  {
  }

  lemma {:induction false} ModelOfLeaf<N, V>(t: Tree<N, V>, key: int)
    requires key in Model(t)
    ensures t.Branch?
  {
  }

  // ---- local transformations -------------------------------------------------------------

  function RotateRight<N, V>(t: Tree<N, V>): (r: Option<Tree<N, V>>)
    ensures r.Some? ==> r.value.Branch? && Size(r.value) == Size(t)
  {
    if t.Leaf? || !IsRed(t.left) then None else
    var x := t.left;
    Some(x.(red := t.red, right := t.(left := x.right, red := true)))
  }

  function RotateLeft<N, V>(t: Tree<N, V>): (r: Option<Tree<N, V>>)
    ensures r.Some? ==> r.value.Branch? && Size(r.value) == Size(t)
  {
    if t.Leaf? || !IsRed(t.right) then None else
    var x := t.right;
    Some(x.(red := t.red, left := t.(right := x.left, red := true)))
  }

  function FlipColors<N, V>(t: Tree<N, V>): (r: Option<Tree<N, V>>)
    ensures r.Some? ==> r.value.Branch? && Size(r.value) == Size(t)
  {
    if t.Leaf? || t.left.Leaf? || t.right.Leaf? then None else
    Some(t.(red := !t.red,
            left := t.left.(red := !t.left.red),
            right := t.right.(red := !t.right.red)))
  }

  function MoveRedLeft<N, V>(t: Tree<N, V>): (r: Option<Tree<N, V>>)
    ensures r.Some? ==> r.value.Branch? && Size(r.value) == Size(t)
  {
    var n :- FlipColors(t);
    if !IsRed(n.right.left) then Some(n) else
    var r :- RotateRight(n.right);
    var m :- RotateLeft(n.(right := r));
    FlipColors(m)
  }

  function MoveRedRight<N, V>(t: Tree<N, V>): (r: Option<Tree<N, V>>)
    ensures r.Some? ==> r.value.Branch? && Size(r.value) == Size(t)
  {
    var n :- FlipColors(t);
    if !IsRed(n.left.left) then Some(n) else
    var m :- RotateRight(n);
    FlipColors(m)
  }

  function LeanLeft<N, V>(t: Tree<N, V>): (r: Option<Tree<N, V>>)
    requires t.Branch?
    ensures r.Some? ==> r.value.Branch? && Size(r.value) == Size(t)
  {
    if IsRed(t.right) && !IsRed(t.left) then RotateLeft(t) else Some(t)
  }

  function SplitReds<N, V>(t: Tree<N, V>): (r: Option<Tree<N, V>>)
    requires t.Branch?
    ensures r.Some? ==> r.value.Branch? && Size(r.value) == Size(t)
  {
    if IsRed(t.left) && IsRed(t.left.left) then RotateRight(t) else Some(t)
  }

  function LiftReds<N, V>(t: Tree<N, V>): (r: Option<Tree<N, V>>)
    requires t.Branch?
    ensures r.Some? ==> r.value.Branch? && Size(r.value) == Size(t)
  {
    if IsRed(t.left) && IsRed(t.right) then FlipColors(t) else Some(t)
  }

  function Balance<N, V>(t: Tree<N, V>): (r: Option<Tree<N, V>>)
    requires t.Branch?
    ensures r.Some? ==> r.value.Branch? && Size(r.value) == Size(t)
  {
    var a :- LeanLeft(t);
    var b :- SplitReds(a);
    LiftReds(b)
  }

  // ---- put, deleteMin, delete ------------------------------------------------------------

  /** `spare` is the node that alloc would hand out if the key is new. */
  function Put<N, V>(t: Tree<N, V>, key: int, value: V, spare: N): Option<Tree<N, V>>
    decreases t
  {
    if t.Leaf? then Some(Branch(spare, Leaf, key, value, true, Leaf))
    else if key > t.key then
      var r :- Put(t.right, key, value, spare);
      Balance(t.(right := r))
    else if key < t.key then
      var l :- Put(t.left, key, value, spare);
      Balance(t.(left := l))
    else
      Balance(t.(value := value))
  }

  /** The first half of going left: borrow a red link unless the left child can spare one. */
  function ReadyLeft<N, V>(t: Tree<N, V>): (r: Option<Tree<N, V>>)
    requires t.Branch?
    ensures r.Some? ==> r.value.Branch? && Size(r.value) == Size(t)
  {
    if IsRed(t.left) then Some(t)
    else if t.left.Leaf? then None
    else if IsRed(t.left.left) then Some(t)
    else MoveRedLeft(t)
  }

  function LeanRight<N, V>(t: Tree<N, V>): (r: Option<Tree<N, V>>)
    requires t.Branch?
    ensures r.Some? ==> r.value.Branch? && Size(r.value) == Size(t)
  {
    if IsRed(t.left) then RotateRight(t) else Some(t)
  }

  function ReadyRight<N, V>(t: Tree<N, V>): (r: Option<Tree<N, V>>)
    requires t.Branch?
    ensures r.Some? ==> r.value.Branch? && Size(r.value) == Size(t)
  {
    if IsRed(t.right) then Some(t)
    else if t.right.Leaf? then None
    else if IsRed(t.right.left) then Some(t)
    else MoveRedRight(t)
  }

  function Rebalance<N, V>(t: Tree<N, V>, freed: N): Option<Removal<N, V>>
    requires t.Branch?
  {
    var b :- Balance(t);
    Some(Removal(b, freed))
  }

  function DeleteMin<N, V>(t: Tree<N, V>): Option<Removal<N, V>>
    decreases Size(t)
  {
    if t.Leaf? then None
    else if t.left.Leaf? then Some(Removal(Leaf, t.id))
    else
      var n :- ReadyLeft(t);
      var d :- DeleteMin(n.left);
      Rebalance(n.(left := d.tree), d.freed)
  }

  function MinNode<N, V>(t: Tree<N, V>): Tree<N, V> {
    if t.Leaf? || t.left.Leaf? then t else MinNode(t.left)
  }

  function MaxNode<N, V>(t: Tree<N, V>): Tree<N, V> {
    if t.Leaf? || t.right.Leaf? then t else MaxNode(t.right)
  }

  function Remove<N, V>(t: Tree<N, V>, key: int): Option<Removal<N, V>>
    decreases Size(t)
  {
    if t.Leaf? then None
    else if key < t.key then
      var n :- ReadyLeft(t);
      var d :- Remove(n.left, key);
      Rebalance(n.(left := d.tree), d.freed)
    else
      var n :- LeanRight(t);
      if key == n.key && n.right.Leaf? then Some(Removal(Leaf, n.id))
      else
        var m :- ReadyRight(n);
        if key == m.key then
          var x := MinNode(m.right);
          if x.Leaf? then None else
          var d :- DeleteMin(m.right);
          Rebalance(m.(key := x.key, value := x.value, right := d.tree), d.freed)
        else
          var d :- Remove(m.right, key);
          Rebalance(m.(right := d.tree), d.freed)
  }

  /** The colour that Delete gives the root before descending. */
  function Borrow<N, V>(t: Tree<N, V>): Tree<N, V> {
    if t.Branch? && !IsRed(t.left) && !IsRed(t.right) then t.(red := true) else t
  }

  function Blacken<N, V>(t: Tree<N, V>): Tree<N, V> {
    if t.Leaf? then t else t.(red := false)
  }

  // ---- rearrangements keep the contents --------------------------------------------------

  /** b holds the nodes and the bindings of a, in the same order. */
  ghost predicate Rearranged<N, V>(a: Tree<N, V>, b: Tree<N, V>) {
    && Model(b) == Model(a) && Ids(b) == Ids(a)
    && (Ordered(a) ==> Ordered(b)) && (DistinctNodes(a) ==> DistinctNodes(b))
  }

  lemma {:induction false} RotateRightKeeps<N, V>(t: Tree<N, V>)
    ensures RotateRight(t).Some? ==> Rearranged(t, RotateRight(t).value)
  {
    if RotateRight(t).Some? {
      var x := t.left;
      var n := t.(left := x.right, red := true);
      var r := RotateRight(t).value;
      assert Model(x) == Model(x.left)[x.key := x.value] + Model(x.right);
      assert Model(n) == Model(x.right)[t.key := t.value] + Model(t.right);
      assert Model(t) == Model(r);
      assert x.key in Model(x) && t.key in Model(n);
      assert Ordered(t) ==> Ordered(x) && Ordered(n);
      assert DistinctNodes(t) ==> DistinctNodes(x) && DistinctNodes(n);
    }
  }

  lemma {:induction false} RotateLeftKeeps<N, V>(t: Tree<N, V>)
    ensures RotateLeft(t).Some? ==> Rearranged(t, RotateLeft(t).value)
  {
    if RotateLeft(t).Some? {
      var x := t.right;
      var n := t.(right := x.left, red := true);
      var r := RotateLeft(t).value;
      assert Model(x) == Model(x.left)[x.key := x.value] + Model(x.right);
      assert Model(n) == Model(t.left)[t.key := t.value] + Model(x.left);
      assert Model(t) == Model(r);
      assert x.key in Model(x) && t.key in Model(n);
      assert Ordered(t) ==> Ordered(x) && Ordered(n);
      assert DistinctNodes(t) ==> DistinctNodes(x) && DistinctNodes(n);
    }
  }

  lemma {:induction false} ChildKeeps<N, V>(t: Tree<N, V>, l: Tree<N, V>, r: Tree<N, V>, red: bool)
    requires t.Branch? && Rearranged(t.left, l) && Rearranged(t.right, r)
    ensures Rearranged(t, t.(left := l, right := r, red := red))
  {
  }

  lemma {:induction false} FlipKeeps<N, V>(t: Tree<N, V>)
    ensures FlipColors(t).Some? ==> Rearranged(t, FlipColors(t).value)
  {
    if FlipColors(t).Some? {
      ChildKeeps(t.left, t.left.left, t.left.right, !t.left.red);
      ChildKeeps(t.right, t.right.left, t.right.right, !t.right.red);
      var f := FlipColors(t).value;
      ChildKeeps(t, f.left, f.right, f.red);
    }
  }

  lemma {:induction false} MoveKeeps<N, V>(t: Tree<N, V>)
    ensures MoveRedLeft(t).Some? ==> Rearranged(t, MoveRedLeft(t).value)
    ensures MoveRedRight(t).Some? ==> Rearranged(t, MoveRedRight(t).value)
  {
    FlipKeeps(t);
    if FlipColors(t).Some? {
      var n := FlipColors(t).value;
      RotateRightKeeps(n);
      if RotateRight(n).Some? {
        FlipKeeps(RotateRight(n).value);
      }
      if RotateRight(n.right).Some? {
        RotateRightKeeps(n.right);
        var m := n.(right := RotateRight(n.right).value);
        ChildKeeps(n, n.left, m.right, n.red);
        RotateLeftKeeps(m);
        if RotateLeft(m).Some? {
          FlipKeeps(RotateLeft(m).value);
        }
      }
    }
  }

  lemma {:induction false} BalanceKeeps<N, V>(t: Tree<N, V>)
    requires t.Branch?
    ensures Balance(t).Some? && Rearranged(t, Balance(t).value)
  {
    RotateLeftKeeps(t);
    var a := LeanLeft(t).value;
    RotateRightKeeps(a);
    FlipKeeps(SplitReds(a).value);
  }

  // ---- Put: map update that keeps the red-black invariants -------------------------------

  /** Replacing a subtree by one that stays on its side of the root keeps the order. */
  lemma {:induction false} Graft<N, V>(t: Tree<N, V>, l: Tree<N, V>, r: Tree<N, V>)
    requires Ordered(t) && t.Branch? && Ordered(l) && Ordered(r)
    requires forall x :: x in Model(l) ==> x < t.key
    requires forall x :: x in Model(r) ==> t.key < x
    ensures Ordered(t.(left := l, right := r))
    ensures Model(t.(left := l, right := r)) == Model(l)[t.key := t.value] + Model(r)
  {
  }

  lemma UpdateBelow<V>(a: map<int, V>, k: int, v: V, b: map<int, V>, key: int, value: V)
    ensures a[k := v] + b[key := value] == (a[k := v] + b)[key := value]
    ensures key != k && key !in b ==> a[key := value][k := v] + b == (a[k := v] + b)[key := value]
    ensures k !in b ==> a[k := value] + b == (a[k := v] + b)[k := value]
  {
  }

  lemma {:induction false} PutUpdates<N, V>(t: Tree<N, V>, key: int, value: V, spare: N)
    requires Ordered(t)
    ensures Put(t, key, value, spare).Some?
    ensures var p := Put(t, key, value, spare).value;
      && p.Branch? && Ordered(p) && Model(p) == Model(t)[key := value]
  {
    if t.Branch? {
      UpdateBelow(Model(t.left), t.key, t.value, Model(t.right), key, value);
      if key > t.key {
        PutUpdates(t.right, key, value, spare);
        var r := Put(t.right, key, value, spare).value;
        Graft(t, t.left, r);
        BalanceKeeps(t.(right := r));
      } else if key < t.key {
        PutUpdates(t.left, key, value, spare);
        var l := Put(t.left, key, value, spare).value;
        Graft(t, l, t.right);
        BalanceKeeps(t.(left := l));
      } else {
        Graft(t.(value := value), t.left, t.right);
        BalanceKeeps(t.(value := value));
      }
    }
  }

  /** Put reuses the nodes of t and takes the spare node exactly when the key is new. */
  lemma {:induction false} PutNodes<N, V>(t: Tree<N, V>, key: int, value: V, spare: N)
    requires Ordered(t) && DistinctNodes(t) && (key in Model(t) || spare !in Ids(t))
    requires Put(t, key, value, spare).Some?
    ensures var p := Put(t, key, value, spare).value;
      && DistinctNodes(p) && Ids(p) == if key in Model(t) then Ids(t) else Ids(t) + {spare}
  {
    if t.Branch? {
      if key > t.key {
        PutNodes(t.right, key, value, spare);
        BalanceKeeps(t.(right := Put(t.right, key, value, spare).value));
      } else if key < t.key {
        PutNodes(t.left, key, value, spare);
        BalanceKeeps(t.(left := Put(t.left, key, value, spare).value));
      } else {
        BalanceKeeps(t.(value := value));
      }
    }
  }

  /** One step of unfolding of the colour invariants. */
  lemma {:induction false} Colours<N, V>(t: Tree<N, V>)
    requires t.Branch?
    ensures Balanced(t) <==> Balanced(t.left) && Balanced(t.right) && BlackHeight(t.left) == BlackHeight(t.right)
    ensures BlackHeight(t) == BlackHeight(t.left) + (if t.red then 0 else 1)
    ensures LeftLeaning(t) <==>
            LeftLeaning(t.left) && LeftLeaning(t.right) && !IsRed(t.right) && !(t.red && IsRed(t.left))
  {
  }

  /** Both children are sound and the right link is black; the root may be half of a double red. */
  ghost predicate AlmostLeaning<N, V>(t: Tree<N, V>) {
    t.Branch? && LeftLeaning(t.left) && LeftLeaning(t.right) && !IsRed(t.right)
  }

  lemma {:induction false} PutBalanced<N, V>(t: Tree<N, V>, key: int, value: V, spare: N)
    requires Balanced(t) && LeftLeaning(t)
    requires Put(t, key, value, spare).Some?
    ensures var p := Put(t, key, value, spare).value;
      && Balanced(p) && BlackHeight(p) == BlackHeight(t)
      && AlmostLeaning(p) && (!IsRed(t) ==> LeftLeaning(p))
  {
    if t.Branch? {
      if key > t.key {
        PutBalanced(t.right, key, value, spare);
      } else if key < t.key {
        PutBalanced(t.left, key, value, spare);
      }
    }
  }

  /** Set: map update on valid trees, and the result is valid again. */
  lemma {:induction false} SetCorrect<N, V>(t: Tree<N, V>, key: int, value: V, spare: N)
    requires Valid(t)
    ensures Put(t, key, value, spare).Some?
    ensures var s := Blacken(Put(t, key, value, spare).value);
      && Valid(s) && s.Branch? && Model(s) == Model(t)[key := value]
      && (DistinctNodes(t) && (key in Model(t) || spare !in Ids(t)) ==>
            DistinctNodes(s) && Ids(s) == if key in Model(t) then Ids(t) else Ids(t) + {spare})
  {
    PutUpdates(t, key, value, spare);
    PutBalanced(t, key, value, spare);
    if DistinctNodes(t) && (key in Model(t) || spare !in Ids(t)) {
      PutNodes(t, key, value, spare);
    }
  }

  // ---- Delete: map removal that keeps the red-black invariants ---------------------------

  /** The colours under which deleteMin may be entered. */
  ghost predicate CanLend<N, V>(t: Tree<N, V>) {
    t.Branch? && Balanced(t) && LeftLeaning(t) && (t.red || IsRed(t.left))
  }

  /**
   The colours under which delete may be entered for a key: those of deleteMin or, for keys
   not left of the root, a black root whose only red link leans right (left by moveRedRight).
   */
  ghost predicate CanDelete<N, V>(t: Tree<N, V>, key: int) {
    CanLend(t) || LeansRight(t, key)
  }

  ghost predicate LeansRight<N, V>(t: Tree<N, V>, key: int) {
    && t.Branch? && Balanced(t) && LeftLeaning(t.left) && LeftLeaning(t.right)
    && !t.red && !IsRed(t.left) && IsRed(t.right) && key >= t.key
  }

  /** What deletion promises about colours: sound, same height, and no new red root. */
  ghost predicate Shrunk<N, V>(t: Tree<N, V>, d: Tree<N, V>) {
    && Balanced(d) && LeftLeaning(d) && BlackHeight(d) == BlackHeight(t)
    && (IsRed(d) ==> IsRed(t))
  }

  /**
   n is t made ready for a descent: same height, both children still sound where it matters, and
   a red root or two red children only where t had a red root to pay for them.
   */
  ghost predicate Prepared<N, V>(t: Tree<N, V>, n: Tree<N, V>) {
    && n.Branch? && Balanced(n) && BlackHeight(n) == BlackHeight(t)
    && (n.red ==> IsRed(t) && !IsRed(n.left) && !IsRed(n.right))
    && (IsRed(n.left) && IsRed(n.right) ==> IsRed(t))
  }

  /** On the way back up, Balance repairs a prepared node whatever the children have become. */
  lemma {:induction false} Repair<N, V>(t: Tree<N, V>, n: Tree<N, V>, m: Tree<N, V>)
    requires Prepared(t, n) && m.Branch? && m.red == n.red
    requires Shrunk(n.left, m.left) && Shrunk(n.right, m.right)
    ensures Balance(m).Some? && Shrunk(t, Balance(m).value)
  {
    Colours(n);
    Colours(m);
    if m.right.Branch? {
      Colours(m.right);
    }
    if m.left.Branch? {
      Colours(m.left);
    }
    var b := Balance(m).value;
    Colours(b);
    if b.left.Branch? {
      Colours(b.left);
    }
    if b.right.Branch? {
      Colours(b.right);
    }
  }

  /** moveRedLeft on a red node with black children makes its left subtree able to lend. */
  lemma {:induction false} MoveRedLeftColours<N, V>(t: Tree<N, V>)
    requires CanLend(t) && t.left.Branch? && !IsRed(t.left) && !IsRed(t.left.left)
    ensures MoveRedLeft(t).Some? && Prepared(t, MoveRedLeft(t).value)
    ensures CanLend(MoveRedLeft(t).value.left) && LeftLeaning(MoveRedLeft(t).value.right)
  {
    Colours(t);
    Colours(t.left);
    Colours(t.right);
    if t.right.left.Branch? {
      Colours(t.right.left);
    }
    var m := MoveRedLeft(t).value;
    Colours(m.left);
    Colours(m.right);
    Colours(m);
  }

  lemma {:induction false} DescendLeft<N, V>(t: Tree<N, V>)
    requires CanLend(t) && t.left.Branch?
    ensures ReadyLeft(t).Some? && Prepared(t, ReadyLeft(t).value)
    ensures CanLend(ReadyLeft(t).value.left) && LeftLeaning(ReadyLeft(t).value.right)
  {
    Colours(t);
    Colours(t.left);
    if !IsRed(t.left) && !IsRed(t.left.left) {
      MoveRedLeftColours(t);
    }
  }

  lemma {:induction false} DeleteMinColours<N, V>(t: Tree<N, V>)
    requires CanLend(t)
    ensures DeleteMin(t).Some? && Shrunk(t, DeleteMin(t).value.tree)
    decreases Size(t)
  {
    Colours(t);
    if t.left.Branch? {
      DescendLeft(t);
      var n := ReadyLeft(t).value;
      DeleteMinColours(n.left);
      Colours(n);
      Repair(t, n, n.(left := DeleteMin(n.left).value.tree));
    }
  }

  /** moveRedRight on a red node with black children makes its right subtree able to lend. */
  lemma {:induction false} MoveRedRightColours<N, V>(t: Tree<N, V>, key: int)
    requires CanLend(t) && t.left.Branch? && t.right.Branch? && !IsRed(t.left) && !IsRed(t.right.left)
    requires key >= t.key
    ensures MoveRedRight(t).Some? && Prepared(t, MoveRedRight(t).value)
    ensures var m := MoveRedRight(t).value;
      && LeftLeaning(m.left)
      && if IsRed(t.left.left) then m.key == t.left.key && LeansRight(m.right, key)
         else m.key == t.key && CanLend(m.right)
  {
    Colours(t);
    Colours(t.left);
    Colours(t.right);
    if t.left.left.Branch? {
      Colours(t.left.left);
    }
    var m := MoveRedRight(t).value;
    Colours(m.left);
    Colours(m.right);
    Colours(m);
  }

  lemma {:induction false} ReadyKeeps<N, V>(t: Tree<N, V>)
    requires t.Branch?
    ensures ReadyLeft(t).Some? ==> Rearranged(t, ReadyLeft(t).value)
    ensures LeanRight(t).Some? ==> Rearranged(t, LeanRight(t).value)
    ensures ReadyRight(t).Some? ==> Rearranged(t, ReadyRight(t).value)
  {
    MoveKeeps(t);
    RotateRightKeeps(t);
  }

  /** d is t without `key`, on t's nodes without the freed one. */
  ghost predicate Removes<N, V>(t: Tree<N, V>, d: Removal<N, V>, key: int) {
    && Ordered(d.tree) && Model(d.tree) == Model(t) - {key}
    && d.freed in Ids(t)
    && (DistinctNodes(t) ==> DistinctNodes(d.tree) && Ids(d.tree) == Ids(t) - {d.freed})
  }

  lemma {:induction false} RemovesRearranged<N, V>(t: Tree<N, V>, n: Tree<N, V>, d: Removal<N, V>, key: int, m: Tree<N, V>)
    requires Rearranged(t, n) && Removes(n, Removal(m, d.freed), key) && Rearranged(m, d.tree)
    ensures Removes(t, d, key)
  {
  }

  lemma RemoveFromUnion<V>(a: map<int, V>, k: int, v: V, b: map<int, V>, key: int)
    requires key != k
    ensures key !in b ==> (a - {key})[k := v] + b == (a[k := v] + b) - {key}
    ensures key !in a ==> a[k := v] + (b - {key}) == (a[k := v] + b) - {key}
  {
  }

  lemma ReplaceRoot<V>(a: map<int, V>, k: int, v: V, b: map<int, V>, x: int)
    requires k !in a && k !in b && x !in a && x in b
    ensures a[x := b[x]] + (b - {x}) == (a[k := v] + b) - {k}
  {
  }

  lemma {:induction false} RemovesLeft<N, V>(n: Tree<N, V>, d: Removal<N, V>, key: int)
    requires n.Branch? && Ordered(n) && key < n.key && Removes(n.left, d, key)
    ensures Removes(n, Removal(n.(left := d.tree), d.freed), key)
  {
    Graft(n, d.tree, n.right);
    RemoveFromUnion(Model(n.left), n.key, n.value, Model(n.right), key);
  }

  lemma {:induction false} RemovesRight<N, V>(n: Tree<N, V>, d: Removal<N, V>, key: int)
    requires n.Branch? && Ordered(n) && n.key < key && Removes(n.right, d, key)
    ensures Removes(n, Removal(n.(right := d.tree), d.freed), key)
  {
    Graft(n, n.left, d.tree);
    RemoveFromUnion(Model(n.left), n.key, n.value, Model(n.right), key);
  }

  /** Overwriting the root with its successor and removing the successor removes the root's key. */
  lemma {:induction false} RemovesRoot<N, V>(n: Tree<N, V>, d: Removal<N, V>, x: int)
    requires n.Branch? && Ordered(n) && x in Model(n.right) && Removes(n.right, d, x)
    requires forall y :: y in Model(n.right) ==> x <= y
    ensures var m := n.(key := x, value := Model(n.right)[x], right := d.tree);
      Removes(n, Removal(m, d.freed), n.key)
  {
    var v := Model(n.right)[x];
    var m := n.(key := x, value := v, right := d.tree);
    Graft(m.(left := Leaf, right := Leaf), n.left, d.tree);
    ReplaceRoot(Model(n.left), n.key, n.value, Model(n.right), x);
  }

  /** min finds the least key. */
  lemma {:induction false} MinIsLeast<N, V>(t: Tree<N, V>)
    requires Ordered(t) && t.Branch?
    ensures var m := MinNode(t);
      && m.Branch? && m.key in Model(t) && Model(t)[m.key] == m.value
      && forall x :: x in Model(t) ==> m.key <= x
  {
    if t.left.Branch? {
      MinIsLeast(t.left);
    }
  }

  lemma {:induction false} MaxIsGreatest<N, V>(t: Tree<N, V>)
    requires Ordered(t) && t.Branch?
    ensures var m := MaxNode(t);
      && m.Branch? && m.key in Model(t) && Model(t)[m.key] == m.value
      && forall x :: x in Model(t) ==> x <= m.key
  {
    if t.right.Branch? {
      MaxIsGreatest(t.right);
    }
  }

  lemma {:induction false} DeleteMinRemoves<N, V>(t: Tree<N, V>)
    requires CanLend(t) && Ordered(t) && DeleteMin(t).Some?
    ensures MinNode(t).Branch? && Removes(t, DeleteMin(t).value, MinNode(t).key)
    decreases Size(t)
  {
    Colours(t);
    MinIsLeast(t);
    if t.left.Leaf? {
      assert Model(t) - {t.key} == map[];
    } else {
      DescendLeft(t);
      ReadyKeeps(t);
      var n := ReadyLeft(t).value;
      MinIsLeast(n);
      MinIsLeast(n.left);
      assert MinNode(n.left).key == MinNode(t).key;
      var d := DeleteMin(n.left).value;
      DeleteMinRemoves(n.left);
      RemovesLeft(n, d, MinNode(n.left).key);
      BalanceKeeps(n.(left := d.tree));
      RemovesRearranged(t, n, DeleteMin(t).value, MinNode(t).key, n.(left := d.tree));
    }
  }

  /** The node from which delete goes right, or which it removes. */
  lemma {:induction false} LeanRightColours<N, V>(t: Tree<N, V>, key: int)
    requires CanDelete(t, key) && t.key <= key && Ordered(t)
    ensures LeanRight(t).Some?
    ensures var n := LeanRight(t).value;
      && n.key <= key && Prepared(t, n) && LeftLeaning(n.left) && LeftLeaning(n.right)
      && if IsRed(n.right) then !n.red else n.red && CanLend(n)
  {
    Colours(t);
    var n := LeanRight(t).value;
    if IsRed(t.left) {
      Colours(t.left);
      assert t.left.key in Model(t.left);
      Colours(n.right);
      Colours(n);
    }
  }

  lemma {:induction false} ReadyRightColours<N, V>(t: Tree<N, V>, n: Tree<N, V>, key: int)
    requires Ordered(n) && n.Branch? && n.key <= key && n.right.Branch?
    requires Prepared(t, n) && LeftLeaning(n.left) && LeftLeaning(n.right)
    requires if IsRed(n.right) then !n.red else n.red && CanLend(n)
    ensures ReadyRight(n).Some?
    ensures var m := ReadyRight(n).value;
      && Prepared(t, m) && LeftLeaning(m.left) && m.key <= key
      && (if m.key == key then CanLend(m.right) else CanDelete(m.right, key))
  {
    Colours(n);
    Colours(n.right);
    if !IsRed(n.right) && !IsRed(n.right.left) {
      MoveRedRightColours(n, key);
      assert n.left.key in Model(n.left);
    }
  }

  /** A prepared node put back together around a smaller left subtree. */
  lemma {:induction false} FinishLeft<N, V>(t: Tree<N, V>, n: Tree<N, V>, d: Removal<N, V>, key: int)
    requires Rearranged(t, n) && Ordered(t) && Prepared(t, n) && LeftLeaning(n.right) && key < n.key
    requires Shrunk(n.left, d.tree) && Removes(n.left, d, key)
    ensures var r := Rebalance(n.(left := d.tree), d.freed);
      r.Some? && Shrunk(t, r.value.tree) && Removes(t, r.value, key)
  {
    var m := n.(left := d.tree);
    Colours(n);
    Repair(t, n, m);
    RemovesLeft(n, d, key);
    BalanceKeeps(m);
    RemovesRearranged(t, n, Rebalance(m, d.freed).value, key, m);
  }

  lemma {:induction false} FinishRight<N, V>(t: Tree<N, V>, n: Tree<N, V>, d: Removal<N, V>, key: int)
    requires Rearranged(t, n) && Ordered(t) && Prepared(t, n) && LeftLeaning(n.left) && n.key < key
    requires Shrunk(n.right, d.tree) && Removes(n.right, d, key)
    ensures var r := Rebalance(n.(right := d.tree), d.freed);
      r.Some? && Shrunk(t, r.value.tree) && Removes(t, r.value, key)
  {
    var m := n.(right := d.tree);
    Colours(n);
    Repair(t, n, m);
    RemovesRight(n, d, key);
    BalanceKeeps(m);
    RemovesRearranged(t, n, Rebalance(m, d.freed).value, key, m);
  }

  lemma {:induction false} FinishRoot<N, V>(t: Tree<N, V>, n: Tree<N, V>)
    requires Rearranged(t, n) && Ordered(t) && Prepared(t, n) && LeftLeaning(n.left) && CanLend(n.right)
    ensures var x := MinNode(n.right);
      && x.Branch? && DeleteMin(n.right).Some?
      && var d := DeleteMin(n.right).value;
         var r := Rebalance(n.(key := x.key, value := x.value, right := d.tree), d.freed);
         r.Some? && Shrunk(t, r.value.tree) && Removes(t, r.value, n.key)
  {
    var x := MinNode(n.right);
    MinIsLeast(n.right);
    DeleteMinColours(n.right);
    DeleteMinRemoves(n.right);
    var d := DeleteMin(n.right).value;
    var m := n.(key := x.key, value := x.value, right := d.tree);
    Colours(n);
    Repair(t, n, m);
    RemovesRoot(n, d, x.key);
    BalanceKeeps(m);
    RemovesRearranged(t, n, Rebalance(m, d.freed).value, n.key, m);
  }

  lemma {:induction false} BelowReady<N, V>(t: Tree<N, V>, key: int)
    requires Ordered(t) && t.Branch? && ReadyLeft(t).Some? && key < t.key && key in Model(t)
    ensures var n := ReadyLeft(t).value; Ordered(n) && key < n.key && key in Model(n.left)
  {
    ReadyKeeps(t);
    var n := ReadyLeft(t).value;
    assert t.key in Model(t);
    if n.key != t.key {
      assert t.key in Model(n.left);
    }
  }

  /** delete, entered under the right colours with a key that is present, never fails and removes it. */
  lemma {:induction false} DeleteWorks<N, V>(t: Tree<N, V>, key: int)
    requires CanDelete(t, key) && Ordered(t) && key in Model(t)
    ensures Remove(t, key).Some?
    ensures Shrunk(t, Remove(t, key).value.tree) && Removes(t, Remove(t, key).value, key)
    decreases Size(t), 2
  {
    if key < t.key {
      DescendLeft(t);
      ReadyKeeps(t);
      BelowReady(t, key);
      var n := ReadyLeft(t).value;
      DeleteWorks(n.left, key);
      FinishLeft(t, n, Remove(n.left, key).value, key);
    } else {
      ReadyKeeps(t);
      LeanRightColours(t, key);
      var n := LeanRight(t).value;
      if n.right.Leaf? {
        DeleteAtBottom(t, n, key);
      } else {
        DeleteRight(t, n, key);
      }
    }
  }

  lemma {:induction false} DeleteRight<N, V>(t: Tree<N, V>, n: Tree<N, V>, key: int)
    requires Ordered(t) && key in Model(t) && t.Branch? && t.key <= key
    requires LeanRight(t) == Some(n) && Rearranged(t, n) && n.right.Branch? && n.key <= key
    requires Prepared(t, n) && LeftLeaning(n.left) && LeftLeaning(n.right)
    requires if IsRed(n.right) then !n.red else n.red && CanLend(n)
    ensures Remove(t, key).Some?
    ensures Shrunk(t, Remove(t, key).value.tree) && Removes(t, Remove(t, key).value, key)
    decreases Size(t), 1
  {
    hide Balanced, LeftLeaning, Ordered, Model, Ids, BlackHeight, Balance, MoveRedRight;
    ReadyRightColours(t, n, key);
    ReadyKeeps(n);
    var m := ReadyRight(n).value;
    if key == m.key {
      FinishRoot(t, m);
    } else {
      AboveReady(t, m, key);
      DeleteWorks(m.right, key);
      FinishRight(t, m, Remove(m.right, key).value, key);
    }
  }

  lemma {:induction false} AboveReady<N, V>(t: Tree<N, V>, m: Tree<N, V>, key: int)
    requires Ordered(t) && key in Model(t) && Rearranged(t, m) && m.Branch? && m.key < key
    ensures Ordered(m) && key in Model(m.right)
  {
    assert key in Model(m);
    assert key !in Model(m.left);
  }

  /** A node that may be deleted from has a right child unless it holds the key itself. */
  lemma {:induction false} AboveLean<N, V>(t: Tree<N, V>, n: Tree<N, V>, key: int)
    requires Ordered(t) && key in Model(t) && Rearranged(t, n) && n.Branch? && n.key <= key
    requires key != n.key || n.right.Branch?
    ensures n.right.Branch?
  {
    if key != n.key {
      AboveReady(t, n, key);
    }
  }

  /** A red node without a right child is alone. */
  lemma {:induction false} DeleteAtBottom<N, V>(t: Tree<N, V>, n: Tree<N, V>, key: int)
    requires Rearranged(t, n) && Ordered(t) && key in Model(t) && CanDelete(t, key)
    requires n.Branch? && n.key <= key && n.right.Leaf? && CanLend(n) && n.red && Prepared(t, n)
    ensures key == n.key && Shrunk(t, Leaf) && Removes(t, Removal(Leaf, n.id), key)
  {
    Colours(n);
    assert Model(n) - {n.key} == map[];
  }

  /** Delete enters delete under the right colours. */
  lemma {:induction false} DeleteEntry<N, V>(t: Tree<N, V>, key: int)
    requires Valid(t) && t.Branch?
    ensures CanDelete(Borrow(t), key) && Rearranged(t, Borrow(t))
  {
    Colours(t);
    Colours(Borrow(t));
    ChildKeeps(t, t.left, t.right, Borrow(t).red);
  }

  /** Delete: removes a present key from a valid tree, never fails, and the result is valid. */
  lemma {:induction false} DeleteCorrect<N, V>(t: Tree<N, V>, key: int)
    requires Valid(t) && key in Model(t)
    ensures Remove(Borrow(t), key).Some?
    ensures var d := Remove(Borrow(t), key).value;
      && Valid(Blacken(d.tree)) && Model(Blacken(d.tree)) == Model(t) - {key}
      && d.freed in Ids(t)
      && (DistinctNodes(t) ==> DistinctNodes(Blacken(d.tree)) && Ids(Blacken(d.tree)) == Ids(t) - {d.freed})
  {
    var b := Borrow(t);
    DeleteEntry(t, key);
    DeleteWorks(b, key);
    var d := Remove(b, key).value;
    if d.tree.Branch? {
      Colours(d.tree);
      Colours(Blacken(d.tree));
      ChildKeeps(d.tree, d.tree.left, d.tree.right, false);
    }
  }

  // ---- height ----------------------------------------------------------------------------

  function Height<N, V>(t: Tree<N, V>): nat {
    match t
    case Leaf => 0
    case Branch(_, l, _, _, _, r) => 1 + (if Height(l) < Height(r) then Height(r) else Height(l))
  }

  function Pow2(n: nat): nat {
    if n == 0 then 1 else 2 * Pow2(n - 1)
  }

  lemma {:induction false} BlackHeightBounds<N, V>(t: Tree<N, V>)
    requires Balanced(t) && LeftLeaning(t)
    ensures Pow2(BlackHeight(t)) <= Size(t) + 1
    ensures Height(t) <= 2 * BlackHeight(t) + (if IsRed(t) then 1 else 0)
  {
    if t.Branch? {
      BlackHeightBounds(t.left);
      BlackHeightBounds(t.right);
    }
  }

  lemma {:induction false} Pow2Monotone(m: nat, n: nat)
    requires m <= n
    ensures Pow2(m) <= Pow2(n)
    decreases n
  {
    if m < n {
      Pow2Monotone(m, n - 1);
    }
  }

  lemma {:induction false} Pow2Double(n: nat)
    ensures Pow2(2 * n) == Pow2(n) * Pow2(n)
  {
    if n > 0 {
      Pow2Double(n - 1);
      calc {
        Pow2(2 * n);
        2 * Pow2(2 * n - 1);
        4 * Pow2(2 * (n - 1));
        Pow2(n) * Pow2(n);
      }
    }
  }

  lemma SquareMonotone(m: nat, n: nat)
    requires m <= n
    ensures m * m <= n * n
  {
    assert m * m <= m * n;
    assert m * n <= n * n;
  }

  /** The height of a valid tree is at most twice the binary logarithm of its size plus one. */
  lemma {:induction false} HeightBound<N, V>(t: Tree<N, V>)
    requires Valid(t)
    ensures Pow2(Height(t)) <= (Size(t) + 1) * (Size(t) + 1)
  {
    BlackHeightBounds(t);
    Pow2Monotone(Height(t), 2 * BlackHeight(t));
    Pow2Double(BlackHeight(t));
    SquareMonotone(Pow2(BlackHeight(t)), Size(t) + 1);
  }

  lemma DisjointCount(l: set<int>, k: int, r: set<int>)
    requires forall x :: x in l ==> x < k
    requires forall x :: x in r ==> k < x
    ensures |l + {k} + r| == |l| + 1 + |r|
  {
    assert k !in l;
    forall x | x in l + {k}
      ensures x !in r
    {
    }
    assert |l + {k}| == |l| + 1;
  }

  lemma KeysOfUnion<V>(a: map<int, V>, k: int, v: V, b: map<int, V>)
    ensures (a[k := v] + b).Keys == a.Keys + {k} + b.Keys
  {
  }
  lemma SplitCount<V>(a: map<int, V>, k: int, v: V, b: map<int, V>)
    requires forall x :: x in a.Keys ==> x < k
    requires forall x :: x in b.Keys ==> k < x
    ensures |(a[k := v] + b).Keys| == |a.Keys| + 1 + |b.Keys|
  {
    KeysOfUnion(a, k, v, b);
    DisjointCount(a.Keys, k, b.Keys);
  }

  /** Every binding occupies one node. */
  lemma {:induction false} SizeIsCount<N, V>(t: Tree<N, V>)
    requires Ordered(t)
    ensures |Model(t).Keys| == Size(t)
  {
    if t.Branch? {
      SizeIsCount(t.left);
      SizeIsCount(t.right);
      SplitCount(Model(t.left), t.key, t.value, Model(t.right));
    }
  }

  // ---- neighbours ------------------------------------------------------------------------

  function NextNode<N, V>(t: Tree<N, V>, key: int): Tree<N, V> {
    if t.Leaf? then Leaf
    else if t.key == key then MinNode(t.right)
    else if t.key < key then NextNode(t.right, key)
    else
      var n := NextNode(t.left, key);
      if n.Leaf? then t else n
  }

  function PrevNode<N, V>(t: Tree<N, V>, key: int): Tree<N, V> {
    if t.Leaf? then Leaf
    else if t.key == key then MaxNode(t.left)
    else if t.key > key then PrevNode(t.left, key)
    else
      var n := PrevNode(t.right, key);
      if n.Leaf? then t else n
  }

  /** n is the binding of m at the least key above `key`, or a leaf if there is none. */
  ghost predicate Successor<N, V>(m: map<int, V>, key: int, n: Tree<N, V>) {
    if n.Leaf? then forall x :: x in m ==> x <= key
    else n.key in m && m[n.key] == n.value && key < n.key && forall x :: x in m && key < x ==> n.key <= x
  }

  ghost predicate Predecessor<N, V>(m: map<int, V>, key: int, n: Tree<N, V>) {
    if n.Leaf? then forall x :: x in m ==> key <= x
    else n.key in m && m[n.key] == n.value && n.key < key && forall x :: x in m && x < key ==> x <= n.key
  }

  lemma {:induction false} NextIsSuccessor<N, V>(t: Tree<N, V>, key: int)
    requires Ordered(t)
    ensures Successor(Model(t), key, NextNode(t, key))
  {
    if t.Branch? {
      if t.right.Branch? {
        MinIsLeast(t.right);
      }
      NextIsSuccessor(t.left, key);
      NextIsSuccessor(t.right, key);
    }
  }

  lemma {:induction false} PrevIsPredecessor<N, V>(t: Tree<N, V>, key: int)
    requires Ordered(t)
    ensures Predecessor(Model(t), key, PrevNode(t, key))
  {
    if t.Branch? {
      if t.left.Branch? {
        MaxIsGreatest(t.left);
      }
      PrevIsPredecessor(t.left, key);
      PrevIsPredecessor(t.right, key);
    }
  }
}
