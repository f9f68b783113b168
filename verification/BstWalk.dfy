/** Iteration over a search tree with removal of the current element, clearing, and the recursive
    traversals with a callback that can stop them. */
module BstWalk {
  import opened BstOrder
  import opened Collections
  import opened BstShape
  import opened Bst

  class Itr<D(==,!new)> {
    const l: Tree<D>
    var curr: Slot<D>
    var prev: Node?<D>
    var removed: bool
    // The number of elements before the iterator.
    ghost var idx: nat

    /** What is known between calls. After a removal `curr` is stale and must not be used. */
    ghost predicate Valid()
      reads this, l, l.repr
    {
      && l.Linked() && idx <= |l.shape.nodes| == |l.values|
      && prev == (if idx == 0 then null else l.shape.nodes[idx - 1])
      && (!removed ==> idx < |l.shape.nodes| && (curr.Root? || curr.owner in l.repr))
      && (!removed ==> l.Deref(curr) == l.shape.nodes[idx])
    }

    /** `m_bst_itr_new` on a tree that is not empty. */
    constructor (l: Tree<D>)
      requires l.Linked() && l.root != null
      ensures Valid() && this.l == l && !removed && idx == 0
    {
      this.l := l;
      prev, removed, idx := null, false, 0;
      var first := l.FindMin(Root);
      curr := first;
      new;
      l.RemoveReady(Root, l.root);
    }

    /** `m_bst_itr_next`: go on from the current element, from the predecessor of a removed one, from
        the new minimum when the first was removed, or end. `more` is false when the source frees the
        iterator. */
    method Next() returns (more: bool)
      requires Valid()
      modifies this
      ensures l.Linked() && !removed && idx == old(idx) + if old(removed) then 0 else 1
      ensures more <==> idx < |l.shape.nodes|
      ensures more ==> Valid()
    {
      hide Tree.Linked;
      l.EmptyRoot();
      if !removed {
        l.InRepr(idx);
        prev := l.Deref(curr);
        curr := l.BstNext(prev);
        idx := idx + 1;
      } else if prev != null {
        l.InRepr(idx - 1);
        curr := l.BstNext(prev);
      } else if l.root != null {
        curr := l.FindMin(Root);
      } else {
        curr := Root;
      }
      removed := false;
      more := l.Deref(curr) != null;
    }

    /** `m_bst_itr_remove`: the current node is first found again from its parent. */
    method Remove() returns (ret: Status)
      requires Valid()
      modifies this`removed, l, l.repr
      ensures Valid() && removed && ret == if old(removed) then Invalid else Ok
      ensures ret == Ok ==> idx < |old(l.values)| && l.values == RemoveAt(old(l.values), idx)
      ensures ret == Ok ==> l.repr <= old(l.repr)
      ensures ret == Ok ==> l.destroyed == old(l.destroyed) + [old(l.Lost(idx))]
      ensures ret == Ok && idx == 0 ==> l.destroyed == old(l.destroyed) + [old(l.values)[0]]
      ensures ret != Ok ==> l.values == old(l.values) && l.destroyed == old(l.destroyed) && l.repr == old(l.repr)
    {
      hide Tree.Linked, Tree.Lost;
      if removed {
        return Invalid;
      }
      l.InRepr(idx);
      var node := l.Deref(curr);
      var slot := Root;
      if node.parent != null {
        slot := if node == node.parent.right then Right(node.parent) else Left(node.parent);
      }
      l.UpAt(node);
      ghost var two := node.left != null && node.right != null;
      l.RemoveReady(slot, node);
      l.LostIs(idx, two);
      ret := l.RemoveNode(slot, idx, two);
      removed := true;
    }
  }

  // ---- iterating with removals -----------------------------------------------------

  /** The elements among the first `n` that are not dropped. */
  function Kept<D>(vs: seq<D>, drop: (nat, D) -> bool, n: nat): (ks: seq<D>)
    requires n <= |vs|
  {
    if n == 0 then [] else Kept(vs, drop, n - 1) + if drop(n - 1, vs[n - 1]) then [] else [vs[n - 1]]
  }

  /** After `n` visits the tree holds what was kept and what is still to come, and the iterator stands
      between the two. */
  ghost predicate Swept<D(!new)>(vs: seq<D>, drop: (nat, D) -> bool, n: nat, values: seq<D>, idx: nat) {
    n <= |vs| && values == Kept(vs, drop, n) + vs[n..] && idx == |Kept(vs, drop, n)|
  }

  lemma SweptStart<D(!new)>(vs: seq<D>, drop: (nat, D) -> bool)
    ensures Swept(vs, drop, 0, vs, 0)
  {}

  lemma SweptAt<D(!new)>(vs: seq<D>, drop: (nat, D) -> bool, n: nat, values: seq<D>, idx: nat)
    requires Swept(vs, drop, n, values, idx)
    ensures |values| - idx == |vs| - n && |Kept(vs, drop, n)| == idx
    ensures n < |vs| ==> values[idx] == vs[n] && vs[..n] + [vs[n]] == vs[..n + 1]
    ensures n == |vs| ==> vs[..n] == vs && values == Kept(vs, drop, n)
  {
    hide Kept;
  }

  /** What the next visit makes of the tree. */
  lemma SweptNext<D(!new)>(vs: seq<D>, drop: (nat, D) -> bool, n: nat, values: seq<D>, idx: nat)
      returns (values': seq<D>, idx': nat)
    requires Swept(vs, drop, n, values, idx) && n < |vs|
    ensures idx < |values| && values[idx] == vs[n] && vs[..n] + [vs[n]] == vs[..n + 1]
    ensures values' == if drop(n, vs[n]) then RemoveAt(values, idx) else values
    ensures idx' == if drop(n, vs[n]) then idx else idx + 1
    ensures Swept(vs, drop, n + 1, values', idx') && |values'| - idx' == |vs| - (n + 1)
  {
    SweptAt(vs, drop, n, values, idx);
    if drop(n, vs[n]) {
      SweptDrop(vs, drop, n, values, idx);
      values', idx' := RemoveAt(values, idx), idx;
    } else {
      SweptKeep(vs, drop, n, values, idx);
      values', idx' := values, idx + 1;
    }
    SweptAt(vs, drop, n + 1, values', idx');
  }

  lemma SweptDrop<D(!new)>(vs: seq<D>, drop: (nat, D) -> bool, n: nat, values: seq<D>, idx: nat)
    requires Swept(vs, drop, n, values, idx) && n < |vs| && drop(n, vs[n])
    ensures idx < |values| && Swept(vs, drop, n + 1, RemoveAt(values, idx), idx)
  {
    var ks, vs' := Kept(vs, drop, n), vs[n..];
    assert RemoveAt(ks + vs', idx) == ks + vs'[1..];
  }

  lemma SweptKeep<D(!new)>(vs: seq<D>, drop: (nat, D) -> bool, n: nat, values: seq<D>, idx: nat)
    requires Swept(vs, drop, n, values, idx) && n < |vs| && !drop(n, vs[n])
    ensures Swept(vs, drop, n + 1, values, idx + 1)
  {
    assert vs[n..] == [vs[n]] + vs[n + 1..];
  }

  /** Removals during iteration keep the order. */
  lemma {:induction false} KeptSorted<D(!new)>(cmp: (D, D) -> int, vs: seq<D>, drop: (nat, D) -> bool, n: nat)
    requires Sorted(cmp, vs) && n <= |vs|
    ensures Sorted(cmp, Kept(vs, drop, n))
    ensures forall k, j | 0 <= k < |Kept(vs, drop, n)| && n <= j < |vs| :: cmp(Kept(vs, drop, n)[k], vs[j]) < 0
  {
    if n > 0 {
      KeptSorted(cmp, vs, drop, n - 1);
      var ks := Kept(vs, drop, n - 1);
      assert forall k | 0 <= k < |ks| :: cmp(ks[k], vs[n - 1]) < 0;
    }
  }

  /** Of a sorted sequence, exactly those elements are kept whose removal was not asked for at their visit. */
  lemma {:induction false} KeptIff<D(!new)>(cmp: (D, D) -> int, vs: seq<D>, drop: (nat, D) -> bool, n: nat, k: nat)
    requires TotalOrder(cmp) && Sorted(cmp, vs) && k < n <= |vs|
    ensures vs[k] in Kept(vs, drop, n) <==> !drop(k, vs[k])
    decreases n
  {
    KeptSorted(cmp, vs, drop, n - 1);
    if k < n - 1 {
      KeptIff(cmp, vs, drop, n - 1, k);
    }
  }

  /** The end of a turn of `m_itr_foreach`: the current element is removed, or not, and the iterator goes on. */
  method GoOn<D(==,!new)>(itr: Itr<D>, gone: bool) returns (more: bool)
    requires itr.Valid() && !itr.removed
    modifies itr, itr.l, itr.l.repr
    ensures itr.l.Linked() && !itr.removed && (more ==> itr.Valid()) && itr.l.repr <= old(itr.l.repr)
    ensures old(itr.idx) < |old(itr.l.values)|
    ensures itr.l.values == if gone then RemoveAt(old(itr.l.values), old(itr.idx)) else old(itr.l.values)
    ensures itr.idx == old(itr.idx) + if gone then 0 else 1
    ensures more <==> itr.idx < |itr.l.values|
    ensures old(itr.l.destroyed) <= itr.l.destroyed
    ensures |itr.l.destroyed| == |old(itr.l.destroyed)| + if gone then 1 else 0
  {
    hide Tree.Linked, Tree.Lost, RemoveAt;
    itr.l.EmptyRoot();
    if gone {
      var _ := itr.Remove();
    }
    more := itr.Next();
    itr.l.EmptyRoot();
  }

  /** `m_itr_foreach` over a tree whose body may remove the current element: the visits are the
      elements in order, each once, and the tree then holds exactly those that were not removed. */
  method Sweep<D(==,!new)>(l: Tree<D>, drop: (nat, D) -> bool) returns (visited: seq<D>)
    requires l.Linked()
    modifies l, l.repr
    ensures l.Linked()
    ensures visited == old(l.values)
    ensures l.values == Kept(old(l.values), drop, |old(l.values)|)
    ensures old(l.destroyed) <= l.destroyed
    ensures |l.destroyed| - |old(l.destroyed)| == |old(l.values)| - |l.values|
    ensures old(l.Valid()) ==> l.Valid()
  {
    hide Tree.Linked, Kept, Sorted, TotalOrder;
    KeptStaysSorted(l.cmp, l.values, drop);
    l.EmptyRoot();
    if l.root == null {
      KeptNothing(drop);
      visited := [];
    } else {
      visited := SweepLoop(l, drop);
    }
  }

  lemma KeptNothing<D>(drop: (nat, D) -> bool)
    ensures Kept([], drop, 0) == []
  {}

  lemma KeptStaysSorted<D(!new)>(cmp: (D, D) -> int, vs: seq<D>, drop: (nat, D) -> bool)
    ensures Sorted(cmp, vs) ==> Sorted(cmp, Kept(vs, drop, |vs|))
  {
    if Sorted(cmp, vs) {
      KeptSorted(cmp, vs, drop, |vs|);
    }
  }

  /** The loop of `m_itr_foreach`, when there is an iterator. */
  method SweepLoop<D(==,!new)>(l: Tree<D>, drop: (nat, D) -> bool) returns (visited: seq<D>)
    requires l.Linked() && l.root != null
    modifies l, l.repr
    ensures l.Linked()
    ensures visited == old(l.values)
    ensures l.values == Kept(old(l.values), drop, |old(l.values)|)
    ensures old(l.destroyed) <= l.destroyed
    ensures |l.destroyed| - |old(l.destroyed)| == |old(l.values)| - |l.values|
  {
    hide Tree.Linked, Tree.Lost, Kept, RemoveAt, Swept;
    visited := [];
    ghost var vs, n := l.values, 0;
    SweptStart(vs, drop);
    l.EmptyRoot();
    var itr := new Itr(l);
    var more := true;
    while more
      invariant itr.l == l && l.Linked() && !itr.removed && (more ==> itr.Valid())
      invariant n <= |vs| && |visited| == n && visited == vs[..n] && (more <==> n < |vs|)
      invariant Swept(vs, drop, n, l.values, itr.idx)
      invariant old(l.destroyed) <= l.destroyed
      invariant |l.destroyed| - |old(l.destroyed)| == n - itr.idx
      invariant l.repr <= old(l.repr)
      modifies l, l.repr, itr
      decreases |vs| - n
    {
      ghost var values, idx := SweptNext(vs, drop, n, l.values, itr.idx);
      l.InRepr(itr.idx);
      var data := l.Deref(itr.curr).userptr;
      more := GoOn(itr, drop(|visited|, data));
      assert l.values == values && itr.idx == idx;
      visited, n := visited + [data], n + 1;
    }
    SweptAt(vs, drop, n, l.values, itr.idx);
  }

  /** `m_bst_clear`: the minimum is removed until nothing is left, so that the destructor is called
      on every element, once each and in order. */
  method Clear<D(==,!new)>(l: Tree<D>) returns (ret: Status)
    requires l.Linked()
    modifies l, l.repr
    ensures l.Linked() && l.values == [] && l.root == null && l.len == 0
    ensures l.destroyed == old(l.destroyed) + old(l.values)
    ensures ret == if old(l.values) == [] then Invalid else Ok
  {
    hide Tree.Linked, Tree.Lost;
    ghost var vs, n := l.values, 0;
    l.EmptyRoot();
    l.Length();
    if l.root == null {
      return Invalid;
    }
    var itr := new Itr(l);
    var more := true;
    while more
      invariant itr.l == l && l.Linked() && !itr.removed && itr.idx == 0 && (more ==> itr.Valid())
      invariant n <= |vs| && l.values == vs[n..] && (more <==> n < |vs|)
      invariant l.destroyed == old(l.destroyed) + vs[..n]
      invariant l.repr <= old(l.repr)
      modifies l, l.repr, itr
      decreases |vs| - n
    {
      var _ := itr.Remove();
      n := n + 1;
      more := itr.Next();
      l.EmptyRoot();
    }
    l.Length();
    l.EmptyRoot();
    ret := Ok;
  }

  // ---- traversals ------------------------------------------------------------------

  /** Calling `cb` on the elements of a sequence until it answers something else than 0. The callback
      may depend on everything seen before. The result is its last answer and all that was seen. */
  function Walk<D>(cb: (seq<D>, D) -> int, seen: seq<D>, vs: seq<D>): (r: (int, seq<D>))
    decreases |vs|
  {
    if vs == [] then (0, seen)
    else if cb(seen, vs[0]) != 0 then (cb(seen, vs[0]), seen + [vs[0]])
    else Walk(cb, seen + [vs[0]], vs[1..])
  }

  lemma {:induction false} WalkConcat<D>(cb: (seq<D>, D) -> int, seen: seq<D>, a: seq<D>, b: seq<D>)
    ensures Walk(cb, seen, a + b) == var (r, s) := Walk(cb, seen, a); if r != 0 then (r, s) else Walk(cb, s, b)
    decreases |a|
  {
    if a == [] {
      assert a + b == b;
    } else {
      assert (a + b)[1..] == a[1..] + b;
      WalkConcat(cb, seen + [a[0]], a[1..], b);
    }
  }

  /** A walk that is stopped has seen a proper or full prefix; one that is not has seen everything. */
  lemma {:induction false} WalkSeesPrefix<D>(cb: (seq<D>, D) -> int, seen: seq<D>, vs: seq<D>) returns (n: nat)
    ensures n <= |vs| && Walk(cb, seen, vs).1 == seen + vs[..n]
    ensures Walk(cb, seen, vs).0 == 0 ==> n == |vs|
    ensures Walk(cb, seen, vs).0 != 0 ==> n > 0 && Walk(cb, seen, vs).0 == cb(seen + vs[..n - 1], vs[n - 1])
    ensures forall i | 0 <= i < n && (i < n - 1 || Walk(cb, seen, vs).0 == 0) :: cb(seen + vs[..i], vs[i]) == 0
    decreases |vs|
  {
    if vs == [] {
      n := 0;
      assert seen + vs[..0] == seen;
    } else if cb(seen, vs[0]) != 0 {
      n := 1;
      assert seen + vs[..0] == seen && seen + vs[..1] == seen + [vs[0]];
    } else {
      var m := WalkSeesPrefix(cb, seen + [vs[0]], vs[1..]);
      n := m + 1;
      forall i | 0 < i <= n ensures seen + vs[..i] == seen + [vs[0]] + vs[1..][..i - 1] {
        assert vs[..i] == [vs[0]] + vs[1..][..i - 1];
      }
      assert seen + vs[..0] == seen;
    }
  }

  /** The pre-order of a subtree. */
  ghost function PreOrder<D(!new)>(l: Tree<D>, n: Node?<D>): seq<D>
    requires l.Linked() && (n != null ==> n in l.repr)
    reads l, l.repr
    decreases l.Span(n)
  {
    if n == null then [] else
      l.SubtreeFacts(n);
      [n.userptr] + PreOrder(l, n.left) + PreOrder(l, n.right)
  }

  /** The post-order of a subtree. */
  ghost function PostOrder<D(!new)>(l: Tree<D>, n: Node?<D>): seq<D>
    requires l.Linked() && (n != null ==> n in l.repr)
    reads l, l.repr
    decreases l.Span(n)
  {
    if n == null then [] else
      l.SubtreeFacts(n);
      PostOrder(l, n.left) + PostOrder(l, n.right) + [n.userptr]
  }

  lemma NullOrders<D(!new)>(l: Tree<D>)
    requires l.Linked()
    ensures PreOrder(l, null) == PostOrder(l, null) == l.Covered(null) == []
  {}

  lemma OrderSplits<D(!new)>(l: Tree<D>, n: Node<D>)
    requires l.Linked() && n in l.repr
    ensures (n.left != null ==> n.left in l.repr) && (n.right != null ==> n.right in l.repr)
    ensures l.Span(n.left) < l.Span(n) && l.Span(n.right) < l.Span(n)
    ensures PreOrder(l, n) == [n.userptr] + (PreOrder(l, n.left) + PreOrder(l, n.right))
    ensures PostOrder(l, n) == PostOrder(l, n.left) + (PostOrder(l, n.right) + [n.userptr])
    ensures l.Covered(n) == l.Covered(n.left) + ([n.userptr] + l.Covered(n.right))
  {
    hide Tree.Linked, Tree.Covered;
    l.SubtreeFacts(n);
    l.CoveredSplit(n);
  }

  /** `traverse_inorder` walks the elements that the subtree covers, in order. */
  method TraverseInorder<D(!new)>(
      l: Tree<D>, n: Node?<D>, cb: (seq<D>, D) -> int, seen: seq<D>) returns (ret: int, seen': seq<D>)
    requires l.Linked() && (n != null ==> n in l.repr)
    ensures (ret, seen') == Walk(cb, seen, l.Covered(n))
    decreases l.Span(n)
  {
    hide Tree.Linked, Tree.Covered, Tree.Span;
    ret, seen' := 0, seen;
    NullOrders(l);
    if n != null {
      OrderSplits(l, n);
      WalkConcat(cb, seen, l.Covered(n.left), [n.userptr] + l.Covered(n.right));
      ret, seen' := TraverseInorder(l, n.left, cb, seen);
      if ret == 0 {
        WalkConcat(cb, seen', [n.userptr], l.Covered(n.right));
        ret, seen' := cb(seen', n.userptr), seen' + [n.userptr];
        if ret == 0 {
          ret, seen' := TraverseInorder(l, n.right, cb, seen');
        }
      }
    }
  }

  /** `traverse_preorder` */
  method TraversePreorder<D(!new)>(
      l: Tree<D>, n: Node?<D>, cb: (seq<D>, D) -> int, seen: seq<D>) returns (ret: int, seen': seq<D>)
    requires l.Linked() && (n != null ==> n in l.repr)
    ensures (ret, seen') == Walk(cb, seen, PreOrder(l, n))
    decreases l.Span(n)
  {
    hide Tree.Linked, PreOrder, PostOrder, Tree.Covered, Tree.Span;
    ret, seen' := 0, seen;
    NullOrders(l);
    if n != null {
      OrderSplits(l, n);
      WalkConcat(cb, seen, [n.userptr], PreOrder(l, n.left) + PreOrder(l, n.right));
      ret, seen' := cb(seen', n.userptr), seen' + [n.userptr];
      if ret == 0 {
        WalkConcat(cb, seen', PreOrder(l, n.left), PreOrder(l, n.right));
        ret, seen' := TraversePreorder(l, n.left, cb, seen');
        if ret == 0 {
          ret, seen' := TraversePreorder(l, n.right, cb, seen');
        }
      }
    }
  }

  /** `traverse_postorder` */
  method TraversePostorder<D(!new)>(
      l: Tree<D>, n: Node?<D>, cb: (seq<D>, D) -> int, seen: seq<D>) returns (ret: int, seen': seq<D>)
    requires l.Linked() && (n != null ==> n in l.repr)
    ensures (ret, seen') == Walk(cb, seen, PostOrder(l, n))
    decreases l.Span(n)
  {
    hide Tree.Linked, PreOrder, PostOrder, Tree.Covered, Tree.Span;
    ret, seen' := 0, seen;
    NullOrders(l);
    if n != null {
      OrderSplits(l, n);
      WalkConcat(cb, seen, PostOrder(l, n.left), PostOrder(l, n.right) + [n.userptr]);
      ret, seen' := TraversePostorder(l, n.left, cb, seen);
      if ret == 0 {
        WalkConcat(cb, seen', PostOrder(l, n.right), [n.userptr]);
        ret, seen' := TraversePostorder(l, n.right, cb, seen');
        if ret == 0 {
          ret, seen' := cb(seen', n.userptr), seen' + [n.userptr];
        }
      }
    }
  }

  /** Pre-order and post-order reorder the elements that the subtree covers; none is lost or repeated. */
  lemma {:induction false} OrdersArePermutations<D(!new)>(l: Tree<D>, n: Node?<D>)
    requires l.Linked() && (n != null ==> n in l.repr)
    ensures multiset(PreOrder(l, n)) == multiset(PostOrder(l, n)) == multiset(l.Covered(n))
    decreases l.Span(n)
  {
    hide Tree.Linked, PreOrder, PostOrder, Tree.Covered, Tree.Span;
    NullOrders(l);
    if n != null {
      OrderSplits(l, n);
      OrdersArePermutations(l, n.left);
      OrdersArePermutations(l, n.right);
    }
  }

  datatype Order = Pre | Post | In

  ghost function OrderOf<D(!new)>(l: Tree<D>, order: Order): seq<D>
    requires l.Linked()
    reads l, l.repr
  {
    l.CoveredAll();
    match order
    case Pre => PreOrder(l, l.root)
    case Post => PostOrder(l, l.root)
    case In => l.values
  }

  /** `m_bst_traverse`: the callback sees the elements in the order asked for, all of them or up to the
      first that it does not answer with 0; a positive answer only stops, a negative one is returned.
      Pre-order starts with the root's data and post-order ends with it; in order, the elements are those
      that the iterator visits. */
  method Traverse<D(!new)>(l: Tree<D>, order: Order, cb: (seq<D>, D) -> int) returns (ret: int, seen: seq<D>)
    requires l.Linked()
    ensures l.root != null ==> l.root in l.repr
    ensures order.Pre? ==> seen <= PreOrder(l, l.root)
    ensures order.Post? ==> seen <= PostOrder(l, l.root)
    ensures order.In? ==> seen <= l.values
    ensures forall k | 0 <= k < |seen| - 1 :: cb(seen[..k], seen[k]) == 0
    ensures seen == [] || cb(seen[..|seen| - 1], seen[|seen| - 1]) == 0 ==>
              seen == OrderOf(l, order) && |seen| == |l.values| && ret == 0
    ensures seen != [] ==>
              var last := cb(seen[..|seen| - 1], seen[|seen| - 1]); ret == if last < 0 then last else 0
    ensures l.root != null && order.Pre? ==> seen != [] && seen[0] == l.root.userptr
    ensures l.root != null && order.Post? && |seen| == |l.values| ==> seen[|seen| - 1] == l.root.userptr
  {
    hide Tree.Linked, PreOrder, PostOrder, Tree.Covered, Walk;
    l.CoveredAll();
    RootEnds(l);
    match order {
      case Pre => ret, seen := TraversePreorder(l, l.root, cb, []);
      case Post => ret, seen := TraversePostorder(l, l.root, cb, []);
      case In => ret, seen := TraverseInorder(l, l.root, cb, []);
    }
    WalkOutcome(cb, OrderOf(l, order));
    ret := if ret >= 0 then 0 else ret;
  }

  /** Where the root is in the orders, and how long they are. */
  lemma RootEnds<D(!new)>(l: Tree<D>)
    requires l.Linked()
    ensures l.root != null ==> l.root in l.repr
    ensures |PreOrder(l, l.root)| == |PostOrder(l, l.root)| == |l.values|
    ensures l.root != null ==> PreOrder(l, l.root) != [] && PreOrder(l, l.root)[0] == l.root.userptr
    ensures l.root != null ==> PostOrder(l, l.root) != [] && l.root.userptr == PostOrder(l, l.root)[|l.values| - 1]
  {
    hide Tree.Linked, PreOrder, PostOrder, Tree.Covered, Tree.Span;
    l.CoveredAll();
    OrdersArePermutations(l, l.root);
    assert |multiset(PreOrder(l, l.root))| == |multiset(PostOrder(l, l.root))| == |multiset(l.values)|;
    if l.root != null {
      OrderSplits(l, l.root);
    }
  }

  lemma WalkOutcome<D(!new)>(cb: (seq<D>, D) -> int, vs: seq<D>)
    ensures var (ret, seen) := Walk(cb, [], vs);
            && seen <= vs && (forall k | 0 <= k < |seen| - 1 :: cb(seen[..k], seen[k]) == 0)
            && (ret == 0 ==> seen == vs)
            && ret == if seen == [] then 0 else cb(seen[..|seen| - 1], seen[|seen| - 1])
  {
    var n := WalkSeesPrefix(cb, [], vs);
    var seen := Walk(cb, [], vs).1;
    assert seen == vs[..n];
    forall k | 0 <= k < n
      ensures [] + vs[..k] == seen[..k] && vs[k] == seen[k]
    {
    }
  }
}
