/** The binary search tree with parent pointers: search, insertion, removal by successor swap and
    the successor walk, on nodes that are relinked in place. */
module Bst {
  import opened BstOrder
  import opened Collections
  import opened BstShape

  datatype Status = Ok | Exists | NoEntry | Invalid

  class Tree<D(==,!new)> {
    const cmp: (D, D) -> int
    var len: nat
    var root: Node?<D>
    // The data handed to the destructor so far, in order.
    var destroyed: seq<D>
    // For the proof: the nodes, the tree as a value, and the data in order.
    ghost var repr: set<Node<D>>
    ghost var shape: Shape<D>
    ghost var values: seq<D>

    /** The nodes in memory carry the links `m`. */
    ghost predicate Mirrors(m: map<Node<D>, Cell<D>>)
      reads m.Keys
    {
      forall n | n in m :: n.parent == m[n].parent && n.left == m[n].left && n.right == m[n].right
    }

    /** The nodes in memory carry the data `vs`. */
    ghost predicate Carries(ns: seq<Node<D>>, vs: seq<D>)
      reads ns
    {
      |ns| == |vs| && forall i | 0 <= i < |ns| :: ns[i].userptr == vs[i]
    }

    ghost predicate Linked()
      reads this, repr
    {
      && shape.root == root && len == |shape.nodes| && repr == shape.mem.Keys == shape.at.Keys
      && (forall i | 0 <= i < |shape.nodes| :: shape.nodes[i] in repr)
      && Shaped(shape) && Mirrors(shape.mem) && Carries(shape.nodes, values)
    }

    /** Takes over new values for everything that only the proof knows. */
    ghost method Adopt(t: Shape<D>, vs: seq<D>)
      requires t.root == root && len == |t.nodes| && Shaped(t) && Mirrors(t.mem) && Carries(t.nodes, vs)
      modifies this`repr, this`shape, this`values
      ensures Linked() && repr == t.mem.Keys && shape == t && values == vs
    {
      repr, shape, values := t.mem.Keys, t, vs;
    }

    ghost predicate Valid()
      reads this, repr
    {
      Linked() && TotalOrder(cmp) && Sorted(cmp, values)
    }

    /** A slot through which a parent sees its child. */
    ghost predicate ChildSlot(s: Slot<D>)
      reads this
    {
      s.Root? || (!s.Parent? && s.owner in repr)
    }

    function Deref(s: Slot<D>): Node?<D>
      reads this, if s.Root? then {} else {s.owner}
    {
      match s
      case Root => root
      case Left(n) => n.left
      case Right(n) => n.right
      case Parent(n) => n.parent
    }

    constructor (cmp: (D, D) -> int)
      requires TotalOrder(cmp)
      ensures Valid() && this.cmp == cmp && values == [] && destroyed == [] && repr == {}
    {
      this.cmp := cmp;
      len, root, destroyed, repr, shape, values := 0, null, [], {}, Shape(map[], map[], [], null), [];
    }

    // ---- search ----------------------------------------------------------------------

    /** `bst_find`: the slot that holds an equal element, or the empty slot where it belongs. */
    method BstFind(data: D) returns (slot: Slot<D>, parent: Node?<D>)
      requires Valid()
      ensures ChildSlot(slot) && parent == Owner(slot)
      ensures Splits(cmp, values, data, SlotLo(shape.at, slot), SlotHi(shape.at, shape.nodes, slot))
      ensures var n := Deref(slot);
              n != null ==> n in repr && shape.at[n].pos < |values| && values[shape.at[n].pos] == n.userptr
                            && cmp(data, n.userptr) == 0
      ensures Deref(slot) == null ==> SlotLo(shape.at, slot) == SlotHi(shape.at, shape.nodes, slot)
    {
      hide Shaped, CellOk, Sorted, TotalOrder;
      slot, parent := Root, null;
      while Deref(slot) != null
        invariant ChildSlot(slot) && parent == Owner(slot)
        invariant Splits(cmp, values, data, SlotLo(shape.at, slot), SlotHi(shape.at, shape.nodes, slot))
        decreases SlotHi(shape.at, shape.nodes, slot) - SlotLo(shape.at, slot)
      {
        SlotFacts(shape, slot);
        var n := Deref(slot);
        SplitsAt(cmp, values, data, SlotLo(shape.at, slot), SlotHi(shape.at, shape.nodes, slot), shape.at[n].pos);
        var ret := cmp(data, n.userptr);
        if ret == 0 {
          return;
        }
        parent := n;
        slot := if ret > 0 then Right(n) else Left(n);
      }
      SlotFacts(shape, slot);
    }

    /** `m_bst_find` */
    method Find(data: D) returns (found: bool, stored: D)
      requires Valid()
      ensures found <==> exists i :: 0 <= i < |values| && cmp(data, values[i]) == 0
      ensures if found then stored in values && cmp(data, stored) == 0 else stored == data
    {
      var slot, _ := BstFind(data);
      var n := Deref(slot);
      if n == null {
        return false, data;
      }
      return true, n.userptr;
    }

    /** `find_min_subtree`: the leftmost node below a slot. */
    method FindMin(start: Slot<D>) returns (slot: Slot<D>)
      requires Linked() && ChildSlot(start) && Deref(start) != null
      ensures ChildSlot(slot) && Deref(slot) != null && Deref(slot) in repr && Deref(slot).left == null
      ensures SlotLo(shape.at, slot) == SlotLo(shape.at, start) < |shape.nodes|
      ensures Deref(slot) == shape.nodes[SlotLo(shape.at, start)]
      ensures shape.at[Deref(slot)].pos == SlotLo(shape.at, start)
    {
      hide Shaped, CellOk;
      slot := start;
      SlotFacts(shape, slot);
      while Deref(slot).left != null
        invariant ChildSlot(slot) && Deref(slot) != null && SlotLo(shape.at, slot) == SlotLo(shape.at, start)
        decreases SlotHi(shape.at, shape.nodes, slot)
      {
        SlotFacts(shape, slot);
        slot := Left(Deref(slot));
        SlotFacts(shape, slot);
      }
      SlotFacts(shape, slot);
    }

    /** `bst_next` on a node: a slot that holds its in-order successor, or null after the last. */
    method BstNext(start: Node<D>) returns (slot: Slot<D>)
      requires Linked() && start in repr
      ensures slot.Root? || slot.owner in repr
      ensures var next := shape.at[start].pos + 1;
              Deref(slot) == if next < |shape.nodes| then shape.nodes[next] else null
    {
      assert CellOk(shape.mem, shape.at, shape.nodes, root, start);
      if start.right != null {
        slot := FindMin(Right(start));
      } else {
        var node := start;
        while node.parent != null && node == node.parent.right
          invariant node in repr && shape.at[node].hi == shape.at[start].pos + 1
          decreases |shape.nodes| - (shape.at[node].hi - shape.at[node].lo)
        {
          assert CellOk(shape.mem, shape.at, shape.nodes, root, node);
          assert CellOk(shape.mem, shape.at, shape.nodes, root, node.parent);
          node := node.parent;
        }
        assert CellOk(shape.mem, shape.at, shape.nodes, root, node);
        if node.parent != null {
          assert CellOk(shape.mem, shape.at, shape.nodes, root, node.parent);
        }
        slot := Parent(node);
      }
    }

    // ---- update ----------------------------------------------------------------------

    /** `*slot = n` */
    method SetSlot(slot: Slot<D>, n: Node?<D>)
      requires ChildSlot(slot) && repr == shape.mem.Keys && Mirrors(shape.mem) && Carries(shape.nodes, values)
      modifies this`root, if slot.Root? then {} else {slot.owner}
      ensures root == if slot.Root? then n else old(root)
      ensures Mirrors(BstShape.Linked(shape.mem, slot, n)) && Carries(shape.nodes, values)
      ensures slot.Left? ==> slot.owner.left == n && slot.owner.right == old(slot.owner.right)
      ensures slot.Right? ==> slot.owner.right == n && slot.owner.left == old(slot.owner.left)
    {
      match slot {
        case Root => root := n;
        case Left(owner) => owner.left := n;
        case Right(owner) => owner.right := n;
      }
    }

    lemma CarriesInserted(ns: seq<Node<D>>, vs: seq<D>, k: nat, node: Node<D>)
      requires Carries(ns, vs) && k <= |ns|
      ensures Carries(InsertAt(ns, k, node), InsertAt(vs, k, node.userptr))
    {}

    lemma MirrorsLeaf(m: map<Node<D>, Cell<D>>, slot: Slot<D>, node: Node<D>)
      requires slot.Root? || (slot.owner in m && !slot.Parent?)
      requires Mirrors(BstShape.Linked(m, slot, node)) && node.parent == Owner(slot) && node.left == node.right == null
      ensures Mirrors(WithLeaf(m, slot, node))
    {}

    /** `*slot = node` for a leaf `node` at place `k`. */
    method LinkLeaf(slot: Slot<D>, node: Node<D>, ghost k: nat)
      requires ChildSlot(slot) && repr == shape.mem.Keys && Mirrors(shape.mem) && Carries(shape.nodes, values)
      requires node !in repr && node.parent == Owner(slot) && node.left == null && node.right == null
      requires k <= |shape.nodes|
      modifies this`root, if slot.Root? then {} else {slot.owner}
      ensures root == if slot.Root? then node else old(root)
      ensures Mirrors(WithLeaf(shape.mem, slot, node)) && WithLeaf(shape.mem, slot, node).Keys == repr + {node}
      ensures Carries(InsertAt(shape.nodes, k, node), InsertAt(values, k, node.userptr))
      ensures slot.Left? ==> slot.owner.left == node && slot.owner.right == old(slot.owner.right)
      ensures slot.Right? ==> slot.owner.right == node && slot.owner.left == old(slot.owner.left)
    {
      SetSlot(slot, node);
      CarriesInserted(shape.nodes, values, k, node);
      MirrorsLeaf(shape.mem, slot, node);
    }

    lemma HangFacts(slot: Slot<D>, node: Node<D>)
      requires Linked() && ChildSlot(slot) && Deref(slot) == null && node !in repr
      ensures repr == shape.mem.Keys == shape.at.Keys && Mirrors(shape.mem) && Carries(shape.nodes, values)
      ensures len == |shape.nodes| == |values| && SlotLo(shape.at, slot) <= len && shape.root == root
      ensures var t := AfterLeaf(shape, slot, node);
              && Shaped(t) && t.mem == WithLeaf(shape.mem, slot, node) && t.root == (if slot.Root? then node else root)
              && t.nodes == InsertAt(shape.nodes, SlotLo(shape.at, slot), node)
    {
      LeafKeepsShape(shape, slot, node);
    }

    /** Links a leaf into an empty slot. */
    method Hang(slot: Slot<D>, node: Node<D>)
      requires Linked() && ChildSlot(slot) && Deref(slot) == null && SlotLo(shape.at, slot) <= |values|
      requires node !in repr && node.parent == Owner(slot) && node.left == null && node.right == null
      modifies this, repr
      ensures Linked() && destroyed == old(destroyed) && repr == old(repr) + {node}
      ensures shape.nodes == InsertAt(old(shape.nodes), old(SlotLo(shape.at, slot)), node)
      ensures slot.Left? ==> slot.owner.left == node && slot.owner.right == old(slot.owner.right)
      ensures slot.Right? ==> slot.owner.right == node && slot.owner.left == old(slot.owner.left)
      ensures values == InsertAt(old(values), old(SlotLo(shape.at, slot)), node.userptr)
    {
      hide Linked, Shaped, Mirrors, Carries, AfterLeaf, WithLeaf, SlotLo;
      HangFacts(slot, node);
      ghost var t, vs := AfterLeaf(shape, slot, node), InsertAt(values, SlotLo(shape.at, slot), node.userptr);
      LinkLeaf(slot, node, SlotLo(shape.at, slot));
      len := len + 1;
      Adopt(t, vs);
    }

    /** `insert_node`: hang a new node on an empty slot. */
    method InsertNode(slot: Slot<D>, parent: Node?<D>, data: D)
      requires Linked() && ChildSlot(slot) && Deref(slot) == null && parent == Owner(slot)
      requires SlotLo(shape.at, slot) <= |values|
      modifies this, repr
      ensures Linked() && destroyed == old(destroyed) && fresh(repr - old(repr))
      ensures values == InsertAt(old(values), old(SlotLo(shape.at, slot)), data)
    {
      var node := new Node(data, parent);
      Hang(slot, node);
    }

    /** `m_bst_insert`: an element that compares equal to a stored one is refused. */
    method Insert(data: D) returns (ret: Status)
      requires Valid()
      modifies this, repr
      ensures Valid() && destroyed == old(destroyed) && fresh(repr - old(repr))
      ensures ret == if exists i :: 0 <= i < |old(values)| && cmp(data, old(values)[i]) == 0 then Exists else Ok
      ensures ret == Exists ==> values == old(values)
      ensures ret == Ok ==> exists k :: 0 <= k <= |old(values)| && values == InsertAt(old(values), k, data)
    {
      var slot, parent := BstFind(data);
      if Deref(slot) != null {
        ret := Exists;
      } else {
        ghost var k := SlotLo(shape.at, slot);
        SortedAfterInsert(cmp, values, k, data);
        InsertNode(slot, parent, data);
        ret := Ok;
      }
    }

    // ---- removal ---------------------------------------------------------------------

    lemma MirrorsPart(m: map<Node<D>, Cell<D>>, part: map<Node<D>, Cell<D>>)
      requires Mirrors(m) && forall n | n in part :: n in m && m[n] == part[n]
      ensures Mirrors(part)
    {}

    lemma CarriesRemoved(ns: seq<Node<D>>, vs: seq<D>, k: nat)
      requires Carries(ns, vs) && k < |ns|
      ensures Carries(RemoveAt(ns, k), RemoveAt(vs, k))
    {}

    /** `c->parent = p` */
    method SetParent(c: Node<D>, p: Node?<D>, ghost m: map<Node<D>, Cell<D>>)
      requires c in m && Mirrors(m) && Carries(shape.nodes, values)
      modifies c`parent
      ensures Mirrors(m[c := m[c].(parent := p)]) && Carries(shape.nodes, values)
    {
      c.parent := p;
    }

    /** `*slot = c; c->parent = x->parent` for the only child `c` of the node `x` in the slot. */
    method LinkAround(slot: Slot<D>, x: Node<D>, c: Node?<D>, ghost p: nat)
      requires ChildSlot(slot) && repr == shape.mem.Keys && Mirrors(shape.mem) && Carries(shape.nodes, values)
      requires x in repr && (!slot.Root? ==> slot.owner != x) && c == OnlyChild(shape.mem, x) && c != x
      requires (c != null ==> c in repr)
      requires p < |shape.nodes|
      modifies this`root, if slot.Root? then {} else {slot.owner}, if c == null then {} else {c}
      ensures root == if slot.Root? then c else old(root)
      ensures Mirrors(Unlinked(shape.mem, slot, x)) && Unlinked(shape.mem, slot, x).Keys == repr - {x}
      ensures Carries(RemoveAt(shape.nodes, p), RemoveAt(values, p))
    {
      var up := x.parent;
      LinksAround(shape.mem, slot, x);
      hide Mirrors, Carries, Unlinked, BstShape.Linked;
      SetSlot(slot, c);
      ghost var m := BstShape.Linked(shape.mem, slot, c);
      if c != null {
        SetParent(c, up, m);
        m := m[c := m[c].(parent := up)];
      }
      MirrorsPart(m, Unlinked(shape.mem, slot, x));
      CarriesRemoved(shape.nodes, values, p);
    }

    lemma UnlinkReady(slot: Slot<D>, node: Node<D>)
      requires Linked() && ChildSlot(slot) && Deref(slot) == node && (node.left == null || node.right == null)
      requires node in repr
      ensures repr == shape.mem.Keys == shape.at.Keys && Mirrors(shape.mem) && Carries(shape.nodes, values)
      ensures len == |shape.nodes| == |values| && (!slot.Root? ==> slot.owner != node)
      ensures var p := shape.at[node].pos; p < len && shape.nodes[p] == node && values[p] == node.userptr
      ensures var c := OnlyChild(shape.mem, node);
              && c == (if node.left != null then node.left else node.right) && c != node && (c != null ==> c in repr)
      ensures var t := AfterUnlink(shape, slot, node);
              && Shaped(t) && t.mem == Unlinked(shape.mem, slot, node)
              && t.nodes == RemoveAt(shape.nodes, shape.at[node].pos)
              && t.root == if slot.Root? then OnlyChild(shape.mem, node) else root
    {
      UnlinkFacts(shape, slot, node);
    }

    /** The first case of `remove_node`: a node with at most one child is taken out and freed. */
    method Unlink(slot: Slot<D>, node: Node<D>, ghost p: nat)
      requires Linked() && ChildSlot(slot) && Deref(slot) == node && (node.left == null || node.right == null)
      requires node in repr && node in shape.at && p == shape.at[node].pos < |shape.nodes| == |values|
      modifies this, repr
      ensures Linked() && repr == old(repr) - {node}
      ensures shape.nodes == RemoveAt(old(shape.nodes), p) && values == RemoveAt(old(values), p)
      ensures destroyed == old(destroyed) + [old(values)[p]] && old(shape.nodes)[p] == node
    {
      hide Linked, Shaped, Mirrors, Carries, AfterUnlink, Unlinked, OnlyChild;
      UnlinkReady(slot, node);
      ghost var t, vs := AfterUnlink(shape, slot, node), RemoveAt(values, p);
      LinkAround(slot, node, if node.left != null then node.left else node.right, p);
      destroyed := destroyed + [node.userptr];
      len := len - 1;
      Adopt(t, vs);
    }

    lemma RemoveReady(slot: Slot<D>, node: Node<D>)
      requires Linked() && ChildSlot(slot) && Deref(slot) == node
      ensures node in repr && node in shape.at && repr == shape.mem.Keys == shape.at.Keys
      ensures len == |shape.nodes| == |values|
      ensures shape.root == root && Shaped(shape) && Mirrors(shape.mem) && Carries(shape.nodes, values)
      ensures shape.at[node].pos < len && shape.nodes[shape.at[node].pos] == node
      ensures node.right != null ==> SlotLo(shape.at, Right(node)) == shape.at[node].pos + 1 < len
    {
      SlotFacts(shape, slot);
      SlotFacts(shape, Right(node));
    }

    /** `node->userptr = data` */
    method SetData(node: Node<D>, data: D, ghost p: nat)
      requires Linked() && p < |shape.nodes| == |values| && node in repr && shape.nodes[p] == node
      modifies node`userptr, this`values
      ensures Linked() && values == old(values)[p := data] && node.left == old(node.left)
      ensures node.right == old(node.right)
    {
      node.userptr := data;
      values := values[p := data];
    }

    /** The place whose node `remove_node` frees when it removes the element at place `p`. */
    function Freed(p: nat, two: bool): nat {
      if two then p + 1 else p
    }

    /** `remove_node`: the element in the slot goes. With two children its node survives and takes over
        the data of its successor, whose node is freed instead; the destructor is then called on the
        data that was taken over. */
    method RemoveNode(slot: Slot<D>, ghost p: nat, ghost two: bool) returns (ret: Status)
      requires Linked() && ChildSlot(slot) && Deref(slot) != null && Deref(slot) in repr && Deref(slot) in shape.at
      requires p == shape.at[Deref(slot)].pos && two == (Deref(slot).left != null && Deref(slot).right != null)
      modifies this, repr
      ensures ret == Ok && Linked() && p < |old(values)| == |old(shape.nodes)| && (two ==> p + 1 < |old(values)|)
      ensures values == RemoveAt(old(values), p)
      ensures shape.nodes == RemoveAt(old(shape.nodes), Freed(p, two))
      ensures repr == old(repr) - {old(shape.nodes)[Freed(p, two)]}
      ensures destroyed == old(destroyed) + [old(values)[Freed(p, two)]]
      decreases two
    {
      hide Linked, Shaped, Mirrors, Carries;
      var node := Deref(slot);
      RemoveReady(slot, node);
      if node.left == null || node.right == null {
        Unlink(slot, node, p);
        return Ok;
      }
      var tmp := FindMin(Right(node));
      var data := Deref(tmp).userptr;
      assert data == values[p + 1] by { CarriesAt(p + 1); }
      SetData(node, data, p);
      ret := RemoveNode(tmp, p + 1, false);
    }

    lemma CarriesAt(i: nat)
      requires Linked() && i < |shape.nodes|
      ensures |shape.nodes| == |values| && shape.nodes[i].userptr == values[i]
    {}

    lemma InRepr(i: nat)
      requires Linked() && i < |shape.nodes|
      ensures |shape.nodes| == |values| && shape.nodes[i] in repr && shape.nodes[i] in shape.at
      ensures shape.at[shape.nodes[i]].pos == i
      ensures shape.nodes[i].userptr == values[i]
      ensures i == 0 ==> shape.nodes[i].left == null
    {
      var n := shape.nodes[i];
      assert CellOk(shape.mem, shape.at, shape.nodes, shape.root, n);
      if n.left != null {
        assert CellOk(shape.mem, shape.at, shape.nodes, shape.root, n.left);
      }
    }

    lemma EmptyRoot()
      requires Linked()
      ensures |shape.nodes| == |values| && (root == null <==> |shape.nodes| == 0)
      ensures root != null ==> SlotLo(shape.at, Root) == 0
    {
      SlotFacts(shape, Root);
    }

    lemma Length()
      requires Linked()
      ensures len == |values|
    {}

    /** The elements that the subtree of a node covers. */
    ghost function Covered(n: Node?<D>): seq<D>
      requires Linked() && (n != null ==> n in repr)
      reads this, repr
    {
      if n == null then [] else
        SubtreeFacts(n);
        values[shape.at[n].lo..shape.at[n].hi]
    }

    ghost function Span(n: Node?<D>): nat
      requires Linked() && (n != null ==> n in repr)
      reads this, repr
    {
      if n == null then 0 else
        SubtreeFacts(n);
        shape.at[n].hi - shape.at[n].lo
    }

    lemma SubtreeFacts(n: Node<D>)
      requires Linked() && n in repr
      ensures n in shape.at && shape.at[n].lo <= shape.at[n].pos < shape.at[n].hi <= |values|
      ensures values[shape.at[n].pos] == n.userptr
      ensures n.left != null ==> n.left in repr && n.left in shape.at
      ensures n.left != null ==> shape.at[n.left].lo == shape.at[n].lo && shape.at[n.left].hi == shape.at[n].pos
      ensures n.left == null ==> shape.at[n].lo == shape.at[n].pos
      ensures n.right != null ==> n.right in repr && n.right in shape.at
      ensures n.right != null ==> shape.at[n.right].lo == shape.at[n].pos + 1 && shape.at[n.right].hi == shape.at[n].hi
      ensures n.right == null ==> shape.at[n].hi == shape.at[n].pos + 1
    {
      assert CellOk(shape.mem, shape.at, shape.nodes, shape.root, n);
    }

    /** In-order: a subtree covers its left subtree, its own element and its right subtree. */
    lemma CoveredSplit(n: Node<D>)
      requires Linked() && n in repr
      ensures (n.left != null ==> n.left in repr) && (n.right != null ==> n.right in repr)
      ensures Covered(n) == Covered(n.left) + ([n.userptr] + Covered(n.right))
    {
      hide Linked;
      SubtreeFacts(n);
      var p := shape.at[n];
      assert values[p.lo..p.hi] == values[p.lo..p.pos] + ([values[p.pos]] + values[p.pos + 1..p.hi]);
      CoveredIs(n, p.lo, p.hi);
      CoveredIs(n.left, p.lo, p.pos);
      CoveredIs(n.right, p.pos + 1, p.hi);
    }

    lemma CoveredIs(n: Node?<D>, lo: nat, hi: nat)
      requires Linked() && lo <= hi <= |values| && (n == null ==> lo == hi)
      requires n != null ==> n in repr && n in shape.at && shape.at[n].lo == lo && shape.at[n].hi == hi
      ensures Covered(n) == values[lo..hi]
    {}

    lemma CoveredAll()
      requires Linked()
      ensures (root != null ==> root in repr) && Covered(root) == values
    {
      SlotFacts(shape, Root);
    }

    /** A node is held by one of its parent's pointers, or by the root pointer. */
    lemma UpAt(n: Node<D>)
      requires Linked() && n in repr
      ensures if n.parent == null then root == n else n.parent in repr && (n.parent.left == n || n.parent.right == n)
    {
      assert CellOk(shape.mem, shape.at, shape.nodes, shape.root, n);
    }

    /** What the destructor gets when the element at place `p` is removed: the element itself, or its
        successor, which stays, when the node has two children. */
    ghost function Lost(p: nat): D
      requires Linked() && p < |values|
      reads this, repr
    {
      InRepr(p);
      var n := shape.nodes[p];
      if n.left != null && n.right != null then
        SubtreeFacts(n);
        SubtreeFacts(n.right);
        values[p + 1]
      else values[p]
    }

    lemma LostIs(p: nat, two: bool)
      requires Linked() && p < |shape.nodes| && shape.nodes[p] in repr && (two ==> p + 1 < |values|)
      requires two == (shape.nodes[p].left != null && shape.nodes[p].right != null)
      ensures p < |values| && Lost(p) == values[Freed(p, two)]
    {}

    /** `m_bst_remove`: the equal element goes, and only it, but it need not be the one that is destroyed. */
    method Remove(data: D) returns (ret: Status)
      requires Valid()
      modifies this, repr
      ensures Valid()
      ensures ret == if |old(values)| == 0 then Invalid
                     else if exists i :: 0 <= i < |old(values)| && cmp(data, old(values)[i]) == 0 then Ok else NoEntry
      ensures ret != Ok ==> values == old(values) && destroyed == old(destroyed)
      ensures ret == Ok ==> exists p :: 0 <= p < |old(values)| && cmp(data, old(values)[p]) == 0
                                     && values == RemoveAt(old(values), p)
                                     && destroyed == old(destroyed) + [old(Lost(p))]
      ensures forall i | 0 <= i < |values| :: cmp(data, values[i]) != 0
    {
      hide Linked, Sorted, TotalOrder, Lost;
      Length();
      if len == 0 {
        return Invalid;
      }
      var slot, _ := BstFind(data);
      var node := Deref(slot);
      if node == null {
        return NoEntry;
      }
      RemoveReady(slot, node);
      ghost var p, two := shape.at[node].pos, node.left != null && node.right != null;
      EqualIsUnique(cmp, values, data, p);
      SortedAfterRemove(cmp, values, p);
      ghost var lost := Lost(p);
      assert two ==> p + 1 < |values|;
      LostIs(p, two);
      ret := RemoveNode(slot, p, two);
      assert destroyed == old(destroyed) + [lost];
    }
  }

  const DIFFERENCE: (int, int) -> int := (a: int, b: int) => a - b

  method OneNode() returns (tree: Tree<int>, two: Node<int>)
    ensures fresh(tree) && fresh(tree.repr) && tree.cmp == DIFFERENCE && tree.destroyed == []
    ensures tree.Linked() && tree.shape.nodes == [two] && tree.values == [2]
    ensures two.left == null && two.right == null
  {
    hide Tree.Linked;
    tree := new Tree(DIFFERENCE);
    two := new Node(2, null);
    tree.EmptyRoot();
    tree.Hang(Root, two);
    assert tree.values == [2] && tree.shape.nodes == [two];
  }

  /** The tree with 2 above 1. */
  method TwoNodes() returns (tree: Tree<int>, one: Node<int>, two: Node<int>)
    ensures fresh(tree) && fresh(tree.repr) && tree.cmp == DIFFERENCE && tree.destroyed == []
    ensures tree.Linked() && tree.shape.nodes == [one, two] && tree.values == [1, 2]
    ensures two.left == one && two.right == null
  {
    hide Tree.Linked;
    tree, two := OneNode();
    one := new Node(1, two);
    tree.InRepr(0);
    tree.SubtreeFacts(two);
    tree.Hang(Left(two), one);
    assert tree.values == [1, 2] && tree.shape.nodes == [one, two];
  }

  /** The tree with 2 above 1 and 3. */
  method ThreeNodes() returns (tree: Tree<int>, one: Node<int>, two: Node<int>, three: Node<int>)
    ensures fresh(tree) && fresh(tree.repr) && tree.cmp == DIFFERENCE && tree.destroyed == []
    ensures tree.Linked() && tree.shape.nodes == [one, two, three] && tree.values == [1, 2, 3]
    ensures two.left == one && two.right == three
  {
    hide Tree.Linked;
    tree, one, two := TwoNodes();
    three := new Node(3, two);
    tree.InRepr(1);
    tree.SubtreeFacts(two);
    tree.Hang(Right(two), three);
    assert tree.values == [1, 2, 3] && tree.shape.nodes == [one, two, three];
  }

  lemma DifferenceOrders()
    ensures TotalOrder(DIFFERENCE) && Sorted(DIFFERENCE, [1, 2, 3])
  {}

  lemma OnlyTwo(p: nat)
    requires p < 3 && DIFFERENCE(2, [1, 2, 3][p]) == 0
    ensures p == 1 && RemoveAt([1, 2, 3], p) == [1, 3]
  {}

  /** There, removing 2 destroys 3, which stays in the tree. */
  method RemovalDestroysSuccessor() returns (tree: Tree<int>)
    ensures tree.Valid() && tree.values == [1, 3] && tree.destroyed == [3]
  {
    hide Tree.Linked, TotalOrder, Sorted, RemoveAt, Tree.Lost;
    var one, two, three;
    tree, one, two, three := ThreeNodes();
    DifferenceOrders();
    tree.InRepr(1);
    tree.LostIs(1, true);
    label Before:
    var _ := tree.Remove(2);
    ghost var p :| 0 <= p < 3 && DIFFERENCE(2, [1, 2, 3][p]) == 0 && tree.values == RemoveAt([1, 2, 3], p)
                   && tree.destroyed == [old@Before(tree.Lost(p))];
    OnlyTwo(p);
  }
}
