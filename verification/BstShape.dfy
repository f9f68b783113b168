/** The links of a search tree as a value, and what hanging on a leaf and unlinking a node do to
    them. Nodes are numbered in order; a subtree covers an interval of places. */
module BstShape {
  import opened Collections

  class Node<D(!new)> {
    var userptr: D
    var parent: Node?<D>
    var left: Node?<D>
    var right: Node?<D>

    constructor (userptr: D, parent: Node?<D>)
      ensures this.userptr == userptr && this.parent == parent && left == null && right == null
    {
      this.userptr := userptr;
      this.parent := parent;
      left, right := null, null;
    }
  }

  datatype Cell<!D(!new)> = Cell(parent: Node?<D>, left: Node?<D>, right: Node?<D>)

  /** A node has place `pos`, its subtree the places `lo`, ..., `hi - 1`. */
  datatype Place = Place(lo: nat, pos: nat, hi: nat)

  /** A `bst_node **`: the address of the root pointer or of a pointer inside a node. */
  datatype Slot<!D(!new)> = Root | Left(owner: Node<D>) | Right(owner: Node<D>) | Parent(owner: Node<D>)

  // ---- well-formed links -----------------------------------------------------------

  ghost predicate PlaceOk<D(!new)>(at: map<Node<D>, Place>, nodes: seq<Node<D>>, n: Node<D>)
    requires n in at
  {
    at[n].lo <= at[n].pos < at[n].hi <= |nodes| && nodes[at[n].pos] == n
  }

  ghost predicate LeftOk<D(!new)>(mem: map<Node<D>, Cell<D>>, at: map<Node<D>, Place>, n: Node<D>)
    requires n in mem && n in at
  {
    var c := mem[n].left;
    if c == null then at[n].lo == at[n].pos
    else c in mem && c in at && mem[c].parent == n && at[c].lo == at[n].lo && at[c].hi == at[n].pos
  }

  ghost predicate RightOk<D(!new)>(mem: map<Node<D>, Cell<D>>, at: map<Node<D>, Place>, n: Node<D>)
    requires n in mem && n in at
  {
    var c := mem[n].right;
    if c == null then at[n].pos + 1 == at[n].hi
    else c in mem && c in at && mem[c].parent == n && at[c].lo == at[n].pos + 1 && at[c].hi == at[n].hi
  }

  ghost predicate UpOk<D(!new)>(mem: map<Node<D>, Cell<D>>, root: Node?<D>, n: Node<D>)
    requires n in mem
  {
    var c := mem[n].parent;
    if c == null then n == root else c in mem && (mem[c].left == n || mem[c].right == n)
  }

  ghost predicate CellOk<D(!new)>(
      mem: map<Node<D>, Cell<D>>, at: map<Node<D>, Place>, nodes: seq<Node<D>>, root: Node?<D>, n: Node<D>)
    requires n in mem && n in at
  {
    PlaceOk(at, nodes, n) && LeftOk(mem, at, n) && RightOk(mem, at, n) && UpOk(mem, root, n)
  }

  ghost predicate Numbered<D(!new)>(at: map<Node<D>, Place>, nodes: seq<Node<D>>) {
    forall i | 0 <= i < |nodes| :: nodes[i] in at && at[nodes[i]].pos == i
  }

  ghost predicate RootOk<D(!new)>(
      mem: map<Node<D>, Cell<D>>, at: map<Node<D>, Place>, nodes: seq<Node<D>>, root: Node?<D>) {
    if root == null then |nodes| == 0
    else root in mem && root in at && mem[root].parent == null && at[root].lo == 0 && at[root].hi == |nodes|
  }

  /** A whole tree as a value: the links, the places, the nodes in order and the root pointer. */
  datatype Shape<!D(!new)> = Shape(
    mem: map<Node<D>, Cell<D>>, at: map<Node<D>, Place>, nodes: seq<Node<D>>, root: Node?<D>)

  /** Parent and child links agree, there is no cycle, and every node is below the root. */
  ghost predicate Shaped<D(!new)>(t: Shape<D>) {
    match t
    case Shape(mem, at, nodes, root) =>
      && mem.Keys == at.Keys && Numbered(at, nodes) && RootOk(mem, at, nodes, root)
      && forall n {:trigger CellOk(mem, at, nodes, root, n)} | n in mem :: CellOk(mem, at, nodes, root, n)
  }

  /** What `*slot = to` does to the links. */
  ghost function Linked<D(!new)>(mem: map<Node<D>, Cell<D>>, slot: Slot<D>, to: Node?<D>): map<Node<D>, Cell<D>>
    requires slot.Root? || (slot.owner in mem && !slot.Parent?)
  {
    match slot
    case Root => mem
    case Left(n) => mem[n := mem[n].(left := to)]
    case Right(n) => mem[n := mem[n].(right := to)]
  }

  ghost function Held<D(!new)>(mem: map<Node<D>, Cell<D>>, root: Node?<D>, slot: Slot<D>): Node?<D>
    requires slot.Root? || slot.owner in mem
  {
    match slot
    case Root => root
    case Left(n) => mem[n].left
    case Right(n) => mem[n].right
    case Parent(n) => mem[n].parent
  }

  ghost function Owner<D(!new)>(slot: Slot<D>): Node?<D> {
    if slot.Root? then null else slot.owner
  }

  /** The first place below a slot through which a parent sees its child, and the one after the last. */
  ghost function SlotLo<D(!new)>(at: map<Node<D>, Place>, slot: Slot<D>): nat
    requires slot.Root? || (slot.owner in at && !slot.Parent?)
  {
    match slot
    case Root => 0
    case Left(n) => at[n].lo
    case Right(n) => at[n].pos + 1
  }

  ghost function SlotHi<D(!new)>(at: map<Node<D>, Place>, nodes: seq<Node<D>>, slot: Slot<D>): nat
    requires slot.Root? || (slot.owner in at && !slot.Parent?)
  {
    match slot
    case Root => |nodes|
    case Left(n) => at[n].pos
    case Right(n) => at[n].hi
  }

  lemma SlotFacts<D(!new)>(t: Shape<D>, slot: Slot<D>)
    requires Shaped(t) && (slot.Root? || (slot.owner in t.mem && !slot.Parent?))
    ensures SlotLo(t.at, slot) <= SlotHi(t.at, t.nodes, slot) <= |t.nodes|
    ensures Held(t.mem, t.root, slot) == null <==> SlotLo(t.at, slot) == SlotHi(t.at, t.nodes, slot)
    ensures var n := Held(t.mem, t.root, slot); n != null ==>
            && n in t.mem && CellOk(t.mem, t.at, t.nodes, t.root, n) && t.mem[n].parent == Owner(slot)
            && t.at[n].lo == SlotLo(t.at, slot) && t.at[n].hi == SlotHi(t.at, t.nodes, slot)
            && t.at[n].lo <= t.at[n].pos < t.at[n].hi && t.nodes[t.at[n].pos] == n
            && (t.mem[n].left == null ==> t.at[n].pos == t.at[n].lo)
  {
    if !slot.Root? {
      assert CellOk(t.mem, t.at, t.nodes, t.root, slot.owner);
    }
    var n := Held(t.mem, t.root, slot);
    if n != null {
      assert CellOk(t.mem, t.at, t.nodes, t.root, n);
    }
  }

  lemma PlacesBounded<D(!new)>(t: Shape<D>)
    requires Shaped(t)
    ensures forall n | n in t.mem :: t.at[n].pos < |t.nodes| && t.nodes[t.at[n].pos] == n
  {
    forall n | n in t.mem ensures t.at[n].pos < |t.nodes| && t.nodes[t.at[n].pos] == n {
      assert CellOk(t.mem, t.at, t.nodes, t.root, n);
    }
  }

  // ---- hanging on a leaf -----------------------------------------------------------

  /** Where a place moves when a node is added at place `k`. `below` says how a boundary that lies
      exactly at `k` moves: below a right pointer the subtree to its left grows. */
  ghost function Opened(k: nat, below: bool, p: Place): Place {
    Place(if p.lo > k || (below && p.lo == k) then p.lo + 1 else p.lo,
          if p.pos >= k then p.pos + 1 else p.pos,
          if p.hi > k || (below && p.hi == k) then p.hi + 1 else p.hi)
  }

  ghost function WithLeaf<D(!new)>(mem: map<Node<D>, Cell<D>>, slot: Slot<D>, node: Node<D>): map<Node<D>, Cell<D>>
    requires slot.Root? || (slot.owner in mem && !slot.Parent?)
  {
    Linked(mem, slot, node)[node := Cell(Owner(slot), null, null)]
  }

  ghost function LeafPlaces<D(!new)>(
      at: map<Node<D>, Place>, slot: Slot<D>, k: nat, node: Node<D>): map<Node<D>, Place> {
    map n | n in at.Keys + {node} :: if n == node then Place(k, k, k + 1) else Opened(k, slot.Right?, at[n])
  }

  /** The tree with `node` hung on an empty slot. */
  ghost function AfterLeaf<D(!new)>(t: Shape<D>, slot: Slot<D>, node: Node<D>): Shape<D>
    requires t.mem.Keys == t.at.Keys && (slot.Root? || (slot.owner in t.mem && !slot.Parent?))
    requires SlotLo(t.at, slot) <= |t.nodes|
  {
    var k := SlotLo(t.at, slot);
    Shape(WithLeaf(t.mem, slot, node), LeafPlaces(t.at, slot, k, node), InsertAt(t.nodes, k, node),
          if slot.Root? then node else t.root)
  }

  lemma LeafLeft<D(!new)>(
      mem: map<Node<D>, Cell<D>>, at: map<Node<D>, Place>, nodes: seq<Node<D>>, slot: Slot<D>, node: Node<D>,
      n: Node<D>)
    requires mem.Keys == at.Keys && node !in mem && !slot.Root? && !slot.Parent? && slot.owner in mem && n in mem
    requires Held(mem, null, slot) == null && LeftOk(mem, at, slot.owner) && RightOk(mem, at, slot.owner)
    requires PlaceOk(at, nodes, slot.owner) && PlaceOk(at, nodes, n) && LeftOk(mem, at, n)
    ensures LeftOk(WithLeaf(mem, slot, node), LeafPlaces(at, slot, SlotLo(at, slot), node), n)
  {}

  lemma LeafRight<D(!new)>(
      mem: map<Node<D>, Cell<D>>, at: map<Node<D>, Place>, nodes: seq<Node<D>>, slot: Slot<D>, node: Node<D>,
      n: Node<D>)
    requires mem.Keys == at.Keys && node !in mem && !slot.Root? && !slot.Parent? && slot.owner in mem && n in mem
    requires Held(mem, null, slot) == null && LeftOk(mem, at, slot.owner) && RightOk(mem, at, slot.owner)
    requires PlaceOk(at, nodes, slot.owner) && PlaceOk(at, nodes, n) && RightOk(mem, at, n)
    ensures RightOk(WithLeaf(mem, slot, node), LeafPlaces(at, slot, SlotLo(at, slot), node), n)
  {}

  lemma LeafPlace<D(!new)>(
      at: map<Node<D>, Place>, nodes: seq<Node<D>>, slot: Slot<D>, k: nat, node: Node<D>, n: Node<D>)
    requires k <= |nodes| && n in at && PlaceOk(at, nodes, n) && n != node
    ensures PlaceOk(LeafPlaces(at, slot, k, node), InsertAt(nodes, k, node), n)
  {}

  lemma LeafUp<D(!new)>(mem: map<Node<D>, Cell<D>>, root: Node?<D>, slot: Slot<D>, node: Node<D>, n: Node<D>)
    requires node !in mem && !slot.Root? && !slot.Parent? && slot.owner in mem && n in mem
    requires Held(mem, null, slot) == null && UpOk(mem, root, n)
    ensures UpOk(WithLeaf(mem, slot, node), root, n)
  {}

  /** Hanging a new node on an empty slot keeps the shape; the node gets the place of the slot. */
  lemma LeafKeepsShape<D(!new)>(t: Shape<D>, slot: Slot<D>, node: Node<D>)
    requires Shaped(t) && node !in t.mem && (slot.Root? || (slot.owner in t.mem && !slot.Parent?))
    requires Held(t.mem, t.root, slot) == null
    ensures SlotLo(t.at, slot) <= |t.nodes|
    ensures Shaped(AfterLeaf(t, slot, node))
  {
    hide PlaceOk, LeftOk, RightOk, UpOk, Numbered, RootOk, CellOk, Held;
    SlotFacts(t, slot);
    if slot.Root? {
      assert t.root == null by { RootHeld(t); }
      FirstNode(t, node);
    } else {
      var t' := AfterLeaf(t, slot, node);
      LeafFacts(t, slot, node);
      forall n | n in t'.mem ensures CellOk(t'.mem, t'.at, t'.nodes, t'.root, n) {
        if n != node {
          LeafCell(t, slot, node, n);
        }
      }
    }
  }

  lemma RootHeld<D(!new)>(t: Shape<D>)
    ensures Held(t.mem, t.root, Root) == t.root
  {}

  lemma LeafFacts<D(!new)>(t: Shape<D>, slot: Slot<D>, node: Node<D>)
    requires Shaped(t) && node !in t.mem && !slot.Root? && slot.owner in t.mem && !slot.Parent?
    requires Held(t.mem, t.root, slot) == null && SlotLo(t.at, slot) <= |t.nodes|
    ensures var t' := AfterLeaf(t, slot, node);
            t'.mem.Keys == t'.at.Keys && Numbered(t'.at, t'.nodes) && RootOk(t'.mem, t'.at, t'.nodes, t'.root)
            && CellOk(t'.mem, t'.at, t'.nodes, t'.root, node)
  {
    assert CellOk(t.mem, t.at, t.nodes, t.root, slot.owner);
    LeafNumbered(t.at, t.nodes, slot, SlotLo(t.at, slot), node);
    LeafRoot(t.mem, t.at, t.nodes, t.root, slot, node);
  }

  lemma LeafCell<D(!new)>(t: Shape<D>, slot: Slot<D>, node: Node<D>, n: Node<D>)
    requires Shaped(t) && node !in t.mem && !slot.Root? && slot.owner in t.mem && !slot.Parent? && n in t.mem
    requires Held(t.mem, t.root, slot) == null && SlotLo(t.at, slot) <= |t.nodes|
    ensures var t' := AfterLeaf(t, slot, node); CellOk(t'.mem, t'.at, t'.nodes, t'.root, n)
  {
    assert CellOk(t.mem, t.at, t.nodes, t.root, slot.owner);
    assert CellOk(t.mem, t.at, t.nodes, t.root, n);
    assert Held(t.mem, null, slot) == null;
    hide LeafPlaces, WithLeaf, Held, Numbered, RootOk;
    LeafPlace(t.at, t.nodes, slot, SlotLo(t.at, slot), node, n);
    LeafLeft(t.mem, t.at, t.nodes, slot, node, n);
    LeafRight(t.mem, t.at, t.nodes, slot, node, n);
    LeafUp(t.mem, t.root, slot, node, n);
  }

  lemma FirstNode<D(!new)>(t: Shape<D>, node: Node<D>)
    requires Shaped(t) && t.root == null
    ensures Shaped(
              Shape(WithLeaf(t.mem, Root, node), LeafPlaces(t.at, Root, 0, node), InsertAt(t.nodes, 0, node), node))
  {
    PlacesBounded(t);
    assert CellOk(WithLeaf(t.mem, Root, node), LeafPlaces(t.at, Root, 0, node), InsertAt(t.nodes, 0, node), node, node);
  }

  lemma LeafNumbered<D(!new)>(at: map<Node<D>, Place>, nodes: seq<Node<D>>, slot: Slot<D>, k: nat, node: Node<D>)
    requires k <= |nodes| && Numbered(at, nodes) && node !in at
    ensures Numbered(LeafPlaces(at, slot, k, node), InsertAt(nodes, k, node))
  {}

  lemma LeafRoot<D(!new)>(
      mem: map<Node<D>, Cell<D>>, at: map<Node<D>, Place>, nodes: seq<Node<D>>, root: Node?<D>, slot: Slot<D>,
      node: Node<D>)
    requires mem.Keys == at.Keys && node !in mem && !slot.Root? && !slot.Parent? && slot.owner in mem
    requires RootOk(mem, at, nodes, root) && PlaceOk(at, nodes, slot.owner) && Held(mem, null, slot) == null
    requires LeftOk(mem, at, slot.owner) && RightOk(mem, at, slot.owner)
    ensures SlotLo(at, slot) <= |nodes|
    ensures var k := SlotLo(at, slot);
            RootOk(WithLeaf(mem, slot, node), LeafPlaces(at, slot, k, node), InsertAt(nodes, k, node), root)
  {}

  // ---- unlinking a node with at most one child -------------------------------------

  /** Where a place moves when the node at place `k` is taken out. */
  ghost function Closed(k: nat, p: Place): Place {
    Place(if p.lo > k then p.lo - 1 else p.lo,
          if p.pos > k then p.pos - 1 else p.pos,
          if p.hi > k then p.hi - 1 else p.hi)
  }

  ghost function OnlyChild<D(!new)>(mem: map<Node<D>, Cell<D>>, x: Node<D>): Node?<D>
    requires x in mem
  {
    if mem[x].left != null then mem[x].left else mem[x].right
  }

  /** The slot that held `x` now holds its only child, and the child's parent is that of `x`. */
  ghost function Unlinked<D(!new)>(mem: map<Node<D>, Cell<D>>, slot: Slot<D>, x: Node<D>): map<Node<D>, Cell<D>>
    requires x in mem && (slot.Root? || (slot.owner in mem && !slot.Parent?))
  {
    var c := OnlyChild(mem, x);
    map n | n in mem && n != x ::
      Cell(if n == c then mem[x].parent else mem[n].parent,
           if slot == Left(n) then c else mem[n].left,
           if slot == Right(n) then c else mem[n].right)
  }

  ghost function ClosedPlaces<D(!new)>(at: map<Node<D>, Place>, x: Node<D>): map<Node<D>, Place>
    requires x in at
  {
    map n | n in at && n != x :: Closed(at[x].pos, at[n])
  }

  /** The tree without the node `x` that the slot held. */
  ghost function AfterUnlink<D(!new)>(t: Shape<D>, slot: Slot<D>, x: Node<D>): Shape<D>
    requires t.mem.Keys == t.at.Keys && x in t.mem && (slot.Root? || (slot.owner in t.mem && !slot.Parent?))
    requires t.at[x].pos < |t.nodes|
  {
    Shape(Unlinked(t.mem, slot, x), ClosedPlaces(t.at, x), RemoveAt(t.nodes, t.at[x].pos),
          if slot.Root? then OnlyChild(t.mem, x) else t.root)
  }

  /** What the slot that holds `x` and `x` itself know of each other. */
  ghost predicate Holds<D(!new)>(
      mem: map<Node<D>, Cell<D>>, at: map<Node<D>, Place>, nodes: seq<Node<D>>, root: Node?<D>, slot: Slot<D>,
      x: Node<D>)
    requires mem.Keys == at.Keys
  {
    && x in mem && (slot.Root? || (slot.owner in mem && !slot.Parent? && slot.owner != x))
    && Held(mem, root, slot) == x && mem[x].parent == Owner(slot)
    && (mem[x].left == null || mem[x].right == null)
    && CellOk(mem, at, nodes, root, x) && at[x].lo == SlotLo(at, slot) && at[x].hi == SlotHi(at, nodes, slot)
    && (!slot.Root? ==> CellOk(mem, at, nodes, root, slot.owner))
  }

  lemma UnlinkPlace<D(!new)>(at: map<Node<D>, Place>, nodes: seq<Node<D>>, x: Node<D>, n: Node<D>)
    requires x in at && n in at && n != x && PlaceOk(at, nodes, x) && PlaceOk(at, nodes, n)
    ensures PlaceOk(ClosedPlaces(at, x), RemoveAt(nodes, at[x].pos), n)
  {}

  lemma UnlinkLeft<D(!new)>(
      mem: map<Node<D>, Cell<D>>, at: map<Node<D>, Place>, nodes: seq<Node<D>>, root: Node?<D>, slot: Slot<D>,
      x: Node<D>, n: Node<D>)
    requires mem.Keys == at.Keys && Holds(mem, at, nodes, root, slot, x)
    requires n in mem && n != x && PlaceOk(at, nodes, n) && LeftOk(mem, at, n)
    ensures LeftOk(Unlinked(mem, slot, x), ClosedPlaces(at, x), n)
  {}

  lemma UnlinkRight<D(!new)>(
      mem: map<Node<D>, Cell<D>>, at: map<Node<D>, Place>, nodes: seq<Node<D>>, root: Node?<D>, slot: Slot<D>,
      x: Node<D>, n: Node<D>)
    requires mem.Keys == at.Keys && Holds(mem, at, nodes, root, slot, x)
    requires n in mem && n != x && PlaceOk(at, nodes, n) && RightOk(mem, at, n)
    ensures RightOk(Unlinked(mem, slot, x), ClosedPlaces(at, x), n)
  {}

  lemma UnlinkUp<D(!new)>(
      mem: map<Node<D>, Cell<D>>, at: map<Node<D>, Place>, nodes: seq<Node<D>>, root: Node?<D>, slot: Slot<D>,
      x: Node<D>, n: Node<D>)
    requires mem.Keys == at.Keys && Holds(mem, at, nodes, root, slot, x)
    requires n in mem && n != x && UpOk(mem, root, n)
    ensures UpOk(Unlinked(mem, slot, x), if slot.Root? then OnlyChild(mem, x) else root, n)
  {}

  /** Unlinking a node keeps the shape; the order of the others is unchanged. */
  lemma UnlinkKeepsShape<D(!new)>(t: Shape<D>, slot: Slot<D>, x: Node<D>)
    requires Shaped(t) && (slot.Root? || (slot.owner in t.mem && !slot.Parent?))
    requires x in t.mem && Held(t.mem, t.root, slot) == x && (t.mem[x].left == null || t.mem[x].right == null)
    ensures t.at[x].pos < |t.nodes|
    ensures Shaped(AfterUnlink(t, slot, x))
  {
    SlotFacts(t, slot);
    if !slot.Root? {
      assert CellOk(t.mem, t.at, t.nodes, t.root, slot.owner);
    }
    assert Holds(t.mem, t.at, t.nodes, t.root, slot, x);
    UnlinkNumbered(t.at, t.nodes, x);
    UnlinkRoot(t.mem, t.at, t.nodes, t.root, slot, x);
    hide PlaceOk, LeftOk, RightOk, UpOk, Numbered, RootOk, Holds, CellOk, OnlyChild;
    var t' := AfterUnlink(t, slot, x);
    forall n | n in t'.mem ensures CellOk(t'.mem, t'.at, t'.nodes, t'.root, n) {
      UnlinkCell(t, slot, x, n);
    }
  }

  lemma UnlinkCell<D(!new)>(t: Shape<D>, slot: Slot<D>, x: Node<D>, n: Node<D>)
    requires Shaped(t) && Holds(t.mem, t.at, t.nodes, t.root, slot, x) && t.at[x].pos < |t.nodes|
    requires n in t.mem && n != x
    ensures var t' := AfterUnlink(t, slot, x); CellOk(t'.mem, t'.at, t'.nodes, t'.root, n)
  {
    assert CellOk(t.mem, t.at, t.nodes, t.root, n);
    UnlinkPlace(t.at, t.nodes, x, n);
    UnlinkLeft(t.mem, t.at, t.nodes, t.root, slot, x, n);
    UnlinkRight(t.mem, t.at, t.nodes, t.root, slot, x, n);
    UnlinkUp(t.mem, t.at, t.nodes, t.root, slot, x, n);
  }

  lemma UnlinkNumbered<D(!new)>(at: map<Node<D>, Place>, nodes: seq<Node<D>>, x: Node<D>)
    requires x in at && PlaceOk(at, nodes, x) && Numbered(at, nodes)
    ensures Numbered(ClosedPlaces(at, x), RemoveAt(nodes, at[x].pos))
  {}

  lemma UnlinkRoot<D(!new)>(
      mem: map<Node<D>, Cell<D>>, at: map<Node<D>, Place>, nodes: seq<Node<D>>, root: Node?<D>, slot: Slot<D>,
      x: Node<D>)
    requires mem.Keys == at.Keys && Holds(mem, at, nodes, root, slot, x) && RootOk(mem, at, nodes, root)
    ensures RootOk(Unlinked(mem, slot, x), ClosedPlaces(at, x), RemoveAt(nodes, at[x].pos),
                   if slot.Root? then OnlyChild(mem, x) else root)
  {}

  lemma UnlinkFacts<D(!new)>(t: Shape<D>, slot: Slot<D>, x: Node<D>)
    requires Shaped(t) && (slot.Root? || (slot.owner in t.mem && !slot.Parent?))
    requires x in t.mem && Held(t.mem, t.root, slot) == x && (t.mem[x].left == null || t.mem[x].right == null)
    ensures !slot.Root? ==> slot.owner != x
    ensures OnlyChild(t.mem, x) == if t.mem[x].left != null then t.mem[x].left else t.mem[x].right
    ensures OnlyChild(t.mem, x) != x && (OnlyChild(t.mem, x) != null ==> OnlyChild(t.mem, x) in t.mem)
    ensures t.at[x].pos < |t.nodes| && t.nodes[t.at[x].pos] == x
    ensures Shaped(AfterUnlink(t, slot, x))
  {
    assert CellOk(t.mem, t.at, t.nodes, t.root, x);
    if !slot.Root? {
      assert CellOk(t.mem, t.at, t.nodes, t.root, slot.owner);
    }
    UnlinkKeepsShape(t, slot, x);
  }

  /** Redirecting the slot and then the child's parent gives all links but those of `x`. */
  lemma LinksAround<D(!new)>(mem: map<Node<D>, Cell<D>>, slot: Slot<D>, x: Node<D>)
    requires x in mem && (slot.Root? || (slot.owner in mem && !slot.Parent? && slot.owner != x))
    requires OnlyChild(mem, x) != x && (OnlyChild(mem, x) != null ==> OnlyChild(mem, x) in mem)
    ensures Unlinked(mem, slot, x).Keys == mem.Keys - {x}
    ensures var c := OnlyChild(mem, x);
            var m := Linked(mem, slot, c);
            var m' := if c == null then m else m[c := m[c].(parent := mem[x].parent)];
            forall n | n in Unlinked(mem, slot, x) :: n in m' && m'[n] == Unlinked(mem, slot, x)[n]
  {}
}
