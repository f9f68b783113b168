/** The linked queue, and its iterator that may remove elements. */
module Queue {

  import opened Collections
  import opened Options

  class Elem<T> {
    var data: T
    var prev: Elem?<T>  // the element behind this one

    constructor (data: T)
      ensures this.data == data && prev == null
    {
      this.data, prev := data, null;
    }
  }

  ghost function DataOf<T>(cells: seq<Elem<T>>): (r: seq<T>)
    reads cells
    ensures |r| == |cells|
  {
    seq(|cells|, i requires 0 <= i < |cells| reads cells => cells[i].data)
  }

  ghost function LinkOf<T>(cells: seq<Elem<T>>, i: nat): Elem?<T>
    requires i <= |cells|
  {
    if i < |cells| then cells[i] else null
  }

  ghost predicate Distinct<T>(cells: seq<Elem<T>>) {
    forall i, j | 0 <= i < j < |cells| :: cells[i] != cells[j]
  }

  /** Each element leads to the next, except that the one before `k` leads past it; with `k` beyond the
      end there is no exception. */
  ghost predicate LinkedAround<T>(cells: seq<Elem<T>>, k: nat)
    reads cells
  {
    && (forall i | 0 <= i < |cells| && i + 1 != k :: cells[i].prev == LinkOf(cells, i + 1))
    && (0 < k < |cells| ==> cells[k - 1].prev == LinkOf(cells, k + 1))
  }

  ghost predicate Linked<T>(cells: seq<Elem<T>>)
    reads cells
  {
    forall i | 0 <= i < |cells| :: cells[i].prev == LinkOf(cells, i + 1)
  }

  /** Behind the last element comes another. */
  lemma AppendLinked<T>(cells: seq<Elem<T>>, e: Elem<T>)
    requires e.prev == null && e !in cells && Distinct(cells)
    requires forall i | 0 <= i < |cells| - 1 :: cells[i].prev == LinkOf(cells, i + 1)
    requires cells != [] ==> cells[|cells| - 1].prev == e
    ensures Linked(cells + [e]) && Distinct(cells + [e])
    ensures DataOf(cells + [e]) == DataOf(cells) + [e.data]
  {}

  lemma WithoutDistinct<T>(cells: seq<Elem<T>>, k: nat)
    requires k < |cells| && Distinct(cells)
    ensures Distinct(RemoveAt(cells, k))
  {
    var r := RemoveAt(cells, k);
    forall i, j | 0 <= i < j < |r|
      ensures r[i] != r[j]
    {
      assert r[i] == (if i < k then cells[i] else cells[i + 1]) && r[j] == if j < k then cells[j] else cells[j + 1];
    }
  }

  lemma WithoutLinked<T>(cells: seq<Elem<T>>, k: nat)
    requires k < |cells| && LinkedAround(cells, k)
    ensures Linked(RemoveAt(cells, k))
    ensures LinkOf(RemoveAt(cells, k), 0) == if k == 0 then LinkOf(cells, 1) else cells[0]
  {
    var r := RemoveAt(cells, k);
    forall i | 0 <= i < |r|
      ensures r[i].prev == LinkOf(r, i + 1)
    {
      assert i < |cells| - 1;
      var j := if i < k then i else i + 1;
      assert r[i] == cells[j];
      assert j + 1 != k ==> cells[j].prev == LinkOf(cells, j + 1);
    }
  }

  lemma WithoutData<T>(cells: seq<Elem<T>>, k: nat)
    requires k < |cells|
    ensures DataOf(RemoveAt(cells, k)) == RemoveAt(DataOf(cells), k)
  {
    var r := RemoveAt(cells, k);
    forall i | 0 <= i < |r|
      ensures DataOf(r)[i] == RemoveAt(DataOf(cells), k)[i]
    {
      assert r[i] == if i < k then cells[i] else cells[i + 1];
    }
  }

  class Queue<T> {
    var head: Elem?<T>
    var tail: Elem?<T>
    var len: nat
    ghost var cells: seq<Elem<T>>

    /** From the head, the elements are linked in order. */
    ghost predicate Chained()
      reads this, cells
    {
      head == LinkOf(cells, 0) && Linked(cells) && Distinct(cells) && len == |cells|
    }

    ghost predicate TailFits()
      reads this
    {
      tail == if cells == [] then null else cells[|cells| - 1]
    }

    ghost predicate Valid()
      reads this, cells
    {
      Chained() && TailFits()
    }

    ghost function Contents(): (r: seq<T>)
      reads this, cells
    {
      DataOf(cells)
    }

    constructor ()
      ensures Valid() && cells == [] && Contents() == []
    {
      head, tail, len, cells := null, null, 0, [];
    }

    /** `m_queue_enqueue`. Where the tail was lost (see the iterator's Remove) the element is counted,
        but never linked in. */
    method Enqueue(data: T)
      requires Chained() && (TailFits() || tail == null)
      modifies this, cells
      ensures old(TailFits()) ==> Valid() && Contents() == old(Contents()) + [data]
      ensures old(TailFits()) ==> exists e :: fresh(e) && cells == old(cells) + [e]
      ensures !old(TailFits()) ==> cells == old(cells) && Contents() == old(Contents()) && len == |cells| + 1
      ensures !old(TailFits()) ==> head == LinkOf(cells, 0) && Linked(cells)
    {
      hide DataOf, Linked, Distinct;
      var e := new Elem(data);
      len := len + 1;
      if tail != null {
        LinkBehind(e);
      } else if cells == [] {
        AppendLinked(cells, e);
      }
      tail := e;
      if head == null {
        head := tail;
      }
      if old(TailFits()) {
        cells := cells + [e];
      }
    }

    /** `tail->prev = e` */
    method LinkBehind(e: Elem<T>)
      requires tail != null && TailFits() && Linked(cells) && Distinct(cells) && e !in cells && e.prev == null
      modifies tail`prev
      ensures Linked(cells + [e]) && Distinct(cells + [e]) && DataOf(cells + [e]) == old(DataOf(cells)) + [e.data]
    {
      tail.prev := e;
      AppendLinked(cells, e);
    }

    /** `m_queue_dequeue` */
    method Dequeue() returns (r: Option<T>)
      requires Valid()
      modifies this
      ensures Valid()
      ensures old(cells) == [] ==> r == None && cells == []
      ensures old(cells) != [] ==> r == Some(old(Contents())[0]) && cells == old(cells)[1..]
      ensures old(cells) != [] ==> Contents() == old(Contents())[1..]
    {
      if len == 0 {
        return None;
      }
      var e := head;
      if tail == head {
        tail := null;
      }
      head := e.prev;
      len := len - 1;
      cells := cells[1..];
      return Some(e.data);
    }

    /** `m_queue_peek` */
    method Peek() returns (r: Option<T>)
      requires Valid()
      ensures r == if cells == [] then None else Some(Contents()[0])
    {
      r := if len == 0 then None else Some(head.data);
    }

    /** `m_queue_clear`: the destructor gets every element, first to last. */
    method Clear() returns (ghost destroyed: seq<T>)
      requires Valid()
      modifies this
      ensures Valid() && cells == [] && destroyed == old(Contents())
    {
      destroyed := [];
      ghost var k := 0;
      while len > 0
        invariant Valid() && k <= |old(cells)| && cells == old(cells)[k..] && destroyed == old(Contents())[..k]
        decreases len
      {
        var r := Dequeue();
        destroyed := destroyed + [r.value];
        k := k + 1;
      }
    }
  }

  class Itr<T> {
    const q: Queue<T>
    var slot: Elem?<T>  // whose link is followed; null for the queue's own head link
    var removed: bool
    ghost var k: nat    // the position that link leads to

    ghost predicate Valid()
      reads this, q, q.cells
    {
      && q.Chained() && k <= |q.cells|
      && slot == if k == 0 then null else q.cells[k - 1]
    }

    /** `m_queue_itr_new`, on a queue that is not empty */
    constructor (q: Queue<T>)
      requires q.Valid() && q.cells != []
      ensures this.q == q && Valid() && k == 0 && !removed
    {
      this.q, slot, removed, k := q, null, false, 0;
    }

    function Current(): Elem?<T>
      requires Valid()
      reads this, q, q.cells
      ensures Current() == LinkOf(q.cells, k)
    {
      if slot == null then q.head else slot.prev
    }

    /** `m_queue_itr_get_data` */
    function Get(): (data: T)
      requires Valid() && k < |q.cells| && !removed
      reads this, q, q.cells
      ensures data == q.Contents()[k]
    {
      Current().data
    }

    /** `m_queue_itr_next`: an iterator that has come to the end is freed. */
    method Next() returns (more: bool)
      requires Valid() && (removed || k < |q.cells|)
      modifies this
      ensures Valid() && !removed && k == old(if removed then k else k + 1)
      ensures more <==> k < |q.cells|
    {
      if !removed {
        slot := Current();
        k := k + 1;
      } else {
        removed := false;
      }
      more := Current() != null;
    }

    /** The link that is followed leads past the current element. */
    method Bypass()
      requires Valid() && k < |q.cells|
      modifies q`head, q.cells
      ensures q.head == if k == 0 then LinkOf(q.cells, 1) else q.cells[0]
      ensures LinkedAround(q.cells, k)
      ensures DataOf(q.cells) == old(DataOf(q.cells))
    {
      var tmp := Current();
      if slot == null {
        q.head := tmp.prev;
      } else {
        slot.prev := tmp.prev;
      }
    }

    /** So that element is out of the chain. */
    method Unchain()
      requires Valid() && k < |q.cells|
      modifies q`head, q`cells, q.cells
      ensures q.cells == RemoveAt(old(q.cells), k) && DataOf(q.cells) == RemoveAt(old(DataOf(q.cells)), k)
      ensures q.head == LinkOf(q.cells, 0) && Linked(q.cells) && Distinct(q.cells)
    {
      hide RemoveAt, Linked, LinkedAround, Distinct, DataOf;
      Bypass();
      WithoutLinked(q.cells, k);
      WithoutDistinct(q.cells, k);
      WithoutData(q.cells, k);
      q.cells := RemoveAt(q.cells, k);
    }

    /** `m_queue_itr_remove`: the queue loses that element and no other; its tail still fits exactly
        when the element was not the last one, or the only one. */
    method Remove() returns (data: T)
      requires Valid() && q.TailFits() && k < |q.cells| && !removed
      modifies this, q, q.cells
      ensures Valid() && removed && k == old(k)
      ensures data == old(q.Contents()[k])
      ensures q.cells == RemoveAt(old(q.cells), k) && q.Contents() == RemoveAt(old(q.Contents()), k)
      ensures q.Valid() <==> k < |old(q.cells)| - 1 || |old(q.cells)| == 1
      ensures !q.Valid() ==> q.tail == null && q.cells != []
    {
      hide RemoveAt, Linked, Distinct, DataOf;
      TailIs();
      data := Get();
      var tmp := Current();
      Unchain();
      if tmp == q.tail {
        q.tail := null;
      }
      q.len := q.len - 1;
      removed := true;
    }

    /** The current element is the tail exactly when it is the last. */
    lemma TailIs()
      requires Valid() && q.TailFits() && k < |q.cells|
      ensures Current() == q.cells[k] && (Current() == q.tail <==> k == |q.cells| - 1)
    {}
  }

  lemma OneOfTwo()
    ensures RemoveAt([1, 2], 1) == [1]
  {}

  /** Of 1 and 2 the iterator removes 2; a 3 that is enqueued then is counted, but not in the queue. */
  method LostTail() returns (q: Queue<int>)
    ensures q.Contents() == [1] && q.len == 2
  {
    hide Linked, Distinct, DataOf, RemoveAt;
    q := new Queue();
    q.Enqueue(1);
    q.Enqueue(2);
    assert q.Contents() == [1, 2] && |q.cells| == 2;
    var itr := new Itr(q);
    var _ := itr.Next();
    var _ := itr.Remove();
    OneOfTwo();
    q.Enqueue(3);
  }
}
