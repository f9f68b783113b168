/** Iteration over the hash map that tolerates removal of the current entry, and `m_map_clear`. That all
    entries are visited and none is lost does not need well-formed probe chains. */
module MapIteration {
  import opened Cyclic
  import opened Probing
  import opened BackwardShift
  import opened HashMap
  import opened Options

  // ---- where a removal can move entries --------------------------------------------

  /** Entries at or after the removed slot stay at or after it: an iterator that stands on the
      slot will still meet them. */
  lemma {:induction false} ShiftStaysAhead<K(!new), V(!new)>(
      t: seq<Slot<K, V>>, hash: K -> nat, r: nat, hole: nat, i: nat, x: nat)
    requires |t| >= 2 && r < |t| && hole < |t| && i <= |t| / 2
    requires t[hole].Free? && Gap(|t|, r, hole) <= i && r <= x < |t| && t[x].Used?
    ensures t[x] in Shift(t, hash, r, hole, i)[r..]
    decreases |t| / 2 - i
  {
    hide IndexLE, Shift;
    ShiftUnfolds(t, hash, r, hole, i);
    if i < |t| / 2 && t[At(|t|, r, i + 1)].Used? {
      var index := At(|t|, r, i + 1);
      if IndexLE(|t|, hole, Home(hash, |t|, t[index].key)) {
        var t' := t[hole := t[index]][index := Free];
        ShiftStaysAhead(t', hash, r, index, i + 1, if x == index then hole else x);
      } else {
        ShiftStaysAhead(t, hash, r, hole, i + 1, x);
      }
    }
  }

  lemma ClearedStaysAhead<K(!new), V(!new)>(t: seq<Slot<K, V>>, hash: K -> nat, r: nat, x: nat)
    requires |t| >= 2 && r < x < |t| && t[x].Used?
    ensures t[x] in Cleared(t, hash, r)[r..]
  {
    ShiftStaysAhead(t[r := Free], hash, r, r, 0, x);
  }

  /** With nothing before the removed slot, nothing is moved before it. */
  lemma {:induction false} ShiftKeepsPrefixFree<K(!new), V(!new)>(
      t: seq<Slot<K, V>>, hash: K -> nat, r: nat, hole: nat, i: nat)
    requires |t| >= 2 && r <= hole < |t| && i <= |t| / 2
    requires forall x | 0 <= x < r :: t[x].Free?
    ensures forall x | 0 <= x < r :: Shift(t, hash, r, hole, i)[x].Free?
    decreases |t| / 2 - i
  {
    hide IndexLE;
    if i < |t| / 2 && t[At(|t|, r, i + 1)].Used? {
      var index := At(|t|, r, i + 1);
      if IndexLE(|t|, hole, Home(hash, |t|, t[index].key)) {
        ShiftKeepsPrefixFree(t[hole := t[index]][index := Free], hash, r, index, i + 1);
      } else {
        ShiftKeepsPrefixFree(t, hash, r, hole, i + 1);
      }
    }
  }

  // ---- the values in a table -------------------------------------------------------

  function ValueOf<K, V>(s: Slot<K, V>): multiset<V> {
    if s.Used? then multiset{s.data} else multiset{}
  }

  function ValuesOf<K, V>(t: seq<Slot<K, V>>): multiset<V> {
    if t == [] then multiset{} else ValuesOf(t[..|t| - 1]) + ValueOf(t[|t| - 1])
  }

  lemma Reorder<V>(a: multiset<V>, last: multiset<V>, b: multiset<V>, c: multiset<V>, d: multiset<V>)
    requires a + b == c + d
    ensures (a + last) + b == (c + last) + d
  {
    assert (a + last) + b == (a + b) + last == (c + d) + last == (c + last) + d;
  }

  lemma Swap<V>(a: multiset<V>, b: multiset<V>, c: multiset<V>)
    ensures (a + b) + c == (a + c) + b
  {}

  lemma ValuesSplit<K, V>(t: seq<Slot<K, V>>)
    requires t != []
    ensures ValuesOf(t) == ValuesOf(t[..|t| - 1]) + ValueOf(t[|t| - 1])
  {}

  lemma {:induction false} ValuesAfterWrite<K, V>(t: seq<Slot<K, V>>, i: nat, s: Slot<K, V>)
    requires i < |t|
    ensures ValuesOf(t[i := s]) + ValueOf(t[i]) == ValuesOf(t) + ValueOf(s)
  {
    hide ValueOf, ValuesOf;
    var last := |t| - 1;
    ValuesSplit(t);
    ValuesSplit(t[i := s]);
    if i < last {
      ValuesAfterWrite(t[..last], i, s);
      assert t[i := s][..last] == t[..last][i := s];
      Reorder(ValuesOf(t[..last][i := s]), ValueOf(t[last]), ValueOf(t[i]), ValuesOf(t[..last]), ValueOf(s));
    } else {
      assert t[i := s][..last] == t[..last];
      Swap(ValuesOf(t[..last]), ValueOf(s), ValueOf(t[i]));
    }
  }

  lemma Cancel<T>(a: multiset<T>, b: multiset<T>, x: multiset<T>)
    requires a + x == b + x
    ensures a == b
  {
    assert a == (a + x) - x == (b + x) - x == b;
  }

  lemma {:induction false} ShiftKeepsValues<K(!new), V(!new)>(
      t: seq<Slot<K, V>>, hash: K -> nat, r: nat, hole: nat, i: nat)
    requires |t| >= 2 && r < |t| && hole < |t| && i <= |t| / 2
    requires t[hole].Free? && Gap(|t|, r, hole) <= i
    ensures ValuesOf(Shift(t, hash, r, hole, i)) == ValuesOf(t)
    decreases |t| / 2 - i
  {
    hide IndexLE, ValuesOf;
    if i < |t| / 2 && t[At(|t|, r, i + 1)].Used? {
      var index := At(|t|, r, i + 1);
      if IndexLE(|t|, hole, Home(hash, |t|, t[index].key)) {
        var t1 := t[hole := t[index]];
        assert index != hole && t1[index] == t[index];
        ValuesAfterWrite(t, hole, t[index]);
        ValuesAfterWrite(t1, index, Free);
        Cancel(ValuesOf(t1[index := Free]), ValuesOf(t), multiset{t[index].data});
        ShiftKeepsValues(t1[index := Free], hash, r, index, i + 1);
      } else {
        ShiftKeepsValues(t, hash, r, hole, i + 1);
      }
    }
  }

  lemma ClearedValues<K(!new), V(!new)>(t: seq<Slot<K, V>>, hash: K -> nat, r: nat)
    requires |t| >= 2 && r < |t| && t[r].Used?
    ensures ValuesOf(Cleared(t, hash, r)) + multiset{t[r].data} == ValuesOf(t)
  {
    hide ValuesOf;
    ValuesAfterWrite(t, r, Free);
    ShiftKeepsValues(t[r := Free], hash, r, r, 0);
  }

  lemma {:induction false} NoValues<K(!new), V(!new)>(t: seq<Slot<K, V>>)
    requires forall x | 0 <= x < |t| :: t[x].Free?
    ensures ValuesOf(t) == multiset{} && UsedSlots(t) == {}
  {
    if t != [] {
      NoValues(t[..|t| - 1]);
    }
  }

  /** The entries among the first `n` slots, in slot order. */
  function EntriesIn<K, V>(t: seq<Slot<K, V>>, n: nat): (es: seq<Slot<K, V>>)
    requires n <= |t|
  {
    if n == 0 then [] else EntriesIn(t, n - 1) + if t[n - 1].Used? then [t[n - 1]] else []
  }

  lemma {:induction false} SkipFree<K, V>(t: seq<Slot<K, V>>, from: nat, to: nat)
    requires from <= to <= |t| && forall x | from <= x < to :: t[x].Free?
    ensures EntriesIn(t, to) == EntriesIn(t, from)
  {
    if from < to {
      SkipFree(t, from, to - 1);
    }
  }

  // ---- the iterator ----------------------------------------------------------------

  class MapItr<K(==,!new), V(==,!new)> {
    const m: Map<K, V>
    var curr: Option<nat>
    var removed: bool

    /** The slot from which `m_map_itr_next` goes on. */
    function Start(): nat
      reads this
    {
      if curr.None? then 0 else if removed then curr.value else curr.value + 1
    }

    /** `m_map_itr_new`, without the first call of `m_map_itr_next` that it ends with. */
    constructor (m: Map<K, V>)
      ensures this.m == m && curr == None && !removed
    {
      this.m := m;
      curr := None;
      removed := false;
    }

    /** `m_map_itr_next`: `more` is false when the source frees the iterator. */
    method Next() returns (more: bool)
      requires Start() <= m.table.Length
      modifies this
      ensures !removed && curr.Some? && old(Start()) <= curr.value <= m.table.Length
      ensures forall x | old(Start()) <= x < curr.value :: m.table[x].Free?
      ensures more <==> curr.value < m.table.Length
      ensures more ==> m.table[curr.value].Used?
    {
      var c := Start();
      removed := false;
      while c < m.table.Length && m.table[c].Free?
        invariant old(Start()) <= c <= m.table.Length
        invariant forall x | old(Start()) <= x < c :: m.table[x].Free?
      {
        c := c + 1;
      }
      curr := Some(c);
      more := c < m.table.Length;
    }

    /** `m_map_itr_remove` */
    method Remove() returns (ret: Status)
      requires m.Counted() && curr.Some? && curr.value < m.table.Length && (!removed ==> m.table[curr.value].Used?)
      modifies this`removed, m`length, m`destroyed, m.table
      ensures m.Counted() && removed
      ensures ret == if old(removed) then Invalid else Ok
      ensures ret == Ok ==> m.table[..] == Cleared(old(m.table[..]), m.hash, curr.value)
      ensures ret == Ok ==> m.length == old(m.length) - 1
      ensures ret == Ok ==> m.destroyed == old(m.destroyed) + [old(m.table[curr.value].data)]
      ensures ret != Ok ==> m.table[..] == old(m.table[..]) && m.length == old(m.length)
      ensures ret != Ok ==> m.destroyed == old(m.destroyed)
    {
      if removed {
        return Invalid;
      }
      m.ClearElem(curr.value);
      removed := true;
      ret := Ok;
    }
  }

  function FreeSlots<K, V>(n: nat): (s: seq<Slot<K, V>>)
    ensures |s| == n
  {
    seq(n, _ => Free)
  }

  lemma OneMoreFree<K, V>(n: nat)
    ensures multiset(FreeSlots<K, V>(n + 1)) == multiset(FreeSlots<K, V>(n)) + multiset{Free}
  {
    assert FreeSlots<K, V>(n + 1) == FreeSlots<K, V>(n) + [Free];
  }

  // ---- the two uses of the iterator ------------------------------------------------

  /** `m_map_clear`: whatever the table holds, the map ends up empty and the destructor was
      called once for each stored value. */
  method Clear<K(==,!new), V(==,!new)>(m: Map<K, V>)
    requires m.Counted()
    modifies m`length, m`destroyed, m.table
    ensures m.length == 0 && forall x | 0 <= x < m.table.Length :: m.table[x].Free?
    ensures old(m.destroyed) <= m.destroyed
    ensures multiset(m.destroyed) == multiset(old(m.destroyed)) + old(ValuesOf(m.table[..]))
  {
    hide UsedSlots, ValuesOf, Cleared;
    ghost var values := ValuesOf(m.table[..]);
    var more := false;
    var itr := new MapItr(m);
    if m.length > 0 {
      more := itr.Next();
    } else {
      NoEntries(m.table[..]);
    }
    while more
      invariant m.Counted() && itr.m == m && !itr.removed
      invariant more ==> itr.curr.Some? && itr.curr.value < m.table.Length && m.table[itr.curr.value].Used?
      invariant forall x | 0 <= x < m.table.Length && (more ==> x < itr.curr.value) :: m.table[x].Free?
      invariant old(m.destroyed) <= m.destroyed
      invariant multiset(m.destroyed) + ValuesOf(m.table[..]) == multiset(old(m.destroyed)) + values
      modifies m`length, m`destroyed, m.table, itr
      decreases m.length, more
    {
      ghost var t, r := m.table[..], itr.curr.value;
      ClearedValues(t, m.hash, r);
      ClearedPrefix(t, m.hash, r);
      var _ := itr.Remove();
      more := itr.Next();
    }
    NoValues(m.table[..]);
  }

  lemma ClearedPrefix<K(!new), V(!new)>(t: seq<Slot<K, V>>, hash: K -> nat, r: nat)
    requires |t| >= 2 && r < |t| && forall x | 0 <= x < r :: t[x].Free?
    ensures forall x | 0 <= x < r :: Cleared(t, hash, r)[x].Free?
  {
    ShiftKeepsPrefixFree(t[r := Free], hash, r, r, 0);
  }

  /** No entry is lost or duplicated: what the table held is what it holds now and what was dropped. */
  ghost predicate Conserved<K(!new), V(!new)>(t0: seq<Slot<K, V>>, t: seq<Slot<K, V>>, dropped: seq<Slot<K, V>>) {
    multiset(t) + multiset(dropped) == multiset(t0) + multiset(FreeSlots<K, V>(|dropped|))
  }

  /** Every entry of `t0` was visited or is still ahead, in the slots of `t` from `from` on. */
  ghost predicate Covered<K(!new), V(!new)>(
      t0: seq<Slot<K, V>>, visited: seq<Slot<K, V>>, t: seq<Slot<K, V>>, from: nat)
    requires from <= |t|
  {
    forall s | s in t0 && s.Used? :: s in visited || s in t[from..]
  }

  /** The visited entries that are removed, in the order of the visits. The decision may depend on the
      number of the visit. */
  function Picked<T>(visited: seq<T>, drop: (nat, T) -> bool): (ps: seq<T>) {
    if visited == [] then [] else
      var last := |visited| - 1;
      Picked(visited[..last], drop) + if drop(last, visited[last]) then [visited[last]] else []
  }

  lemma PickedStep<T>(visited: seq<T>, drop: (nat, T) -> bool, x: T)
    ensures Picked(visited + [x], drop) == Picked(visited, drop) + if drop(|visited|, x) then [x] else []
  {
    assert (visited + [x])[..|visited|] == visited;
  }

  /** Exactly those entries are picked for which the decision at one of their visits was to remove them. */
  lemma {:induction false} PickedIff<T>(visited: seq<T>, drop: (nat, T) -> bool, x: T)
    ensures x in Picked(visited, drop) <==> exists k :: 0 <= k < |visited| && visited[k] == x && drop(k, x)
  {
    if visited != [] {
      var last := |visited| - 1;
      PickedIff(visited[..last], drop, x);
      if k :| 0 <= k < |visited| && visited[k] == x && drop(k, x) {
        assert k < last ==> visited[..last][k] == x;
      }
    }
  }

  function DataIn<K, V>(entries: seq<Slot<K, V>>): (ds: seq<V>)
    requires forall e | e in entries :: e.Used?
  {
    seq(|entries|, i requires 0 <= i < |entries| => entries[i].data)
  }

  lemma DataInStep<K, V>(entries: seq<Slot<K, V>>, e: Slot<K, V>)
    requires e.Used? && forall x | x in entries :: x.Used?
    ensures (forall x | x in entries + [e] :: x.Used?) && DataIn(entries + [e]) == DataIn(entries) + [e.data]
  {}

  ghost function KeysIn<K(!new), V(!new)>(entries: seq<Slot<K, V>>): set<K> {
    set e | e in entries && e.Used? :: e.key
  }

  /** The table stands for the old map without the keys of the dropped entries. */
  ghost predicate Minus<K(!new), V(!new)>(t0: seq<Slot<K, V>>, t: seq<Slot<K, V>>, dropped: seq<Slot<K, V>>) {
    UniqueKeys(t0) ==> UniqueKeys(t) && Contents(t) == Contents(t0) - KeysIn(dropped)
  }

  /** Probe chains are unbroken, and removals will keep them so. */
  ghost predicate Roomy<K(!new), V(!new)>(t: seq<Slot<K, V>>, hash: K -> nat) {
    WellFormed(t, hash) && |UsedSlots(t)| <= |t| / 2
  }

  lemma NothingNew<K(!new), V(!new)>(
      t0: seq<Slot<K, V>>, t: seq<Slot<K, V>>, dropped: seq<Slot<K, V>>, s: Slot<K, V>)
    requires Conserved(t0, t, dropped) && s in t && s.Used?
    ensures s in t0
  {
    assert s in multiset(t) && s !in multiset(FreeSlots<K, V>(|dropped|));
    assert s in multiset(t) + multiset(dropped);
  }

  lemma DropFromMap<K(!new), V(!new)>(
      t0: seq<Slot<K, V>>, t: seq<Slot<K, V>>, hash: K -> nat, r: nat, dropped: seq<Slot<K, V>>)
    requires |t| >= 2 && r < |t| && t[r].Used? && Minus(t0, t, dropped)
    ensures Minus(t0, Cleared(t, hash, r), dropped + [t[r]])
    ensures Roomy(t, hash) ==> Roomy(Cleared(t, hash, r), hash)
  {
    hide UniqueKeys, Cleared, Contents, RemovalSafe, WellFormed, UsedSlots;
    if UniqueKeys(t) {
      ClearedContents(t, hash, r);
      assert KeysIn(dropped + [t[r]]) == KeysIn(dropped) + {t[r].key};
    }
    if Roomy(t, hash) {
      HalfFullIsSafe(t, hash, r);
      RemovalExact(t, hash, r);
    }
  }

  /** How far an iteration has come: before the slot `from` of the table `t`, having visited and dropped
      these entries of the table `t0` that it started with. */
  ghost predicate Progress<K(!new), V(!new)>(
      t0: seq<Slot<K, V>>, hash: K -> nat, drop: (nat, Slot<K, V>) -> bool,
      visited: seq<Slot<K, V>>, dropped: seq<Slot<K, V>>, t: seq<Slot<K, V>>, from: nat)
  {
    && from <= |t| == |t0| && Covered(t0, visited, t, from) && Conserved(t0, t, dropped)
    && Minus(t0, t, dropped) && (Roomy(t0, hash) ==> Roomy(t, hash))
    && dropped == Picked(visited, drop) && (forall s | s in visited :: s.Used? && s in t0)
    && (dropped == [] ==> t == t0 && visited == EntriesIn(t0, from))
  }

  lemma ProgressStart<K(!new), V(!new)>(t0: seq<Slot<K, V>>, hash: K -> nat, drop: (nat, Slot<K, V>) -> bool)
    ensures Progress(t0, hash, drop, [], [], t0, 0)
  {
    assert t0[0..] == t0;
  }

  lemma ProgressSkip<K(!new), V(!new)>(
      t0: seq<Slot<K, V>>, hash: K -> nat, drop: (nat, Slot<K, V>) -> bool,
      visited: seq<Slot<K, V>>, dropped: seq<Slot<K, V>>, t: seq<Slot<K, V>>, from: nat, to: nat)
    requires Progress(t0, hash, drop, visited, dropped, t, from)
    requires from <= to <= |t| && forall x | from <= x < to :: t[x].Free?
    ensures Progress(t0, hash, drop, visited, dropped, t, to)
  {
    hide Conserved, Minus, Roomy, Picked, EntriesIn, Covered;
    CoverNext(t0, visited, t, from, to);
  }

  /** One entry is visited, and either dropped or passed. */
  lemma ProgressVisit<K(!new), V(!new)>(
      t0: seq<Slot<K, V>>, hash: K -> nat, drop: (nat, Slot<K, V>) -> bool,
      visited: seq<Slot<K, V>>, dropped: seq<Slot<K, V>>, t: seq<Slot<K, V>>, r: nat)
    requires Progress(t0, hash, drop, visited, dropped, t, r) && |t| >= 2 && r < |t| && t[r].Used?
    ensures drop(|visited|, t[r]) ==>
              Progress(t0, hash, drop, visited + [t[r]], dropped + [t[r]], Cleared(t, hash, r), r)
    ensures !drop(|visited|, t[r]) ==> Progress(t0, hash, drop, visited + [t[r]], dropped, t, r + 1)
  {
    hide Conserved, Minus, Roomy, Picked, EntriesIn, Covered, Cleared;
    CoverVisit(t0, visited, t, r, hash);
    PickedStep(visited, drop, t[r]);
    NothingNew(t0, t, dropped, t[r]);
    DropConserves(t0, t, hash, r, dropped);
    DropFromMap(t0, t, hash, r, dropped);
    EntriesStep(t, r);
  }

  lemma ProgressMeans<K(!new), V(!new)>(
      t0: seq<Slot<K, V>>, hash: K -> nat, drop: (nat, Slot<K, V>) -> bool,
      visited: seq<Slot<K, V>>, dropped: seq<Slot<K, V>>, t: seq<Slot<K, V>>, from: nat)
    requires Progress(t0, hash, drop, visited, dropped, t, from)
    ensures dropped == Picked(visited, drop) && forall s | s in visited :: s.Used? && s in t0
    ensures Minus(t0, t, dropped) && Conserved(t0, t, dropped) && (Roomy(t0, hash) ==> Roomy(t, hash))
    ensures dropped == [] ==> t == t0 && visited == EntriesIn(t0, from) <= EntriesIn(t0, |t0|)
    ensures from == |t0| ==> forall x | 0 <= x < |t0| && t0[x].Used? :: t0[x] in visited
  {
    hide Conserved, Minus, Roomy, Picked, EntriesIn, Covered;
    EntriesPrefix(t0, from, |t0|);
    if from == |t0| {
      CoverEnd(t0, visited, t);
    }
  }

  /** `m_itr_foreach` over a map whose body may remove the current entry. Every entry that the map
      held at the start is visited; exactly the entries that the body picks go; the map loses their
      keys and no others, and remains valid when it was at most half full; and without removals the
      visits are the entries in slot order, each once. */
  method Sweep<K(==,!new), V(==,!new)>(m: Map<K, V>, drop: (nat, Slot<K, V>) -> bool)
      returns (visited: seq<Slot<K, V>>, dropped: seq<Slot<K, V>>)
    requires m.Counted()
    modifies m`length, m`destroyed, m.table
    ensures m.Counted() && m.length + |dropped| == old(m.length)
    ensures forall x | 0 <= x < m.table.Length && old(m.table[x]).Used? :: old(m.table[x]) in visited
    ensures dropped == Picked(visited, drop) && forall s | s in visited :: s.Used? && s in old(m.table[..])
    ensures (forall s | s in dropped :: s.Used?) && m.destroyed == old(m.destroyed) + DataIn(dropped)
    ensures Minus(old(m.table[..]), m.table[..], dropped)
    ensures old(m.Valid()) && old(m.length) <= m.table.Length / 2 ==> m.Valid()
    ensures Conserved(old(m.table[..]), m.table[..], dropped)
    ensures dropped == [] ==> m.table[..] == old(m.table[..]) && visited == EntriesIn(old(m.table[..]), m.table.Length)
  {
    hide UsedSlots, Cleared, Progress, Conserved, EntriesIn, Minus, Picked, WellFormed, DataIn;
    visited, dropped := [], [];
    ghost var t0 := m.table[..];
    ProgressStart(t0, m.hash, drop);
    NoData<K, V>();
    var more := false;
    var itr := new MapItr(m);
    if m.length > 0 {
      more := itr.Next();
      ProgressSkip(t0, m.hash, drop, visited, dropped, t0, 0, itr.curr.value);
    } else {
      NoEntries(t0);
      ProgressSkip(t0, m.hash, drop, visited, dropped, t0, 0, |t0|);
    }
    while more
      invariant m.Counted() && itr.m == m && !itr.removed && |t0| == m.table.Length
      invariant more ==> itr.curr.Some? && itr.curr.value < m.table.Length && m.table[itr.curr.value].Used?
      invariant m.length + |dropped| == old(m.length)
      invariant Progress(t0, m.hash, drop, visited, dropped, m.table[..], if more then itr.curr.value else |t0|)
      invariant (forall s | s in dropped :: s.Used?) && m.destroyed == old(m.destroyed) + DataIn(dropped)
      modifies m`length, m`destroyed, m.table, itr
      decreases m.length, more, if more then m.table.Length - itr.curr.value else 0
    {
      ghost var t, r := m.table[..], itr.curr.value;
      var entry := m.table[itr.curr.value];
      ProgressVisit(t0, m.hash, drop, visited, dropped, t, r);
      visited := visited + [entry];
      ghost var from := r + 1;
      if drop(|visited| - 1, entry) {
        DataInStep(dropped, entry);
        var _ := itr.Remove();
        dropped := dropped + [entry];
        from := r;
      }
      ghost var t' := m.table[..];
      more := itr.Next();
      ProgressSkip(t0, m.hash, drop, visited, dropped, t', from, itr.curr.value);
    }
    ProgressMeans(t0, m.hash, drop, visited, dropped, m.table[..], |t0|);
  }

  lemma NoData<K, V>()
    ensures DataIn<K, V>([]) == []
  {}

  lemma {:induction false} EntriesPrefix<K, V>(t: seq<Slot<K, V>>, from: nat, to: nat)
    requires from <= to <= |t|
    ensures EntriesIn(t, from) <= EntriesIn(t, to)
  {
    if from < to {
      EntriesPrefix(t, from, to - 1);
    }
  }

  /** After the removal of the entry in a slot, the slot is free or holds an entry with another key. */
  lemma ClearedSlotDiffers<K(!new), V(!new)>(t: seq<Slot<K, V>>, hash: K -> nat, r: nat)
    requires |t| >= 2 && r < |t| && t[r].Used? && UniqueKeys(t)
    ensures UniqueKeys(Cleared(t, hash, r))
    ensures Cleared(t, hash, r)[r].Used? ==> Cleared(t, hash, r)[r].key != t[r].key
  {
    ClearedContents(t, hash, r);
    assert t[r].key !in Contents(Cleared(t, hash, r));
  }

  /** `m_map_iterate` with a callback that may remove the current entry and that stops the iteration
      with an answer other than 0. A slot that was removed from is looked at again. Without an early
      stop every original entry is visited; -EACCES is never returned. */
  method Iterate<K(==,!new), V(==,!new)>(m: Map<K, V>, fn: (nat, Slot<K, V>) -> int, drop: (nat, Slot<K, V>) -> bool)
      returns (ret: Option<int>, visited: seq<Slot<K, V>>, dropped: seq<Slot<K, V>>)
    requires m.Counted() && UniqueKeys(m.table[..])
    modifies m`length, m`destroyed, m.table
    ensures m.Counted() && UniqueKeys(m.table[..]) && m.length + |dropped| == old(m.length)
    ensures ret == None <==> old(m.length) == 0
    ensures forall k | 0 <= k < |visited| - 1 :: fn(k, visited[k]) == 0
    ensures ret.Some? ==> visited != []
    ensures ret.Some? ==> var last := fn(|visited| - 1, visited[|visited| - 1]);
                          ret.value == if last < 0 then last else 0
    ensures visited != [] && fn(|visited| - 1, visited[|visited| - 1]) == 0 ==>
              forall x | 0 <= x < m.table.Length && old(m.table[x]).Used? :: old(m.table[x]) in visited
    ensures Conserved(old(m.table[..]), m.table[..], dropped)
    ensures dropped == Picked(visited, drop) && forall s | s in visited :: s.Used? && s in old(m.table[..])
    ensures (forall s | s in dropped :: s.Used?) && m.destroyed == old(m.destroyed) + DataIn(dropped)
    ensures Minus(old(m.table[..]), m.table[..], dropped)
    ensures old(m.Valid()) && old(m.length) <= m.table.Length / 2 ==> m.Valid()
    ensures dropped == [] ==> m.table[..] == old(m.table[..]) && visited <= EntriesIn(old(m.table[..]), m.table.Length)
  {
    hide UsedSlots, UniqueKeys, Cleared, Progress, Conserved, EntriesIn, Minus, Picked, WellFormed, DataIn;
    visited, dropped := [], [];
    ghost var t0 := m.table[..];
    ProgressStart(t0, m.hash, drop);
    NoData<K, V>();
    if m.length == 0 {
      ProgressMeans(t0, m.hash, drop, visited, dropped, t0, 0);
      return None, visited, dropped;
    }
    var x := 0;
    while x < m.table.Length
      invariant x <= m.table.Length == |t0| && m.Counted() && UniqueKeys(m.table[..])
      invariant m.length + |dropped| == old(m.length)
      invariant Progress(t0, m.hash, drop, visited, dropped, m.table[..], x)
      invariant forall k | 0 <= k < |visited| :: fn(k, visited[k]) == 0
      invariant (forall s | s in dropped :: s.Used?) && m.destroyed == old(m.destroyed) + DataIn(dropped)
      modifies m`length, m`destroyed, m.table
      decreases m.length, m.table.Length - x
    {
      var entry := m.table[x];
      ghost var t := m.table[..];
      if entry.Free? {
        ProgressSkip(t0, m.hash, drop, visited, dropped, t, x, x + 1);
        x := x + 1;
        continue;
      }
      var entries, k := m.length, |visited|;
      ProgressVisit(t0, m.hash, drop, visited, dropped, t, x);
      visited := visited + [entry];
      if drop(k, entry) {
        DataInStep(dropped, entry);
        ClearedSlotDiffers(t, m.hash, x);
        m.ClearElem(x);
        dropped := dropped + [entry];
      }
      var rc := fn(k, entry);
      if rc != 0 {
        ProgressMeans(t0, m.hash, drop, visited, dropped, m.table[..], if drop(k, entry) then x else x + 1);
        return Some(if rc < 0 then rc else 0), visited, dropped;
      }
      if m.table[x].Used? && m.table[x].key == entry.key {
        assert m.length == entries;
        x := x + 1;
      }
    }
    ProgressMeans(t0, m.hash, drop, visited, dropped, m.table[..], |t0|);
    VisitedSome(t0, visited);
    ret := Some(0);
  }

  lemma VisitedSome<K(!new), V(!new)>(t0: seq<Slot<K, V>>, visited: seq<Slot<K, V>>)
    requires |UsedSlots(t0)| > 0 && forall x | 0 <= x < |t0| && t0[x].Used? :: t0[x] in visited
    ensures visited != []
  {
    var x :| x in UsedSlots(t0);
    assert t0[x] in visited;
  }

  lemma CoverVisit<K(!new), V(!new)>(
      t0: seq<Slot<K, V>>, visited: seq<Slot<K, V>>, t: seq<Slot<K, V>>, r: nat, hash: K -> nat)
    requires |t| >= 2 && r < |t| && Covered(t0, visited, t, r)
    ensures Covered(t0, visited + [t[r]], Cleared(t, hash, r), r)
    ensures Covered(t0, visited + [t[r]], t, r + 1)
  {
    hide Cleared;
    forall s | s in t0 && s.Used? && s !in visited + [t[r]] ensures s in Cleared(t, hash, r)[r..] && s in t[r + 1..] {
      assert s in t[r..];
      var x :| r <= x < |t| && t[x] == s;
      ClearedStaysAhead(t, hash, r, x);
      assert t[r + 1..][x - r - 1] == s;
    }
  }

  lemma CoverNext<K(!new), V(!new)>(
      t0: seq<Slot<K, V>>, visited: seq<Slot<K, V>>, t: seq<Slot<K, V>>, from: nat, to: nat)
    requires from <= to <= |t| && (forall x | from <= x < to :: t[x].Free?) && Covered(t0, visited, t, from)
    ensures Covered(t0, visited, t, to)
    ensures EntriesIn(t, to) == EntriesIn(t, from)
  {
    SkipFree(t, from, to);
    forall s | s in t0 && s.Used? && s !in visited ensures s in t[to..] {
      var x :| from <= x < |t| && t[x] == s;
      assert t[to..][x - to] == s;
    }
  }

  lemma CoverEnd<K(!new), V(!new)>(t0: seq<Slot<K, V>>, visited: seq<Slot<K, V>>, t: seq<Slot<K, V>>)
    requires Covered(t0, visited, t, |t|)
    ensures forall x | 0 <= x < |t0| && t0[x].Used? :: t0[x] in visited
  {}

  lemma EntriesStep<K, V>(t: seq<Slot<K, V>>, n: nat)
    requires n < |t| && t[n].Used?
    ensures EntriesIn(t, n + 1) == EntriesIn(t, n) + [t[n]]
  {}

  lemma Rebalance<T>(a: multiset<T>, b: multiset<T>, x: T, f: T)
    requires x in a
    ensures (a - multiset{x} + multiset{f}) + (b + multiset{x}) == a + b + multiset{f}
  {}

  lemma DropConserves<K(!new), V(!new)>(
      t0: seq<Slot<K, V>>, t: seq<Slot<K, V>>, hash: K -> nat, r: nat, dropped: seq<Slot<K, V>>)
    requires |t| >= 2 && r < |t| && Conserved(t0, t, dropped)
    ensures Conserved(t0, Cleared(t, hash, r), dropped + [t[r]])
  {
    hide Cleared, FreeSlots;
    ClearedConserves(t, hash, r);
    OneMoreFree<K, V>(|dropped|);
    Rebalance(multiset(t), multiset(dropped), t[r], Free);
  }
}
