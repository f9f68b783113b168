/** The open-addressing hash map: the table is an array that the operations update in place. */
module HashMap {
  import opened Cyclic
  import opened Probing
  import opened BackwardShift
  import opened Collections
  import opened Options

  datatype Status = Ok | NoMemory | NotPermitted | NoEntry | Invalid

  const DEFAULT_SIZE: nat := 256

  /** A table of this size cannot be doubled, even with memory left. */
  const MAX_SLOTS: nat := SIZE_T_VALUES / (2 * SLOT_BYTES)

  class Map<K(==,!new), V(==,!new)> {
    const hash: K -> nat
    const allowUpdate: bool
    var table: array<Slot<K, V>>
    var length: nat
    // The values handed to the destructor so far, in order.
    var destroyed: seq<V>

    /** What every operation keeps, whatever the probe chains look like. */
    ghost predicate Counted()
      reads this, table
    {
      table.Length >= 2 && length == |UsedSlots(table[..])|
    }

    ghost predicate Valid()
      reads this, table
    {
      && Counted()
      && WellFormed(table[..], hash)
      && 4 * length <= 3 * table.Length
    }

    ghost function Entries(): map<K, V>
      requires Valid()
      reads this, table
    {
      Contents(table[..])
    }

    constructor (hash: K -> nat, allowUpdate: bool)
      ensures Valid() && fresh(table) && Entries() == map[] && destroyed == []
      ensures this.hash == hash && this.allowUpdate == allowUpdate && table.Length == DEFAULT_SIZE
    {
      this.hash := hash;
      this.allowUpdate := allowUpdate;
      table := new Slot<K, V>[DEFAULT_SIZE](_ => Free);
      length := 0;
      destroyed := [];
      new;
      SizeTIsPowerOfTwo();
      assert UsedSlots(table[..]) == {};
    }

    /** `hashmap_entry_find`: the slot of the key or, when `findEmpty`, the free slot that ends its chain. */
    method EntryFind(key: K, findEmpty: bool) returns (slot: Option<nat>)
      requires table.Length >= 2
      ensures slot == match Probe(table[..], hash, key, 0)
                      case Hit(i) => Some(i)
                      case Vacant(i) => if findEmpty then Some(i) else None
                      case Exhausted => None
    {
      var probeLen := table.Length / 2;
      var index := Home(hash, table.Length, key);
      var i := 0;
      while i < probeLen
        invariant i <= probeLen
        invariant index == At(table.Length, Home(hash, table.Length, key), i)
        invariant Probe(table[..], hash, key, i) == Probe(table[..], hash, key, 0)
      {
        var entry := table[index];
        if entry.Free? {
          return if findEmpty then Some(index) else None;
        }
        if entry.key == key {
          return Some(index);
        }
        index := At(table.Length, index, 1);
        i := i + 1;
      }
      return None;
    }

    /** `hashmap_rehash`: the copy into the doubled table always finds a slot, so that only a
        failed allocation makes it fail, and the map is then as before. */
    method Rehash(memory: bool) returns (ret: Status)
      requires Counted() && WellFormed(table[..], hash)
      modifies this`table
      ensures Counted() && WellFormed(table[..], hash)
      ensures Contents(table[..]) == old(Contents(table[..]))
      ensures ret == if memory && TableSize(2 * old(table.Length)) then Ok else NoMemory
      ensures if ret == Ok then fresh(table) && table.Length == 2 * old(table.Length) else table == old(table)
    {
      assert TableSize(table.Length) && UniqueKeys(table[..]);
      hide WellFormed, UniqueKeys, Contents, UsedSlots, Probe, TableSize, Masked;
      var oldSize := table.Length;
      DoubledSize(oldSize);
      // calloc of 2 * size slots fails when the number of bytes does not fit a size_t
      if !memory || 2 * oldSize * SLOT_BYTES >= SIZE_T_VALUES {
        return NoMemory;
      }
      var oldTable := table;
      table := new Slot<K, V>[2 * oldSize](_ => Free);
      EmptyTable(table[..], hash);
      CopyAll(oldTable);
      ret := Ok;
    }

    /** The copy loop of `hashmap_rehash`. */
    method CopyAll(oldTable: array<Slot<K, V>>)
      requires oldTable != table && 2 * oldTable.Length == table.Length && UniqueKeys(oldTable[..])
      requires WellFormed(table[..], hash) && Contents(table[..]) == map[] && UsedSlots(table[..]) == {}
      modifies table
      ensures WellFormed(table[..], hash) && UniqueKeys(table[..])
      ensures Contents(table[..]) == Contents(oldTable[..])
      ensures |UsedSlots(table[..])| == |UsedSlots(oldTable[..])|
    {
      assert UniqueKeys(table[..]);
      hide WellFormed, UniqueKeys, Contents, UsedSlots, Probe, TableSize, Masked;
      ghost var before := oldTable[..];
      MaskedNone(before);
      var n := 0;
      while n < oldTable.Length
        invariant n <= oldTable.Length && oldTable[..] == before
        invariant WellFormed(table[..], hash) && UniqueKeys(table[..]) && UniqueKeys(Masked(before, n))
        invariant Contents(table[..]) == Contents(Masked(before, n))
        invariant |UsedSlots(table[..])| == |UsedSlots(Masked(before, n))|
      {
        var entry := oldTable[n];
        MaskedStep(before, n);
        if entry.Used? {
          CopyEntry(entry);
        }
        n := n + 1;
      }
      MaskedAll(before);
    }

    /** One step of the copy into a table that has fewer entries than its probe limit. */
    method CopyEntry(entry: Slot<K, V>)
      requires WellFormed(table[..], hash) && |UsedSlots(table[..])| < table.Length / 2
      requires entry.Used? && entry.key !in Contents(table[..])
      modifies table
      ensures WellFormed(table[..], hash) && UniqueKeys(table[..])
      ensures Contents(table[..]) == old(Contents(table[..]))[entry.key := entry.data]
      ensures |UsedSlots(table[..])| == |old(UsedSlots(table[..]))| + 1
    {
      hide WellFormed, UniqueKeys, Contents, UsedSlots, Probe;
      ghost var t := table[..];
      CopyStep(t, hash, entry.key, entry.data);
      var slot := EntryFind(entry.key, true);
      table[slot.value] := entry;
      assert table[..] == t[slot.value := entry];
    }

    /** The two reasons to double the table: the load factor, or no slot within the probe limit. */
    ghost predicate Crowded(key: K)
      requires table.Length >= 2
      reads this, table
    {
      table.Length <= length + length / 3 || Probe(table[..], hash, key, 0).Exhausted?
    }

    /** A crowded table is at least half full. */
    lemma CrowdedIsHalfFull(key: K)
      requires Valid() && Crowded(key)
      ensures 2 * |Entries()| >= table.Length
      ensures !TableSize(2 * table.Length) ==> 2 * |Entries()| >= MAX_SLOTS
    {
      hide UniqueKeys, Contents, UsedSlots, Probe;
      KeysCounted(table[..]);
      DoubledSize(table.Length);
      if |UsedSlots(table[..])| < table.Length / 2 {
        ProbeNotExhausted(table[..], hash, key);
      }
    }

    /** A table has to grow exactly when one more entry would take the load above 3/4, or when the probe for
        the key runs out. */
    lemma CrowdedIff(key: K)
      requires Valid()
      ensures Crowded(key) <==> 4 * (|Entries()| + 1) > 3 * table.Length || Probe(table[..], hash, key, 0).Exhausted?
    {
      hide UniqueKeys, Contents, UsedSlots, Probe;
      KeysCounted(table[..]);
      DoubledSize(table.Length);
      LoadFactorStep(length, table.Length);
    }

    /** The head of `hashmap_put`: grow the table when it is crowded and find the slot for the key. */
    method SlotFor(key: K, memory: bool) returns (ret: Status, slot: nat)
      requires Valid()
      modifies this`table
      ensures Valid() && Entries() == old(Entries()) && (table == old(table) || fresh(table))
      ensures table == old(table) ==> table[..] == old(table[..])
      ensures !old(Crowded(key)) || ret != Ok ==> table == old(table)
      ensures old(Crowded(key)) && ret == Ok ==> table.Length == 2 * old(table.Length)
      ensures ret == if old(Crowded(key)) && !(memory && TableSize(2 * old(table.Length))) then NoMemory else Ok
      ensures ret == Ok ==> length + length / 3 < table.Length
      ensures var e := Probe(table[..], hash, key, 0); ret == Ok ==> e == Hit(slot) || e == Vacant(slot)
    {
      assert TableSize(table.Length) && UniqueKeys(table[..]);
      hide WellFormed, UniqueKeys, Contents, UsedSlots, Probe, TableSize;
      slot := 0;
      if table.Length <= length + length / 3 {
        ret := Rehash(memory);
        if ret != Ok {
          return;
        }
        ProbeNotExhausted(table[..], hash, key);
      }
      var found := EntryFind(key, true);
      if found.None? {
        ret := Rehash(memory);
        if ret != Ok {
          return;
        }
        ProbeNotExhausted(table[..], hash, key);
        found := EntryFind(key, true);
      }
      ret, slot := Ok, found.value;
    }

    /** `m_map_put`: it fails exactly when the table has to grow and cannot be allocated, or when it
        would update a value of a map that does not allow it; a failure leaves the map as it was. */
    method Put(key: K, value: V, memory: bool) returns (ret: Status)
      requires Valid()
      modifies this, table
      ensures Valid() && (table == old(table) || fresh(table))
      ensures table.Length == if old(Crowded(key)) && ret != NoMemory then 2 * old(table.Length) else old(table.Length)
      ensures ret == (if old(Crowded(key)) && !(memory && TableSize(2 * old(table.Length))) then NoMemory
                      else if key in old(Entries()) && !allowUpdate then NotPermitted else Ok)
      ensures Entries() == if ret == Ok then old(Entries())[key := value] else old(Entries())
      ensures destroyed == old(destroyed) +
              if ret == Ok && key in old(Entries()) && old(Entries())[key] != value then [old(Entries())[key]] else []
      ensures !old(Crowded(key)) ==> table == old(table)
      ensures ret == Ok && !old(Crowded(key)) ==> var e := old(Probe(table[..], hash, key, 0));
                !e.Exhausted? && table[..] == old(table[..])[e.slot := Used(key, value)]
    {
      hide WellFormed, UniqueKeys, Contents, UsedSlots, Probe, TableSize, Crowded;
      var slot;
      ghost var before := Entries();
      ret, slot := SlotFor(key, memory);
      if ret == Ok {
        ProbeSlot(table[..], hash, key);
        if table[slot].Used? {
          ret := Overwrite(slot, key, value, before);
        } else {
          AddNew(slot, key, value, before);
        }
      }
    }

    /** The tail of `hashmap_put` for a key that is present. */
    method Overwrite(slot: nat, key: K, value: V, ghost before: map<K, V>) returns (ret: Status)
      requires Valid() && before == Entries()
      requires Probe(table[..], hash, key, 0) == Hit(slot) && slot < table.Length && table[slot].Used?
      modifies this`destroyed, table
      ensures Valid() && key in before
      ensures ret == if allowUpdate then Ok else NotPermitted
      ensures Entries() == if ret == Ok then before[key := value] else before
      ensures ret == Ok ==> table[..] == old(table[..])[slot := Used(key, value)]
      ensures destroyed == old(destroyed) + if ret == Ok && before[key] != value then [before[key]] else []
    {
      hide WellFormed, UniqueKeys, Contents, UsedSlots, Probe;
      ghost var t := table[..];
      StoreStep(t, hash, key, value, slot);
      if !allowUpdate {
        return NotPermitted;
      }
      if table[slot].data != value {
        destroyed := destroyed + [table[slot].data];
      }
      table[slot] := Used(key, value);
      assert table[..] == t[slot := Used(key, value)];
      ret := Ok;
    }

    /** The tail of `hashmap_put` for a key that is absent. */
    method AddNew(slot: nat, key: K, value: V, ghost before: map<K, V>)
      requires Valid() && before == Entries() && length + length / 3 < table.Length
      requires Probe(table[..], hash, key, 0) == Vacant(slot) && slot < table.Length && table[slot].Free?
      modifies this`length, table
      ensures Valid() && key !in before && Entries() == before[key := value]
      ensures table[..] == old(table[..])[slot := Used(key, value)]
    {
      assert TableSize(table.Length);
      hide WellFormed, UniqueKeys, Contents, UsedSlots, Probe, TableSize;
      ghost var t := table[..];
      StoreStep(t, hash, key, value, slot);
      DoubledSize(table.Length);
      LoadFactorStep(length, table.Length);
      length := length + 1;
      table[slot] := Used(key, value);
      assert table[..] == t[slot := Used(key, value)];
    }

    /** `m_map_len` */
    method Len() returns (n: nat)
      requires Valid()
      ensures n == |Entries()|
    {
      KeysCounted(table[..]);
      n := length;
    }

    /** `m_map_get`; an absent key gives nothing, also on an empty map, which is not searched. On a map
        whose probe chains are unbroken the answer is that of the mathematical map. */
    method Get(key: K) returns (value: Option<V>)
      requires Counted()
      ensures var s := Lookup(table[..], hash, key); value == if s.Used? then Some(s.data) else None
      ensures Valid() ==> value == if key in Entries() then Some(Entries()[key]) else None
    {
      if Valid() {
        LookupAgrees(table[..], hash, key);
      }
      ProbeSound(table[..], hash, key, 0);
      if length == 0 {
        NoEntries(table[..]);
        return None;
      }
      var slot := EntryFind(key, false);
      return if slot.Some? then Some(table[slot.value].data) else None;
    }

    /** `clear_elem`. The loop leaves a stale copy in the slot it moved an entry from, until the
        next move or the last line overwrites it. */
    method ClearElem(slot: nat)
      requires Counted() && slot < table.Length && table[slot].Used?
      modifies this`length, this`destroyed, table
      ensures table[..] == Cleared(old(table[..]), hash, slot)
      ensures length == old(length) - 1 && Counted()
      ensures destroyed == old(destroyed) + [old(table[slot].data)]
    {
      hide UsedSlots, IndexLE, Cleared, Shift;
      ghost var before := table[..];
      ClearedCounts(before, hash, slot);
      var removed := slot;
      destroyed := destroyed + [table[removed].data];
      table[removed] := Free;
      length := length - 1;
      var n := table.Length;
      var index := At(n, removed, 1);
      var i := 0;
      ghost var cur := before[slot := Free];
      assert table[..] == cur;
      ClearedIsShift(before, hash, slot);
      while i < n / 2
        invariant i <= n / 2 && removed < n && Gap(n, slot, removed) <= i && index == At(n, slot, i + 1)
        invariant |cur| == n && cur == table[..][removed := Free]
        invariant Shift(cur, hash, slot, removed, i) == Cleared(before, hash, slot)
        modifies table
      {
        var entry := table[index];
        assert entry == cur[index];
        ShiftUnfolds(cur, hash, slot, removed, i);
        if entry.Free? {
          break;
        }
        if IndexLE(n, removed, Home(hash, n, entry.key)) {
          cur := cur[removed := entry][index := Free];
          table[removed] := entry;
          removed := index;
        }
        index := At(n, index, 1);
        i := i + 1;
      }
      ShiftUnfolds(cur, hash, slot, removed, i);
      assert Shift(cur, hash, slot, removed, i) == cur;
      table[removed] := Free;
      assert table[..] == cur;
    }

    /** The key is absent, or its slot can be cleared without losing another entry. */
    ghost predicate Removable(key: K)
      requires table.Length >= 2
      reads this, table
    {
      var e := Probe(table[..], hash, key, 0);
      e.Hit? ==> RemovalSafe(table[..], hash, e.slot)
    }

    /** `m_map_remove`: it takes away one key and no other entry; and the table is still well-formed, so
        that every remaining key is found, exactly when the removal was a safe one. */
    method Remove(key: K) returns (ret: Status)
      requires Valid()
      modifies this`length, this`destroyed, table
      ensures Counted() && UniqueKeys(table[..])
      ensures ret == if old(Entries()) == map[] then Invalid else if key in old(Entries()) then Ok else NoEntry
      ensures Contents(table[..]) == old(Entries()) - {key}
      ensures Valid() <==> old(Removable(key))
      ensures table == old(table)
      ensures var e := old(Probe(table[..], hash, key, 0));
              table[..] == if e.Hit? then Cleared(old(table[..]), hash, e.slot) else old(table[..])
      ensures destroyed == old(destroyed) + if ret == Ok then [old(Entries())[key]] else []
    {
      hide WellFormed, UniqueKeys, Contents, UsedSlots, Probe, RemovalSafe, Cleared, TableSize;
      ghost var before := Entries();
      RemoveStep(table[..], hash, key);
      assert length == |before|;
      if length == 0 {
        return Invalid;
      }
      var slot := EntryFind(key, false);
      if slot.None? {
        return NoEntry;
      }
      RemoveFound(slot.value, key, before);
      ret := Ok;
    }

    /** `m_map_remove` once the entry is found. */
    method RemoveFound(slot: nat, key: K, ghost before: map<K, V>)
      requires Valid() && before == Entries() && slot < table.Length && Probe(table[..], hash, key, 0) == Hit(slot)
      modifies this`length, this`destroyed, table
      ensures Counted() && UniqueKeys(table[..]) && key in before && Contents(table[..]) == before - {key}
      ensures Valid() <==> old(RemovalSafe(table[..], hash, slot))
      ensures table[..] == Cleared(old(table[..]), hash, slot)
      ensures destroyed == old(destroyed) + [before[key]]
    {
      RemoveStep(table[..], hash, key);
      hide WellFormed, UniqueKeys, Contents, UsedSlots, Probe, RemovalSafe, Cleared, TableSize;
      ClearElem(slot);
    }
  }

  lemma ClearedIsShift<K(!new), V(!new)>(t: seq<Slot<K, V>>, hash: K -> nat, r: nat)
    requires |t| >= 2 && r < |t|
    ensures Cleared(t, hash, r) == Shift(t[r := Free], hash, r, r, 0)
  {}

  lemma NoEntries<K(!new), V(!new)>(t: seq<Slot<K, V>>)
    requires |UsedSlots(t)| == 0
    ensures forall i | 0 <= i < |t| :: t[i].Free?
  {
    assert UsedSlots(t) == {};
    forall i: nat | i < |t| ensures t[i].Free? {
      assert i !in UsedSlots(t);
    }
  }

  /** The first `n` slots of a table, the others taken to be free. */
  ghost function Masked<K(!new), V(!new)>(t: seq<Slot<K, V>>, n: nat): (m: seq<Slot<K, V>>)
    ensures |m| == |t|
  {
    seq(|t|, i requires 0 <= i < |t| => if i < n then t[i] else Free)
  }

  lemma MaskedStep<K(!new), V(!new)>(t: seq<Slot<K, V>>, n: nat)
    requires n < |t| && UniqueKeys(t)
    ensures UniqueKeys(Masked(t, n)) && UniqueKeys(Masked(t, n + 1)) && |UsedSlots(Masked(t, n))| <= n
    ensures t[n].Free? ==> Masked(t, n + 1) == Masked(t, n)
    ensures t[n].Used? ==> t[n].key !in Contents(Masked(t, n))
    ensures t[n].Used? ==> Contents(Masked(t, n + 1)) == Contents(Masked(t, n))[t[n].key := t[n].data]
    ensures t[n].Used? ==> |UsedSlots(Masked(t, n + 1))| == |UsedSlots(Masked(t, n))| + 1
  {
    var p, q := Masked(t, n), Masked(t, n + 1);
    assert q == p[n := t[n]];
    assert UniqueKeys(p) && UniqueKeys(q);
    MaskedSlots(t, n);
    if t[n].Used? {
      hide Masked;
      ContentsAfterWrite(p, n, t[n].key, t[n].data);
    }
  }

  lemma MaskedSlots<K(!new), V(!new)>(t: seq<Slot<K, V>>, n: nat)
    requires n < |t|
    ensures |UsedSlots(Masked(t, n))| <= n
    ensures t[n].Used? ==> |UsedSlots(Masked(t, n + 1))| == |UsedSlots(Masked(t, n))| + 1
  {
    var p, q := UsedSlots(Masked(t, n)), UsedSlots(Masked(t, n + 1));
    assert forall x | x in p :: x < n;
    assert t[n].Used? ==> q == p + {n};
    assert p <= Window(|t|, 0, n);
    hide UsedSlots, Masked, Window;
    WindowSize(|t|, 0, n);
    SubsetSize(p, Window(|t|, 0, n));
  }

  lemma CopyStep<K(!new), V(!new)>(t: seq<Slot<K, V>>, hash: K -> nat, k: K, v: V)
    requires WellFormed(t, hash) && |UsedSlots(t)| < |t| / 2 && k !in Contents(t)
    ensures var e := Probe(t, hash, k, 0);
            && e.Vacant? && e.slot < |t| && WellFormed(t[e.slot := Used(k, v)], hash)
            && UniqueKeys(t[e.slot := Used(k, v)])
            && Contents(t[e.slot := Used(k, v)]) == Contents(t)[k := v]
            && |UsedSlots(t[e.slot := Used(k, v)])| == |UsedSlots(t)| + 1
  {
    assert |t| >= 2;
    hide WellFormed, UniqueKeys, Contents, UsedSlots, Probe;
    ProbeNotExhausted(t, hash, k);
    LookupAgrees(t, hash, k);
    ProbeSound(t, hash, k, 0);
    InsertKeeps(t, hash, k, v, Probe(t, hash, k, 0).slot);
  }

  /** Storing under a key whose probe ended with a slot, as an update or as a new entry. */
  lemma StoreStep<K(!new), V(!new)>(t: seq<Slot<K, V>>, hash: K -> nat, k: K, v: V, slot: nat)
    requires WellFormed(t, hash)
    requires Probe(t, hash, k, 0) == Hit(slot) || Probe(t, hash, k, 0) == Vacant(slot)
    ensures slot < |t| && (t[slot].Used? <==> k in Contents(t)) && (t[slot].Used? ==> Contents(t)[k] == t[slot].data)
    ensures WellFormed(t[slot := Used(k, v)], hash) && Contents(t[slot := Used(k, v)]) == Contents(t)[k := v]
    ensures |UsedSlots(t[slot := Used(k, v)])| == |UsedSlots(t)| + if k in Contents(t) then 0 else 1
  {
    if Probe(t, hash, k, 0).Hit? {
      UpdateKeeps(t, hash, k, v, slot);
    } else {
      InsertKeeps(t, hash, k, v, slot);
    }
  }

  /** Removing a key: what its probe says, and what `clear_elem` on its slot leaves. */
  lemma RemoveStep<K(!new), V(!new)>(t: seq<Slot<K, V>>, hash: K -> nat, k: K)
    requires WellFormed(t, hash)
    ensures UniqueKeys(t) && |Contents(t)| == |UsedSlots(t)|
    ensures var e := Probe(t, hash, k, 0);
            && (e.Hit? <==> k in Contents(t))
            && (!e.Hit? ==> Contents(t) - {k} == Contents(t))
            && (e.Hit? ==> t[e.slot].Used? && t[e.slot].data == Contents(t)[k])
            && (e.Hit? ==> UniqueKeys(Cleared(t, hash, e.slot)))
            && (e.Hit? ==> Contents(Cleared(t, hash, e.slot)) == Contents(t) - {k})
            && (e.Hit? ==> (WellFormed(Cleared(t, hash, e.slot), hash) <==> RemovalSafe(t, hash, e.slot)))
  {
    LookupAgrees(t, hash, k);
    ProbeSound(t, hash, k, 0);
    KeysCounted(t);
    hide WellFormed, UniqueKeys, Contents, UsedSlots, Probe, RemovalSafe;
    var e := Probe(t, hash, k, 0);
    if e.Hit? {
      ClearedContents(t, hash, e.slot);
      WellFormedIffSafe(t, hash, e.slot);
    }
  }

  lemma ProbeSlot<K(!new), V(!new)>(t: seq<Slot<K, V>>, hash: K -> nat, k: K)
    requires |t| >= 2
    ensures var e := Probe(t, hash, k, 0); !e.Exhausted? ==> (t[e.slot].Used? <==> e.Hit?)
  {
    ProbeSound(t, hash, k, 0);
  }

  lemma DoubledSize(n: nat)
    requires TableSize(n)
    ensures n % 4 == 0 && (TableSize(2 * n) <==> 2 * n * SLOT_BYTES < SIZE_T_VALUES)
  {
    assert PowerOfTwo(n / 2);
    assert (2 * n) / 2 == n;
  }

  lemma MaskedNone<K(!new), V(!new)>(t: seq<Slot<K, V>>)
    ensures var m := Masked(t, 0); UniqueKeys(m) && Contents(m) == map[] && UsedSlots(m) == {}
  {}

  lemma MaskedAll<K(!new), V(!new)>(t: seq<Slot<K, V>>)
    ensures Masked(t, |t|) == t
  {}

  lemma EmptyTable<K(!new), V(!new)>(t: seq<Slot<K, V>>, hash: K -> nat)
    requires TableSize(|t|) && forall i | 0 <= i < |t| :: t[i].Free?
    ensures WellFormed(t, hash) && Contents(t) == map[] && UsedSlots(t) == {}
  {}

  /** There are as many keys as used slots, so that `length` counts the keys. */
  lemma {:induction false} KeysCounted<K(!new), V(!new)>(t: seq<Slot<K, V>>)
    requires UniqueKeys(t)
    ensures |Contents(t)| == |UsedSlots(t)|
  {
    KeysCountedUpTo(t, |t|);
    MaskedAll(t);
  }

  lemma {:induction false} KeysCountedUpTo<K(!new), V(!new)>(t: seq<Slot<K, V>>, n: nat)
    requires UniqueKeys(t) && n <= |t|
    ensures UniqueKeys(Masked(t, n)) && |Contents(Masked(t, n))| == |UsedSlots(Masked(t, n))|
  {
    hide Masked, Contents, UsedSlots, UniqueKeys;
    if n == 0 {
      MaskedNone(t);
    } else {
      KeysCountedUpTo(t, n - 1);
      MaskedStep(t, n - 1);
      if t[n - 1].Used? {
        GrowByKey(Contents(Masked(t, n - 1)), t[n - 1].key, t[n - 1].data);
      }
    }
  }
}
