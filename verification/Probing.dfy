/** The hash map's table as a value: linear probing, insertion into a probed slot and
    deletion by backward shift, with what each of them keeps. */
module Probing {
  import opened Collections
  import opened Cyclic

  datatype Slot<+K, +V> = Free | Used(key: K, data: V)

  /** What a probe for a key ends with. */
  datatype ProbeEnd = Hit(slot: nat) | Vacant(slot: nat) | Exhausted

  const SLOT_BYTES: nat := 16

  /** A power of two whose slots' bytes can be counted by a `size_t`. */
  predicate TableSize(n: nat) {
    n >= 4 && PowerOfTwo(n) && n * SLOT_BYTES < SIZE_T_VALUES
  }

  function Home<K>(hash: K -> nat, n: nat, k: K): (h: nat)
    requires n > 0
    ensures h < n
  {
    hash(k) % n
  }

  function Probe<K(==), V>(t: seq<Slot<K, V>>, hash: K -> nat, k: K, d: nat): (e: ProbeEnd)
    requires |t| >= 2 && d <= |t| / 2
    ensures !e.Exhausted? ==> e.slot < |t|
    decreases |t| / 2 - d
  {
    if d == |t| / 2 then Exhausted else
      var i := At(|t|, Home(hash, |t|, k), d);
      if t[i].Free? then Vacant(i)
      else if t[i].key == k then Hit(i)
      else Probe(t, hash, k, d + 1)
  }

  /** The answer of `m_map_get` on a table. */
  function Lookup<K(==), V>(t: seq<Slot<K, V>>, hash: K -> nat, k: K): (r: Slot<K, V>)
    requires |t| >= 2
  {
    var e := Probe(t, hash, k, 0);
    if e.Hit? then t[e.slot] else Free
  }

  // ---- what a well-formed table is -------------------------------------------------

  ghost predicate UniqueKeys<K(!new), V(!new)>(t: seq<Slot<K, V>>) {
    forall i, j | 0 <= i < |t| && 0 <= j < |t| && t[i].Used? && t[j].Used? && t[i].key == t[j].key :: i == j
  }

  /** Slot `x` lies on the probe path that leads from home `h` up to, but not including, slot `j`. */
  predicate OnPath(n: nat, h: nat, j: nat, x: nat)
    requires h < n && j < n && x < n
  {
    Gap(n, h, x) < Gap(n, h, j)
  }

  /** The entry in slot `j` is within the probe limit and its probe path has no free slot. */
  ghost predicate Reached<K(!new), V(!new)>(t: seq<Slot<K, V>>, hash: K -> nat, j: nat)
    requires j < |t| && t[j].Used?
  {
    var h := Home(hash, |t|, t[j].key);
    && Gap(|t|, h, j) < |t| / 2
    && forall x | 0 <= x < |t| && OnPath(|t|, h, j, x) :: t[x].Used?
  }

  ghost predicate WellFormed<K(!new), V(!new)>(t: seq<Slot<K, V>>, hash: K -> nat) {
    && TableSize(|t|)
    && UniqueKeys(t)
    && forall j | 0 <= j < |t| && t[j].Used? :: Reached(t, hash, j)
  }

  /** The mathematical map that a table stands for. */
  ghost function Contents<K(!new), V(!new)>(t: seq<Slot<K, V>>): map<K, V>
    requires UniqueKeys(t)
  {
    map i | 0 <= i < |t| && t[i].Used? :: t[i].key := t[i].data
  }

  ghost function UsedSlots<K(!new), V(!new)>(t: seq<Slot<K, V>>): set<nat> {
    set i: nat | i < |t| && t[i].Used?
  }

  // ---- probing finds exactly what the table holds ----------------------------------

  lemma {:induction false} ProbeReaches<K(!new), V(!new)>(t: seq<Slot<K, V>>, hash: K -> nat, j: nat, d: nat)
    requires |t| >= 2 && UniqueKeys(t)
    requires j < |t| && t[j].Used? && Reached(t, hash, j)
    requires d <= Gap(|t|, Home(hash, |t|, t[j].key), j)
    ensures Probe(t, hash, t[j].key, d) == Hit(j)
    decreases |t| - d
  {
    var h := Home(hash, |t|, t[j].key);
    if d < Gap(|t|, h, j) {
      assert OnPath(|t|, h, j, At(|t|, h, d));
      ProbeReaches(t, hash, j, d + 1);
    }
  }

  /** What a probe that starts `d` steps from home can end with. */
  lemma {:induction false} ProbeSound<K(!new), V(!new)>(t: seq<Slot<K, V>>, hash: K -> nat, k: K, d: nat)
    requires |t| >= 2 && d <= |t| / 2
    ensures var e := Probe(t, hash, k, d); var h := Home(hash, |t|, k);
            && (e.Hit? ==> t[e.slot].Used? && t[e.slot].key == k)
            && (e.Vacant? ==> t[e.slot].Free? && d <= Gap(|t|, h, e.slot) < |t| / 2)
            && (e.Vacant? ==> forall x | 0 <= x < |t| && d <= Gap(|t|, h, x) < Gap(|t|, h, e.slot) :: t[x].Used?)
            && (e.Exhausted? ==> forall x | 0 <= x < |t| && d <= Gap(|t|, h, x) < |t| / 2 :: t[x].Used?)
    decreases |t| / 2 - d
  {
    var h := Home(hash, |t|, k);
    if d < |t| / 2 {
      var i := At(|t|, h, d);
      assert Gap(|t|, h, i) == d;
      assert forall x | 0 <= x < |t| && Gap(|t|, h, x) == d :: x == i;
      if t[i].Used? && t[i].key != k {
        ProbeSound(t, hash, k, d + 1);
      }
    }
  }

  /** On a well-formed table `m_map_get` answers as the mathematical map does. */
  lemma LookupAgrees<K(!new), V(!new)>(t: seq<Slot<K, V>>, hash: K -> nat, k: K)
    requires WellFormed(t, hash)
    ensures Lookup(t, hash, k) == if k in Contents(t) then Used(k, Contents(t)[k]) else Free
  {
    ProbeSound(t, hash, k, 0);
    if k in Contents(t) {
      var j :| 0 <= j < |t| && t[j].Used? && t[j].key == k;
      ProbeReaches(t, hash, j, 0);
    }
  }

  // ---- insertion -------------------------------------------------------------------

  lemma WriteKeepsReached<K(!new), V(!new)>(t: seq<Slot<K, V>>, hash: K -> nat, k: K, v: V, i: nat, j: nat)
    requires i < |t| && j < |t| && (j != i ==> t[j].Used? && Reached(t, hash, j))
    requires j == i ==> Gap(|t|, Home(hash, |t|, k), i) < |t| / 2
    requires j == i ==> forall x | 0 <= x < |t| && OnPath(|t|, Home(hash, |t|, k), i, x) :: t[x].Used?
    ensures Reached(t[i := Used(k, v)], hash, j)
  {
    var t' := t[i := Used(k, v)];
    assert forall x | 0 <= x < |t| && t[x].Used? :: t'[x].Used?;
  }

  lemma InsertUnique<K(!new), V(!new)>(t: seq<Slot<K, V>>, k: K, v: V, i: nat)
    requires UniqueKeys(t) && i < |t| && t[i].Free? && k !in Contents(t)
    ensures UniqueKeys(t[i := Used(k, v)])
  {
    forall j | 0 <= j < |t| && t[j].Used? ensures t[j].key != k {
      assert t[j].key in Contents(t);
    }
  }

  lemma VacantIsAbsent<K(!new), V(!new)>(t: seq<Slot<K, V>>, hash: K -> nat, k: K, i: nat)
    requires WellFormed(t, hash) && Probe(t, hash, k, 0) == Vacant(i)
    ensures i < |t| && t[i].Free? && k !in Contents(t) && Gap(|t|, Home(hash, |t|, k), i) < |t| / 2
    ensures forall x | 0 <= x < |t| && OnPath(|t|, Home(hash, |t|, k), i, x) :: t[x].Used?
  {
    ProbeSound(t, hash, k, 0);
    LookupAgrees(t, hash, k);
  }

  /** Writing a new entry where its probe found a free slot. */
  lemma InsertKeeps<K(!new), V(!new)>(t: seq<Slot<K, V>>, hash: K -> nat, k: K, v: V, i: nat)
    requires WellFormed(t, hash) && Probe(t, hash, k, 0) == Vacant(i)
    ensures i < |t| && t[i].Free? && k !in Contents(t)
    ensures WellFormed(t[i := Used(k, v)], hash)
    ensures Contents(t[i := Used(k, v)]) == Contents(t)[k := v]
    ensures UsedSlots(t[i := Used(k, v)]) == UsedSlots(t) + {i}
  {
    hide Probe, Lookup, UniqueKeys, Reached, Contents;
    VacantIsAbsent(t, hash, k, i);
    InsertUnique(t, k, v, i);
    ContentsAfterWrite(t, i, k, v);
    var t' := t[i := Used(k, v)];
    forall j | 0 <= j < |t'| && t'[j].Used? ensures Reached(t', hash, j) {
      WriteKeepsReached(t, hash, k, v, i, j);
    }
  }

  lemma ContentsAfterWrite<K(!new), V(!new)>(t: seq<Slot<K, V>>, i: nat, k: K, v: V)
    requires i < |t| && UniqueKeys(t) && UniqueKeys(t[i := Used(k, v)])
    requires t[i].Used? ==> t[i].key == k
    ensures Contents(t[i := Used(k, v)]) == Contents(t)[k := v]
  {
    var t' := t[i := Used(k, v)];
    forall x ensures x in Contents(t') <==> x in Contents(t)[k := v] {
      if x in Contents(t) {
        var j :| 0 <= j < |t| && t[j].Used? && t[j].key == x;
        assert t'[j].Used? && t'[j].key == x;
      }
      assert t'[i].key == k;
    }
    forall x | x in Contents(t') ensures Contents(t')[x] == Contents(t)[k := v][x] {
      var j :| 0 <= j < |t'| && t'[j].Used? && t'[j].key == x;
      if x == k { assert j == i; } else { assert t[j] == t'[j]; }
    }
  }

  /** Overwriting the value of a key that is present. */
  lemma UpdateKeeps<K(!new), V(!new)>(t: seq<Slot<K, V>>, hash: K -> nat, k: K, v: V, i: nat)
    requires WellFormed(t, hash) && Probe(t, hash, k, 0) == Hit(i)
    ensures i < |t| && t[i].Used? && t[i].key == k && k in Contents(t) && Contents(t)[k] == t[i].data
    ensures WellFormed(t[i := Used(k, v)], hash)
    ensures Contents(t[i := Used(k, v)]) == Contents(t)[k := v]
    ensures UsedSlots(t[i := Used(k, v)]) == UsedSlots(t)
  {
    ProbeSound(t, hash, k, 0);
    var t' := t[i := Used(k, v)];
    forall j | 0 <= j < |t'| && t'[j].Used? ensures Reached(t', hash, j) {
      assert Reached(t, hash, j);
    }
    ContentsAfterWrite(t, i, k, v);
  }

  // ---- pigeonhole ------------------------------------------------------------------

  /** The `m` slots that follow each other cyclically from `base`. */
  ghost function Window(n: nat, base: nat, m: nat): set<nat>
    requires base < n && m <= n
  {
    set x: nat | x < n && Gap(n, base, x) < m
  }

  lemma {:induction false} WindowSize(n: nat, base: nat, m: nat)
    requires base < n && m <= n
    ensures |Window(n, base, m)| == m
  {
    if m == 0 {
      assert Window(n, base, m) == {};
    } else {
      WindowSize(n, base, m - 1);
      assert Window(n, base, m) == Window(n, base, m - 1) + {At(n, base, m - 1)};
    }
  }

  /** Fewer entries than slots in a window leave one of its slots free. */
  lemma Pigeonhole<K(!new), V(!new)>(t: seq<Slot<K, V>>, base: nat, m: nat)
    requires base < |t| && m <= |t| && |UsedSlots(t)| < m
    ensures exists x :: 0 <= x < |t| && Gap(|t|, base, x) < m && t[x].Free?
  {
    if forall x :: 0 <= x < |t| && Gap(|t|, base, x) < m ==> t[x].Used? {
      WindowSize(|t|, base, m);
      SubsetSize(Window(|t|, base, m), UsedSlots(t));
    }
  }

  /** With fewer entries than the probe limit, no probe is exhausted: this is why a rehash
      into a doubled table always finds a slot. */
  lemma ProbeNotExhausted<K(!new), V(!new)>(t: seq<Slot<K, V>>, hash: K -> nat, k: K)
    requires |t| >= 2 && |UsedSlots(t)| < |t| / 2
    ensures !Probe(t, hash, k, 0).Exhausted?
  {
    ProbeSound(t, hash, k, 0);
    Pigeonhole(t, Home(hash, |t|, k), |t| / 2);
  }
}
