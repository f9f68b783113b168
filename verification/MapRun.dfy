/** Whole runs of map operations, compared with a mathematical map. */
module MapRun {
  import opened Probing
  import opened BackwardShift
  import opened HashMap
  import opened Options

  datatype Op<+K, +V> = Put(key: K, value: V) | Get(key: K) | Remove(key: K)

  datatype Answer<+V> = Got(found: Option<V>) | Did(status: Status)

  /** What a mathematical map becomes under an operation that was answered `a`. */
  function Becomes<K, V>(m: map<K, V>, op: Op<K, V>, a: Answer<V>): map<K, V> {
    match op
    case Put(k, v) => if a == Did(Ok) then m[k := v] else m
    case Get(_) => m
    case Remove(k) => m - {k}
  }

  function StateAfter<K, V(==)>(ops: seq<Op<K, V>>, answers: seq<Answer<V>>, n: nat): map<K, V>
    requires n <= |answers| <= |ops|
  {
    if n == 0 then map[] else Becomes(StateAfter(ops, answers, n - 1), ops[n - 1], answers[n - 1])
  }

  /** A put can find no memory only when the table must grow, so that half of it is in use, and then
      only when the allocation fails or the table has the maximal size already. */
  predicate MayLackMemory<K, V(==)>(m: map<K, V>, memory: bool) {
    2 * |m| >= if memory then MAX_SLOTS else DEFAULT_SIZE
  }

  /** The answers a mathematical map admits. */
  predicate RightAnswer<K, V(==)>(m: map<K, V>, allowUpdate: bool, op: Op<K, V>, memory: bool, a: Answer<V>) {
    match op
    case Put(k, _) =>
      if a == Did(NoMemory) then MayLackMemory(m, memory)
      else a == Did(if k in m && !allowUpdate then NotPermitted else Ok)
    case Get(k) => a == Got(if k in m then Some(m[k]) else None)
    case Remove(k) => a == Did(if m == map[] then Invalid else if k in m then Ok else NoEntry)
  }

  ghost predicate RightAnswers<K(!new), V(!new)>(
      ops: seq<Op<K, V>>, allowUpdate: bool, memory: nat -> bool, answers: seq<Answer<V>>)
    requires |answers| <= |ops|
  {
    forall n | 0 <= n < |answers| ::
      RightAnswer(StateAfter(ops, answers, n), allowUpdate, ops[n], memory(n), answers[n])
  }

  lemma {:induction false} StateFrame<K(!new), V(!new)>(
      ops: seq<Op<K, V>>, answers: seq<Answer<V>>, a: Answer<V>, n: nat)
    requires n <= |answers| < |ops|
    ensures StateAfter(ops, answers + [a], n) == StateAfter(ops, answers, n)
  {
    if n > 0 {
      StateFrame(ops, answers, a, n - 1);
      assert (answers + [a])[n - 1] == answers[n - 1];
    }
  }

  lemma StateStep<K(!new), V(!new)>(ops: seq<Op<K, V>>, answers: seq<Answer<V>>, a: Answer<V>)
    requires |answers| < |ops|
    ensures StateAfter(ops, answers + [a], |answers| + 1)
         == Becomes(StateAfter(ops, answers, |answers|), ops[|answers|], a)
  {
    StateFrame(ops, answers, a, |answers|);
  }

  lemma RunStep<K(!new), V(!new)>(
      ops: seq<Op<K, V>>, allowUpdate: bool, memory: nat -> bool, answers: seq<Answer<V>>, a: Answer<V>)
    requires |answers| < |ops| && RightAnswers(ops, allowUpdate, memory, answers)
    requires RightAnswer(StateAfter(ops, answers, |answers|), allowUpdate, ops[|answers|], memory(|answers|), a)
    ensures RightAnswers(ops, allowUpdate, memory, answers + [a])
    ensures StateAfter(ops, answers + [a], |answers| + 1)
         == Becomes(StateAfter(ops, answers, |answers|), ops[|answers|], a)
  {
    hide StateAfter, RightAnswer;
    StateStep(ops, answers, a);
    forall n: nat | n <= |answers|
      ensures RightAnswer(StateAfter(ops, answers + [a], n), allowUpdate, ops[n], memory(n), (answers + [a])[n])
    {
      StateFrame(ops, answers, a, n);
      assert n < |answers| ==> RightAnswer(StateAfter(ops, answers, n), allowUpdate, ops[n], memory(n), answers[n]);
    }
  }

  /** Executes the operations on a new map, up to the first removal that is not safe. All answers
      are those of a mathematical map; `memory` says of each operation whether an allocation succeeds,
      and a put fails for want of memory only when it does not, on a map of 128 keys or more, or on one
      of 2^58. The map that results is valid and stands for the mathematical map. A run that is stopped
      stands before a removal that is not safe, in a map of which more than half is in use; so as long as
      no more than 128 keys are held at a time, the run is complete. */
  method Run<K(==,!new), V(==,!new)>(hash: K -> nat, allowUpdate: bool, ops: seq<Op<K, V>>, memory: nat -> bool)
      returns (answers: seq<Answer<V>>, m: Map<K, V>)
    ensures |answers| <= |ops| && RightAnswers(ops, allowUpdate, memory, answers)
    ensures m.hash == hash && m.allowUpdate == allowUpdate && m.Valid()
    ensures m.Entries() == StateAfter(ops, answers, |answers|)
    ensures |answers| < |ops| ==> Unsafe(m, ops[|answers|])
  {
    hide WellFormed, UniqueKeys, Contents, UsedSlots, Probe, Lookup, RemovalSafe, RightAnswers, StateAfter, TableSize;
    answers := [];
    m := new Map<K, V>(hash, allowUpdate);
    RunStart(ops, allowUpdate, memory);
    for n := 0 to |ops|
      invariant |answers| == n && m.Valid() && fresh(m) && fresh(m.table) && m.table.Length >= DEFAULT_SIZE
      invariant m.hash == hash && m.allowUpdate == allowUpdate
      invariant RightAnswers(ops, allowUpdate, memory, answers)
      invariant m.Entries() == StateAfter(ops, answers, n)
    {
      var a := Execute(m, ops[n], memory(n));
      if a.None? {
        return;
      }
      RunStep(ops, allowUpdate, memory, answers, a.value);
      answers := answers + [a.value];
    }
  }

  /** The next operation is a removal that would make another key unreachable. */
  ghost predicate Unsafe<K(!new), V(!new)>(m: Map<K, V>, op: Op<K, V>)
    requires m.Valid()
    reads m, m.table
  {
    && op.Remove? && op.key in m.Entries() && !m.Removable(op.key)
    && |m.Entries()| > m.table.Length / 2 >= DEFAULT_SIZE / 2
  }

  /** One operation on the map, refused only when it is an unsafe removal. */
  method Execute<K(==,!new), V(==,!new)>(m: Map<K, V>, op: Op<K, V>, memory: bool) returns (a: Option<Answer<V>>)
    requires m.Valid() && m.table.Length >= DEFAULT_SIZE
    modifies m, m.table
    ensures m.Valid() && m.table.Length >= DEFAULT_SIZE && (m.table == old(m.table) || fresh(m.table))
    ensures a.None? ==> Unsafe(m, op) && m.Entries() == old(m.Entries())
    ensures a.Some? ==> RightAnswer(old(m.Entries()), m.allowUpdate, op, memory, a.value)
    ensures a.Some? ==> m.Entries() == Becomes(old(m.Entries()), op, a.value)
  {
    hide WellFormed, UniqueKeys, Contents, UsedSlots, Probe, Lookup, RemovalSafe, TableSize;
    match op {
      case Put(k, v) => a := ExecutePut(m, k, v, memory);
      case Get(k) =>
        var found := m.Get(k);
        a := Some(Got(found));
      case Remove(k) => a := ExecuteRemove(m, k);
    }
  }

  method ExecutePut<K(==,!new), V(==,!new)>(m: Map<K, V>, k: K, v: V, memory: bool) returns (a: Option<Answer<V>>)
    requires m.Valid() && m.table.Length >= DEFAULT_SIZE
    modifies m, m.table
    ensures m.Valid() && m.table.Length >= DEFAULT_SIZE && (m.table == old(m.table) || fresh(m.table))
    ensures a.Some? && RightAnswer(old(m.Entries()), m.allowUpdate, Put(k, v), memory, a.value)
    ensures m.Entries() == Becomes(old(m.Entries()), Put(k, v), a.value)
  {
    hide WellFormed, UniqueKeys, Contents, UsedSlots, Probe, Lookup, RemovalSafe, TableSize;
    if m.Crowded(k) {
      m.CrowdedIsHalfFull(k);
    }
    var ret := m.Put(k, v, memory);
    a := Some(Did(ret));
  }

  method ExecuteRemove<K(==,!new), V(==,!new)>(m: Map<K, V>, k: K) returns (a: Option<Answer<V>>)
    requires m.Valid() && m.table.Length >= DEFAULT_SIZE
    modifies m, m.table
    ensures m.Valid() && m.table == old(m.table)
    ensures a.None? ==> Unsafe(m, Remove(k)) && m.Entries() == old(m.Entries())
    ensures a.Some? ==> a == Some(Did(if old(m.Entries()) == map[] then Invalid
                                      else if k in old(m.Entries()) then Ok else NoEntry))
    ensures a.Some? ==> m.Entries() == old(m.Entries()) - {k}
  {
    hide WellFormed, UniqueKeys, Contents, UsedSlots, Probe, Lookup, RemovalSafe, TableSize, Cleared;
    var safe := SafeToRemove(m, k);
    if !safe {
      return None;
    }
    var ret := m.Remove(k);
    a := Some(Did(ret));
  }

  lemma RunStart<K(!new), V(!new)>(ops: seq<Op<K, V>>, allowUpdate: bool, memory: nat -> bool)
    ensures RightAnswers(ops, allowUpdate, memory, []) && StateAfter<K, V>(ops, [], 0) == map[]
  {}

  /** The caller's check before a removal. It can only fail on a map more than half full. */
  method SafeToRemove<K(==,!new), V(==,!new)>(m: Map<K, V>, key: K) returns (safe: bool)
    requires m.Valid()
    ensures safe <==> m.Removable(key)
    ensures !safe ==> key in m.Entries() && |m.Entries()| > m.table.Length / 2
  {
    ghost var t := m.table[..];
    LookupAgrees(t, m.hash, key);
    ProbeSound(t, m.hash, key, 0);
    KeysCounted(t);
    var slot := m.EntryFind(key, false);
    hide WellFormed, UniqueKeys, Contents, UsedSlots, RemovalSafe;
    if slot.None? {
      safe := true;
    } else {
      safe := RemovalSafe(m.table[..], m.hash, slot.value);
      if !safe && m.length <= m.table.Length / 2 {
        HalfFullIsSafe(t, m.hash, slot.value);
      }
    }
  }

  // ---- a run that loses a key ------------------------------------------------------

  lemma FilledGrows(n: nat)
    requires n <= 128
    ensures |UsedSlots(Filled(n))| == n && Filled(n)[n := Used(n, n)] == Filled(n + 1)
    ensures Probe<nat, nat>(Filled(n), OWN_SLOT, n, 0) == Vacant(n)
  {
    assert UsedSlots(Filled(n)) == Window(256, 0, n);
    WindowSize(256, 0, n);
    FilledProbe(n, n);
  }

  /** Puts the keys 0 to 128 into a new map. */
  method CrowdedMap() returns (m: Map<nat, nat>)
    ensures fresh(m) && fresh(m.table) && m.Valid() && m.hash == OWN_SLOT && m.table[..] == CrowdedTable()
  {
    hide WellFormed, UniqueKeys, Contents, UsedSlots, Probe;
    m := new Map<nat, nat>(OWN_SLOT, false);
    NewTable(m);
    for k := 0 to 129
      invariant fresh(m) && fresh(m.table) && m.Valid() && m.hash == OWN_SLOT && m.table[..] == Filled(k)
    {
      FilledGrows(k);
      VacantIsAbsent(m.table[..], OWN_SLOT, k, k);
      var ret := m.Put(k, k, true);
      assert ret == Ok;
    }
  }

  lemma NewTable(m: Map<nat, nat>)
    requires m.Valid() && m.Entries() == map[] && m.table.Length == DEFAULT_SIZE
    ensures m.table[..] == Filled(0)
  {
    KeysCounted(m.table[..]);
    NoEntries(m.table[..]);
  }

  /** There, key 128 is found until key 0 is removed. */
  method RemovalLosesKey() returns (before: Option<nat>, removed: Status, after: Option<nat>)
    ensures before == Some(128) && removed == Ok && after == None
  {
    hide WellFormed, UniqueKeys, Contents, UsedSlots, Probe, Lookup, Cleared;
    var m := CrowdedMap();
    CrowdedRemovalLosesKey();
    FilledProbe(129, 0);
    RemoveStep(m.table[..], OWN_SLOT, 0);
    before := m.Get(128);
    removed := m.Remove(0);
    after := m.Get(128);
  }
}
