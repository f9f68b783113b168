/** Deletion by backward shift (`clear_elem`): what it computes, when it is exact, and the
    removals that it gets wrong because its scan stops after half a table. */
module BackwardShift {
  import opened Cyclic
  import opened Probing

  // ---- the computation -------------------------------------------------------------

  /** The scan after the slot `r` was emptied: offsets `i + 1`, `i + 2`, ... up to half a table,
      each entry being moved into the hole when its home is at or before the hole. */
  function Shift<K, V>(t: seq<Slot<K, V>>, hash: K -> nat, r: nat, hole: nat, i: nat): (t': seq<Slot<K, V>>)
    requires |t| >= 2 && r < |t| && hole < |t| && i <= |t| / 2
    ensures |t'| == |t|
    decreases |t| / 2 - i
  {
    if i == |t| / 2 then t else
      var index := At(|t|, r, i + 1);
      if t[index].Free? then t
      else if IndexLE(|t|, hole, Home(hash, |t|, t[index].key)) then
        Shift(t[hole := t[index]][index := Free], hash, r, index, i + 1)
      else
        Shift(t, hash, r, hole, i + 1)
  }

  /** The scan looks at one more slot, or is at its end. */
  lemma ShiftUnfolds<K, V>(t: seq<Slot<K, V>>, hash: K -> nat, r: nat, hole: nat, i: nat)
    requires |t| >= 2 && r < |t| && hole < |t| && i <= |t| / 2
    ensures i == |t| / 2 ==> Shift(t, hash, r, hole, i) == t
    ensures i < |t| / 2 ==>
              var index := At(|t|, r, i + 1);
              Shift(t, hash, r, hole, i)
              == if t[index].Free? then t
                 else if IndexLE(|t|, hole, Home(hash, |t|, t[index].key))
                 then Shift(t[hole := t[index]][index := Free], hash, r, index, i + 1)
                 else Shift(t, hash, r, hole, i + 1)
  {}

  /** The table after `clear_elem` on slot `r`. */
  function Cleared<K, V>(t: seq<Slot<K, V>>, hash: K -> nat, r: nat): (t': seq<Slot<K, V>>)
    requires |t| >= 2 && r < |t|
    ensures |t'| == |t|
  {
    Shift(t[r := Free], hash, r, r, 0)
  }

  // ---- conservation: the scan only moves entries, whatever the table holds -----------

  /** The entries of `before` other than those in free slots, each as often as it occurs. */
  lemma {:induction false} ShiftPermutes<K(!new), V(!new)>(
      t: seq<Slot<K, V>>, hash: K -> nat, r: nat, hole: nat, i: nat)
    requires |t| >= 2 && r < |t| && hole < |t| && i <= |t| / 2
    requires t[hole].Free? && Gap(|t|, r, hole) <= i
    ensures multiset(Shift(t, hash, r, hole, i)) == multiset(t)
    decreases |t| / 2 - i
  {
    hide Home, IndexLE;
    if i < |t| / 2 {
      var index := At(|t|, r, i + 1);
      if t[index].Used? {
        if IndexLE(|t|, hole, Home(hash, |t|, t[index].key)) {
          ShiftPermutes(t[hole := t[index]][index := Free], hash, r, index, i + 1);
        } else {
          ShiftPermutes(t, hash, r, hole, i + 1);
        }
      }
    }
  }

  /** From any table contents, `clear_elem` takes away the one entry it was pointed at. */
  lemma ClearedConserves<K(!new), V(!new)>(t: seq<Slot<K, V>>, hash: K -> nat, r: nat)
    requires |t| >= 2 && r < |t|
    ensures multiset(Cleared(t, hash, r)) == multiset(t) - multiset{t[r]} + multiset{Free}
  {
    ShiftPermutes(t[r := Free], hash, r, r, 0);
  }

  lemma {:induction false} ShiftCounts<K(!new), V(!new)>(t: seq<Slot<K, V>>, hash: K -> nat, r: nat, hole: nat, i: nat)
    requires |t| >= 2 && r < |t| && hole < |t| && i <= |t| / 2
    requires t[hole].Free? && Gap(|t|, r, hole) <= i
    ensures var t' := Shift(t, hash, r, hole, i);
            |UsedSlots(t')| == |UsedSlots(t)| && (UniqueKeys(t) ==> UniqueKeys(t'))
    decreases |t| / 2 - i
  {
    hide UniqueKeys, UsedSlots, IndexLE, Home;
    if i < |t| / 2 {
      var index := At(|t|, r, i + 1);
      if t[index].Used? {
        if IndexLE(|t|, hole, Home(hash, |t|, t[index].key)) {
          SwapCounts(t, hole, index);
          ShiftCounts(t[hole := t[index]][index := Free], hash, r, index, i + 1);
        } else {
          ShiftCounts(t, hash, r, hole, i + 1);
        }
      }
    }
  }

  lemma SwapSize(s: set<nat>, hole: nat, index: nat)
    requires index in s && hole !in s
    ensures |s - {index} + {hole}| == |s|
  {}

  lemma SwapUnique<K(!new), V(!new)>(t: seq<Slot<K, V>>, hole: nat, index: nat)
    requires hole < |t| && index < |t| && t[hole].Free? && t[index].Used? && UniqueKeys(t)
    ensures UniqueKeys(t[hole := t[index]][index := Free])
  {}

  lemma SwapCounts<K(!new), V(!new)>(t: seq<Slot<K, V>>, hole: nat, index: nat)
    requires hole < |t| && index < |t| && t[hole].Free? && t[index].Used?
    ensures var t' := t[hole := t[index]][index := Free];
            |UsedSlots(t')| == |UsedSlots(t)| && (UniqueKeys(t) ==> UniqueKeys(t'))
  {
    hide UniqueKeys;
    assert UsedSlots(t[hole := t[index]][index := Free]) == UsedSlots(t) - {index} + {hole};
    SwapSize(UsedSlots(t), hole, index);
    if UniqueKeys(t) {
      SwapUnique(t, hole, index);
    }
  }

  /** From any table contents, `clear_elem` leaves one entry less. */
  lemma ClearedCounts<K(!new), V(!new)>(t: seq<Slot<K, V>>, hash: K -> nat, r: nat)
    requires |t| >= 2 && r < |t| && t[r].Used?
    ensures |UsedSlots(Cleared(t, hash, r))| == |UsedSlots(t)| - 1
    ensures UniqueKeys(t) ==> UniqueKeys(Cleared(t, hash, r))
  {
    assert UsedSlots(t[r := Free]) == UsedSlots(t) - {r};
    ShiftCounts(t[r := Free], hash, r, r, 0);
    assert UniqueKeys(t) ==> UniqueKeys(t[r := Free]);
  }

  lemma ContentsOfPermutation<K(!new), V(!new)>(t: seq<Slot<K, V>>, t': seq<Slot<K, V>>)
    requires UniqueKeys(t) && UniqueKeys(t') && multiset(t) == multiset(t')
    ensures Contents(t) == Contents(t')
  {
    forall s: Slot<K, V> ensures s in t <==> s in t' {
      assert s in multiset(t) <==> s in multiset(t');
    }
    ContentsByEntries(t, t');
    ContentsByEntries(t', t);
  }

  lemma ContentsByEntries<K(!new), V(!new)>(t: seq<Slot<K, V>>, t': seq<Slot<K, V>>)
    requires UniqueKeys(t) && UniqueKeys(t') && forall s | s in t :: s in t'
    ensures forall k | k in Contents(t) :: k in Contents(t') && Contents(t')[k] == Contents(t)[k]
  {
    forall k | k in Contents(t) ensures k in Contents(t') && Contents(t')[k] == Contents(t)[k] {
      var j :| 0 <= j < |t| && t[j].Used? && t[j].key == k;
      assert t[j] in t';
      var i :| 0 <= i < |t'| && t'[i] == t[j];
    }
  }

  lemma EmptiedContents<K(!new), V(!new)>(t: seq<Slot<K, V>>, r: nat)
    requires r < |t| && t[r].Used? && UniqueKeys(t)
    ensures Contents(t[r := Free]) == Contents(t) - {t[r].key}
    ensures UsedSlots(t[r := Free]) == UsedSlots(t) - {r}
  {
    // writing the entry back gives the old table again
    var t0 := t[r := Free];
    assert t0[r := t[r]] == t;
    ContentsAfterWrite(t0, r, t[r].key, t[r].data);
    assert t[r].key !in Contents(t0);
  }

  /** `clear_elem` on a table without duplicate keys removes that key from the contents. */
  lemma ClearedContents<K(!new), V(!new)>(t: seq<Slot<K, V>>, hash: K -> nat, r: nat)
    requires |t| >= 2 && r < |t| && t[r].Used? && UniqueKeys(t)
    ensures UniqueKeys(Cleared(t, hash, r))
    ensures Contents(Cleared(t, hash, r)) == Contents(t) - {t[r].key}
    ensures |UsedSlots(Cleared(t, hash, r))| == |UsedSlots(t)| - 1
  {
    EmptiedContents(t, r);
    ClearedCounts(t, hash, r);
    ShiftPermutes(t[r := Free], hash, r, r, 0);
    ContentsOfPermutation(t[r := Free], Cleared(t, hash, r));
  }

  // ---- exactness -------------------------------------------------------------------

  /** Everything but the hole is in order: entries are within their limit, and a probe path may
      lack only the hole, and then only for an entry that the scan has not reached. */
  ghost predicate Scanned<K(!new), V(!new)>(t: seq<Slot<K, V>>, hash: K -> nat, r: nat, hole: nat, i: nat)
    requires r < |t| && hole < |t|
  {
    && TableSize(|t|) && UniqueKeys(t) && i <= |t| / 2
    && t[hole].Free? && Gap(|t|, r, hole) <= i
    && forall j | 0 <= j < |t| && t[j].Used? :: PathButHole(t, hash, r, hole, i, j)
  }

  ghost predicate PathButHole<K(!new), V(!new)>(t: seq<Slot<K, V>>, hash: K -> nat, r: nat, hole: nat, i: nat, j: nat)
    requires r < |t| && hole < |t| && j < |t| && t[j].Used?
  {
    var h := Home(hash, |t|, t[j].key);
    && Gap(|t|, h, j) < |t| / 2
    && forall x | 0 <= x < |t| && OnPath(|t|, h, j, x) :: t[x].Used? || (x == hole && Gap(|t|, r, j) > i)
  }

  /** Where the hole ends up, read off the table before the removal. */
  function FinalHole<K, V>(t: seq<Slot<K, V>>, hash: K -> nat, r: nat, hole: nat, i: nat): (f: nat)
    requires |t| >= 2 && r < |t| && hole < |t| && i <= |t| / 2
    ensures f < |t|
    decreases |t| / 2 - i
  {
    if i == |t| / 2 then hole else
      var index := At(|t|, r, i + 1);
      if t[index].Free? then hole
      else if IndexLE(|t|, hole, Home(hash, |t|, t[index].key)) then FinalHole(t, hash, r, index, i + 1)
      else FinalHole(t, hash, r, hole, i + 1)
  }

  /** A free slot lies within half a table after offset `i` from slot `r`. */
  predicate GapAfter<K, V>(t: seq<Slot<K, V>>, r: nat, i: nat)
    requires r < |t|
  {
    exists x :: 0 <= x < |t| && i < Gap(|t|, r, x) <= |t| / 2 && t[x].Free?
  }

  /** An entry beyond the scan still needs the slot `f` where the hole was left. */
  predicate Stranded<K, V>(t: seq<Slot<K, V>>, hash: K -> nat, r: nat, f: nat, j: nat)
    requires r < |t| && f < |t| && j < |t|
  {
    && t[j].Used? && Gap(|t|, r, j) > |t| / 2
    && OnPath(|t|, Home(hash, |t|, t[j].key), j, f)
  }

  /** The scan ended on its last slot by moving an entry out of its own home. */
  predicate Misread<K, V>(t: seq<Slot<K, V>>, hash: K -> nat, r: nat, f: nat)
    requires |t| >= 2 && r < |t| && f < |t|
  {
    f == At(|t|, r, |t| / 2) && t[f].Used? && Home(hash, |t|, t[f].key) == f
  }

  /** The condition, on the table before the removal, under which `clear_elem` is exact: the scan
      finds the end of the run, or else it neither misreads its last slot nor strands an entry. */
  predicate ScanSuffices<K, V>(t: seq<Slot<K, V>>, hash: K -> nat, r: nat, hole: nat, i: nat)
    requires |t| >= 2 && r < |t| && hole < |t| && i <= |t| / 2
  {
    || GapAfter(t, r, i)
    || (var f := FinalHole(t, hash, r, hole, i);
        && !(i < |t| / 2 && Misread(t, hash, r, f))
        && forall j | 0 <= j < |t| :: !Stranded(t, hash, r, f, j))
  }

  lemma {:induction false} FinalHoleFrame<K, V>(
      t: seq<Slot<K, V>>, t': seq<Slot<K, V>>, hash: K -> nat, r: nat, hole: nat, i: nat)
    requires |t| == |t'| >= 2 && r < |t| && hole < |t| && i <= |t| / 2
    requires forall x | 0 <= x < |t| && Gap(|t|, r, x) > i :: t[x] == t'[x]
    ensures FinalHole(t, hash, r, hole, i) == FinalHole(t', hash, r, hole, i)
    decreases |t| / 2 - i
  {
    hide Home, IndexLE;
    if i < |t| / 2 {
      var index := At(|t|, r, i + 1);
      assert Gap(|t|, r, index) == i + 1;
      FinalHoleFrame(t, t', hash, r, index, i + 1);
      FinalHoleFrame(t, t', hash, r, hole, i + 1);
    }
  }

  lemma GapStep<K(!new), V(!new)>(t: seq<Slot<K, V>>, r: nat, i: nat)
    requires |t| >= 2 && r < |t| && i < |t| / 2 && t[At(|t|, r, i + 1)].Used?
    ensures GapAfter(t, r, i) <==> GapAfter(t, r, i + 1)
  {
    forall x | 0 <= x < |t| && Gap(|t|, r, x) == i + 1 ensures x == At(|t|, r, i + 1) {}
  }

  /** An entry with home `h` in slot `index`, at most half a table after the hole: the bit test
      says whether the hole is on its path, except for an entry at home exactly half a table away. */
  lemma BitTestOnRun(n: nat, hole: nat, index: nat, h: nat)
    requires TableSize(n) && hole < n && index < n && h < n
    requires 1 <= Gap(n, hole, index) <= n / 2 && Gap(n, h, index) < n / 2
    ensures IndexLE(n, hole, h) <==> OnPath(n, h, index, hole) || (Gap(n, hole, index) == n / 2 && h == index)
  {
    IndexLEMeaning(n, hole, h);
  }

  /** One scanned slot whose entry stays where it is. */
  lemma StayStep<K(!new), V(!new)>(t: seq<Slot<K, V>>, hash: K -> nat, r: nat, hole: nat, i: nat)
    requires r < |t| && hole < |t| && Scanned(t, hash, r, hole, i) && i < |t| / 2
    requires var index := At(|t|, r, i + 1); t[index].Used? && !IndexLE(|t|, hole, Home(hash, |t|, t[index].key))
    ensures Scanned(t, hash, r, hole, i + 1)
  {
    hide Home, IndexLE;
    var n, index := |t|, At(|t|, r, i + 1);
    assert PathButHole(t, hash, r, hole, i, index);
    BitTestOnRun(n, hole, index, Home(hash, n, t[index].key));
    forall j | 0 <= j < n && t[j].Used? ensures PathButHole(t, hash, r, hole, i + 1, j) {
      assert PathButHole(t, hash, r, hole, i, j);
      if j != index { assert Gap(n, r, j) != i + 1; }
    }
  }

  lemma StaySuffices<K(!new), V(!new)>(t: seq<Slot<K, V>>, hash: K -> nat, r: nat, hole: nat, i: nat)
    requires r < |t| && hole < |t| && Scanned(t, hash, r, hole, i) && i < |t| / 2
    requires var index := At(|t|, r, i + 1); t[index].Used? && !IndexLE(|t|, hole, Home(hash, |t|, t[index].key))
    ensures ScanSuffices(t, hash, r, hole, i) <==> ScanSuffices(t, hash, r, hole, i + 1)
  {
    hide Home, IndexLE;
    GapStep(t, r, i);
    assert FinalHole(t, hash, r, hole, i) == FinalHole(t, hash, r, hole, i + 1);
    assert i + 1 == |t| / 2 ==> !Misread(t, hash, r, hole);
  }

  /** No entry that the scan has passed has the slot now under the scan on its path. */
  lemma PassedPath(n: nat, r: nat, i: nat, h: nat, j: nat)
    requires r < n && h < n && j < n && i < n / 2
    requires Gap(n, h, j) < n / 2 && Gap(n, r, j) <= i + 1
    ensures !OnPath(n, h, j, At(n, r, i + 1))
  {}

  lemma MovedEntry<K(!new), V(!new)>(t: seq<Slot<K, V>>, hash: K -> nat, r: nat, hole: nat, i: nat, index: nat)
    requires r < |t| && hole < |t| && index < |t| && t[index].Used? && i < |t| / 2 && index == At(|t|, r, i + 1)
    requires t[hole].Free? && Gap(|t|, r, hole) <= i && PathButHole(t, hash, r, hole, i, index)
    requires OnPath(|t|, Home(hash, |t|, t[index].key), index, hole)
    ensures PathButHole(t[hole := t[index]][index := Free], hash, r, index, i + 1, hole)
  {}

  lemma UnmovedEntry<K(!new), V(!new)>(
      t: seq<Slot<K, V>>, hash: K -> nat, r: nat, hole: nat, i: nat, index: nat, j: nat)
    requires r < |t| && hole < |t| && index < |t| && t[index].Used? && i < |t| / 2 && index == At(|t|, r, i + 1)
    requires j < |t| && t[j].Used? && j != index && t[hole].Free?
    requires PathButHole(t, hash, r, hole, i, j)
    ensures PathButHole(t[hole := t[index]][index := Free], hash, r, index, i + 1, j)
  {
    hide Home, IndexLE;
    var n, h := |t|, Home(hash, |t|, t[j].key);
    if Gap(n, r, j) <= i + 1 {
      PassedPath(n, r, i, h, j);
    }
  }

  /** One scanned slot whose entry moves into the hole. */
  lemma MoveStep<K(!new), V(!new)>(t: seq<Slot<K, V>>, hash: K -> nat, r: nat, hole: nat, i: nat)
    requires r < |t| && hole < |t| && Scanned(t, hash, r, hole, i) && i < |t| / 2
    requires var index := At(|t|, r, i + 1); t[index].Used? && IndexLE(|t|, hole, Home(hash, |t|, t[index].key))
    requires var index := At(|t|, r, i + 1); Home(hash, |t|, t[index].key) != index
    ensures var index := At(|t|, r, i + 1); Scanned(t[hole := t[index]][index := Free], hash, r, index, i + 1)
  {
    hide Home, IndexLE;
    var n, index := |t|, At(|t|, r, i + 1);
    var t' := t[hole := t[index]][index := Free];
    assert PathButHole(t, hash, r, hole, i, index);
    BitTestOnRun(n, hole, index, Home(hash, n, t[index].key));
    assert UniqueKeys(t');
    MovedEntry(t, hash, r, hole, i, index);
    forall j | 0 <= j < n && t'[j].Used? ensures PathButHole(t', hash, r, index, i + 1, j) {
      hide PathButHole, UniqueKeys, IndexLE;
      if j != hole {
        assert PathButHole(t, hash, r, hole, i, j);
        UnmovedEntry(t, hash, r, hole, i, index, j);
      }
    }
  }

  lemma SufficesFrame<K(!new), V(!new)>(
      t: seq<Slot<K, V>>, t': seq<Slot<K, V>>, hash: K -> nat, r: nat, hole: nat, i: nat)
    requires |t| == |t'| >= 2 && r < |t| && hole < |t| && i <= |t| / 2
    requires forall x | 0 <= x < |t| && Gap(|t|, r, x) > i :: t[x] == t'[x]
    ensures ScanSuffices(t, hash, r, hole, i) <==> ScanSuffices(t', hash, r, hole, i)
  {
    hide Home, IndexLE;
    FinalHoleFrame(t, t', hash, r, hole, i);
    var n, f := |t|, FinalHole(t, hash, r, hole, i);
    assert GapAfter(t, r, i) <==> GapAfter(t', r, i);
    assert Gap(n, r, At(n, r, n / 2)) == n / 2;
    assert i < n / 2 ==> (Misread(t, hash, r, f) <==> Misread(t', hash, r, f));
    forall j | 0 <= j < n ensures Stranded(t, hash, r, f, j) <==> Stranded(t', hash, r, f, j) {}
  }

  /** Unless the scan misreads, moving an entry changes neither what is left to scan nor its outcome. */
  lemma MoveSuffices<K(!new), V(!new)>(t: seq<Slot<K, V>>, hash: K -> nat, r: nat, hole: nat, i: nat)
    requires |t| >= 2 && r < |t| && hole < |t| && Gap(|t|, r, hole) <= i < |t| / 2
    requires var index := At(|t|, r, i + 1); t[index].Used? && IndexLE(|t|, hole, Home(hash, |t|, t[index].key))
    requires var index := At(|t|, r, i + 1); Home(hash, |t|, t[index].key) != index
    ensures var index := At(|t|, r, i + 1); var t' := t[hole := t[index]][index := Free];
            ScanSuffices(t, hash, r, hole, i) <==> ScanSuffices(t', hash, r, index, i + 1)
  {
    hide Home, IndexLE, Stranded;
    var n, index := |t|, At(|t|, r, i + 1);
    var t' := t[hole := t[index]][index := Free];
    SufficesFrame(t, t', hash, r, index, i + 1);
    GapStep(t, r, i);
  }

  /** Only an entry at home, on the last slot of a scan that never moved the hole, can be misread. */
  lemma MisreadStep<K(!new), V(!new)>(t: seq<Slot<K, V>>, hash: K -> nat, r: nat, hole: nat, i: nat)
    requires r < |t| && hole < |t| && Scanned(t, hash, r, hole, i) && i < |t| / 2
    requires var index := At(|t|, r, i + 1); t[index].Used? && IndexLE(|t|, hole, Home(hash, |t|, t[index].key))
    requires var index := At(|t|, r, i + 1); Home(hash, |t|, t[index].key) == index
    ensures i + 1 == |t| / 2 && hole == r && !ScanSuffices(t, hash, r, hole, i)
  {
    hide Home, IndexLE;
    var n, index := |t|, At(|t|, r, i + 1);
    IndexLEMeaning(n, hole, index);
    assert FinalHole(t, hash, r, hole, i) == index;
    GapStep(t, r, i);
  }

  lemma PathAtEnd<K(!new), V(!new)>(t: seq<Slot<K, V>>, hash: K -> nat, r: nat, hole: nat, i: nat, j: nat)
    requires |t| >= 2 && r < |t| && hole < |t| && Gap(|t|, r, hole) <= i <= |t| / 2 && t[hole].Free?
    requires j < |t| && t[j].Used? && PathButHole(t, hash, r, hole, i, j)
    requires i == |t| / 2 ==> !Stranded(t, hash, r, hole, j)
    requires i < |t| / 2 ==> t[At(|t|, r, i + 1)].Free?
    ensures Reached(t, hash, j)
  {
    hide Home, IndexLE;
  }

  /** The scan ends with a well-formed table when it suffices. */
  lemma ScanEnd<K(!new), V(!new)>(t: seq<Slot<K, V>>, hash: K -> nat, r: nat, hole: nat, i: nat)
    requires r < |t| && hole < |t| && Scanned(t, hash, r, hole, i) && ScanSuffices(t, hash, r, hole, i)
    requires i == |t| / 2 || t[At(|t|, r, i + 1)].Free?
    ensures WellFormed(t, hash)
  {
    hide PathButHole, Stranded, UniqueKeys, Reached, Home, IndexLE;
    assert i == |t| / 2 ==> !GapAfter(t, r, i) && FinalHole(t, hash, r, hole, i) == hole;
    forall j | 0 <= j < |t| && t[j].Used? ensures Reached(t, hash, j) {
      PathAtEnd(t, hash, r, hole, i, j);
    }
  }

  lemma {:induction false} ShiftExact<K(!new), V(!new)>(t: seq<Slot<K, V>>, hash: K -> nat, r: nat, hole: nat, i: nat)
    requires r < |t| && hole < |t| && Scanned(t, hash, r, hole, i) && ScanSuffices(t, hash, r, hole, i)
    ensures WellFormed(Shift(t, hash, r, hole, i), hash)
    decreases |t| - i
  {
    hide PathButHole, UniqueKeys, ScanSuffices, WellFormed, IndexLE, Home;
    var n := |t|;
    if i == n / 2 || t[At(n, r, i + 1)].Free? {
      ScanEnd(t, hash, r, hole, i);
    } else {
      var index := At(n, r, i + 1);
      if IndexLE(n, hole, Home(hash, n, t[index].key)) {
        if Home(hash, n, t[index].key) == index { MisreadStep(t, hash, r, hole, i); }
        MoveStep(t, hash, r, hole, i);
        MoveSuffices(t, hash, r, hole, i);
        ShiftExact(t[hole := t[index]][index := Free], hash, r, index, i + 1);
      } else {
        StayStep(t, hash, r, hole, i);
        StaySuffices(t, hash, r, hole, i);
        ShiftExact(t, hash, r, hole, i + 1);
      }
    }
  }

  /** A free slot on the path of a key hides the key. */
  lemma {:induction false} HiddenByHole<K(!new), V(!new)>(
      t: seq<Slot<K, V>>, hash: K -> nat, k: K, j: nat, f: nat, d: nat)
    requires |t| >= 2 && UniqueKeys(t) && j < |t| && f < |t| && t[j].Used? && t[j].key == k && t[f].Free?
    requires var h := Home(hash, |t|, k); d <= Gap(|t|, h, f) < Gap(|t|, h, j) && d <= |t| / 2
    ensures !Probe(t, hash, k, d).Hit?
    decreases |t| - d
  {
    hide Home, IndexLE;
    var h := Home(hash, |t|, k);
    if d < |t| / 2 {
      assert Gap(|t|, h, At(|t|, h, d)) == d;
      if d < Gap(|t|, h, f) {
        HiddenByHole(t, hash, k, j, f, d + 1);
      } else {
        assert At(|t|, h, d) == f;
      }
    }
  }

  lemma MisreadLoses<K(!new), V(!new)>(t: seq<Slot<K, V>>, hash: K -> nat, r: nat, hole: nat, i: nat)
    requires |t| >= 2 && r < |t| && hole < |t| && i + 1 == |t| / 2 && UniqueKeys(t) && t[hole].Free?
    requires var index := At(|t|, r, i + 1); t[index].Used? && IndexLE(|t|, hole, Home(hash, |t|, t[index].key))
    requires var index := At(|t|, r, i + 1); Home(hash, |t|, t[index].key) == index
    ensures var k := t[At(|t|, r, i + 1)].key;
            k in Contents(t) && Lookup(Shift(t, hash, r, hole, i), hash, k) == Free
  {
    hide IndexLE, Home;
    var index := At(|t|, r, i + 1);
    var t' := t[hole := t[index]][index := Free];
    assert Shift(t, hash, r, hole, i) == Shift(t', hash, r, index, i + 1) == t';
    assert At(|t|, index, 0) == index;
    assert Probe(t', hash, t[index].key, 0) == Vacant(index);
  }

  lemma StrandedLoses<K(!new), V(!new)>(t: seq<Slot<K, V>>, hash: K -> nat, r: nat, hole: nat, j: nat)
      returns (k: K)
    requires |t| >= 2 && r < |t| && hole < |t| && j < |t| && UniqueKeys(t) && t[hole].Free?
    requires Stranded(t, hash, r, hole, j)
    ensures k in Contents(t) && Lookup(t, hash, k) == Free
  {
    hide Home, IndexLE;
    k := t[j].key;
    HiddenByHole(t, hash, k, j, hole, 0);
  }

  /** When the scan does not suffice, some entry that stays in the table is lost to `m_map_get`. */
  lemma {:induction false} ShiftLoses<K(!new), V(!new)>(t: seq<Slot<K, V>>, hash: K -> nat, r: nat, hole: nat, i: nat)
      returns (k: K)
    requires r < |t| && hole < |t| && Scanned(t, hash, r, hole, i) && !ScanSuffices(t, hash, r, hole, i)
    ensures k in Contents(t) && Lookup(Shift(t, hash, r, hole, i), hash, k) == Free
    decreases |t| - i
  {
    hide PathButHole, IndexLE, Lookup, Stranded, UniqueKeys, Misread, Shift, Home;
    ShiftUnfolds(t, hash, r, hole, i);
    var n := |t|;
    if i == n / 2 {
      var j :| 0 <= j < n && Stranded(t, hash, r, hole, j);
      k := StrandedLoses(t, hash, r, hole, j);
    } else {
      var index := At(n, r, i + 1);
      assert Gap(n, r, index) == i + 1;
      if IndexLE(n, hole, Home(hash, n, t[index].key)) {
        if Home(hash, n, t[index].key) == index {
          MisreadStep(t, hash, r, hole, i);
          MisreadLoses(t, hash, r, hole, i);
          k := t[index].key;
        } else {
          MoveStep(t, hash, r, hole, i);
          MoveSuffices(t, hash, r, hole, i);
          var t' := t[hole := t[index]][index := Free];
          k := ShiftLoses(t', hash, r, index, i + 1);
          ContentsOfPermutation(t, t');
        }
      } else {
        StayStep(t, hash, r, hole, i);
        StaySuffices(t, hash, r, hole, i);
        k := ShiftLoses(t, hash, r, hole, i + 1);
      }
    }
  }

  /** The condition on a removal from slot `r`, in terms of the table before it. */
  predicate RemovalSafe<K, V>(t: seq<Slot<K, V>>, hash: K -> nat, r: nat)
    requires |t| >= 2 && r < |t|
  {
    ScanSuffices(t, hash, r, r, 0)
  }

  lemma RemovalStart<K(!new), V(!new)>(t: seq<Slot<K, V>>, hash: K -> nat, r: nat)
    requires WellFormed(t, hash) && r < |t|
    ensures Scanned(t[r := Free], hash, r, r, 0)
    ensures ScanSuffices(t[r := Free], hash, r, r, 0) <==> RemovalSafe(t, hash, r)
  {
    hide ScanSuffices, Home, IndexLE;
    var t0 := t[r := Free];
    SufficesFrame(t, t0, hash, r, r, 0);
    forall j | 0 <= j < |t| && t0[j].Used? ensures PathButHole(t0, hash, r, r, 0, j) {
      hide TableSize, UniqueKeys;
      assert Reached(t, hash, j);
      assert forall x | 0 <= x < |t| && t[x].Used? :: t0[x].Used? || (x == r && Gap(|t|, r, j) > 0);
    }
  }

  /** Removal from a well-formed table: when it is safe, the table stays well-formed and stands
      for the old map without the removed key. */
  lemma RemovalExact<K(!new), V(!new)>(t: seq<Slot<K, V>>, hash: K -> nat, r: nat)
    requires WellFormed(t, hash) && r < |t| && t[r].Used? && RemovalSafe(t, hash, r)
    ensures WellFormed(Cleared(t, hash, r), hash)
    ensures Contents(Cleared(t, hash, r)) == Contents(t) - {t[r].key}
    ensures |UsedSlots(Cleared(t, hash, r))| == |UsedSlots(t)| - 1
  {
    RemovalStart(t, hash, r);
    ShiftExact(t[r := Free], hash, r, r, 0);
    ClearedContents(t, hash, r);
  }

  /** `m_map_get` answers for every key as it did before, except for the removed key, which is gone. */
  ghost predicate AnswersMinus<K(!new), V(!new)>(t: seq<Slot<K, V>>, t': seq<Slot<K, V>>, hash: K -> nat, gone: K)
    requires |t| >= 2 && |t'| >= 2
  {
    forall k :: Lookup(t', hash, k) == if k == gone then Free else Lookup(t, hash, k)
  }

  /** `clear_elem` gives the right answers afterwards if and only if the removal is safe. */
  lemma RemovalExactIff<K(!new), V(!new)>(t: seq<Slot<K, V>>, hash: K -> nat, r: nat)
    requires WellFormed(t, hash) && r < |t| && t[r].Used?
    ensures AnswersMinus(t, Cleared(t, hash, r), hash, t[r].key) <==> RemovalSafe(t, hash, r)
  {
    assert |t| >= 2;
    hide WellFormed, RemovalSafe, Lookup, Scanned, ScanSuffices, Cleared;
    var t' := Cleared(t, hash, r);
    if RemovalSafe(t, hash, r) {
      RemovalExact(t, hash, r);
      forall k ensures Lookup(t', hash, k) == if k == t[r].key then Free else Lookup(t, hash, k) {
        LookupAgrees(t, hash, k);
        LookupAgrees(t', hash, k);
      }
    } else {
      RemovalLoses(t, hash, r);
    }
  }

  lemma RemovalLoses<K(!new), V(!new)>(t: seq<Slot<K, V>>, hash: K -> nat, r: nat)
    requires WellFormed(t, hash) && r < |t| && t[r].Used? && !RemovalSafe(t, hash, r)
    ensures exists k :: k != t[r].key && Lookup(t, hash, k) != Free && Lookup(Cleared(t, hash, r), hash, k) == Free
  {
    hide RemovalSafe, Lookup, Scanned, ScanSuffices;
    RemovalStart(t, hash, r);
    var k := ShiftLoses(t[r := Free], hash, r, r, 0);
    EmptiedContents(t, r);
    LookupAgrees(t, hash, k);
    assert Lookup(Cleared(t, hash, r), hash, k) == Free;
  }

  /** And only a safe removal keeps the table well-formed. */
  lemma WellFormedIffSafe<K(!new), V(!new)>(t: seq<Slot<K, V>>, hash: K -> nat, r: nat)
    requires WellFormed(t, hash) && r < |t| && t[r].Used?
    ensures WellFormed(Cleared(t, hash, r), hash) <==> RemovalSafe(t, hash, r)
  {
    hide RemovalSafe, Lookup, Scanned, ScanSuffices, Cleared;
    if RemovalSafe(t, hash, r) {
      RemovalExact(t, hash, r);
    } else {
      RemovalLoses(t, hash, r);
      ClearedContents(t, hash, r);
      var t' := Cleared(t, hash, r);
      var k :| k != t[r].key && Lookup(t, hash, k) != Free && Lookup(t', hash, k) == Free;
      LookupAgrees(t, hash, k);
      if WellFormed(t', hash) {
        LookupAgrees(t', hash, k);
      }
    }
  }

  /** A table that is at most half full has room within reach of every removal. */
  lemma HalfFullIsSafe<K(!new), V(!new)>(t: seq<Slot<K, V>>, hash: K -> nat, r: nat)
    requires WellFormed(t, hash) && r < |t| && t[r].Used? && |UsedSlots(t)| <= |t| / 2
    ensures RemovalSafe(t, hash, r)
  {
    Pigeonhole(t, r, |t| / 2 + 1);
    var x :| 0 <= x < |t| && Gap(|t|, r, x) < |t| / 2 + 1 && t[x].Free?;
    assert GapAfter(t, r, 0);
  }

  // ---- a removal that goes wrong ---------------------------------------------------

  const OWN_SLOT: nat -> nat := (k: nat) => k

  /** The table of default size with the first `n` keys in their home slots. */
  function Filled(n: nat): (t: seq<Slot<nat, nat>>)
    ensures |t| == 256
  {
    seq(256, i => if i < n then Used(i, i) else Free)
  }

  lemma FilledProbe(n: nat, k: nat)
    requires n <= 256 && k < 256
    ensures Probe<nat, nat>(Filled(n), OWN_SLOT, k, 0) == if k < n then Hit(k) else Vacant(k)
  {
    assert Home<nat>(OWN_SLOT, 256, k) == k && At(256, k, 0) == k;
  }

  /** The table with the keys 0 to 128. */
  function CrowdedTable(): (t: seq<Slot<nat, nat>>)
    ensures |t| == 256
  {
    Filled(129)
  }

  /** With one entry more than half the table, removing key 0 loses key 128: it is moved to slot 0,
      128 slots away from its home, where no probe looks for it. The load is far below 3/4. */
  lemma CrowdedRemovalLosesKey()
    ensures var t, hash := CrowdedTable(), OWN_SLOT;
            && WellFormed(t, hash) && 4 * 129 <= 3 * |t|
            && Lookup(t, hash, 0) == Used(0, 0) && Lookup(t, hash, 128) == Used(128, 128)
            && Lookup(Cleared(t, hash, 0), hash, 128) == Free
            && Cleared(t, hash, 0)[0] == Used(128, 128)
  {
    hide IndexLE, WellFormed, Shift, TableSize, Cleared;
    CrowdedWellFormed();
    FilledProbe(129, 0);
    FilledProbe(129, 128);
    CrowdedCleared();
    VacantHome(Cleared(CrowdedTable(), OWN_SLOT, 0), 128);
  }

  lemma VacantHome(t: seq<Slot<nat, nat>>, k: nat)
    requires |t| == 256 && k < 256 && t[k].Free?
    ensures Lookup(t, OWN_SLOT, k) == Free
  {
    assert Home<nat>(OWN_SLOT, 256, k) == k && At(256, k, 0) == k;
    assert Probe<nat, nat>(t, OWN_SLOT, k, 0) == Vacant(k);
  }

  lemma CrowdedCleared()
    ensures var t := Cleared(CrowdedTable(), OWN_SLOT, 0); t[0] == Used(128, 128) && t[128] == Free
  {
    hide Shift;
    CrowdedScan(0);
  }

  lemma CrowdedWellFormed()
    ensures WellFormed(CrowdedTable(), OWN_SLOT)
  {
    var t := CrowdedTable();
    SizeTIsPowerOfTwo();
    hide PowerOfTwo;
    forall j | 0 <= j < |t| && t[j].Used? ensures Reached(t, OWN_SLOT, j) {
      assert Home<nat>(OWN_SLOT, 256, t[j].key) == j;
    }
  }

  lemma {:induction false} CrowdedScan(i: nat)
    requires i < 128
    ensures var t := CrowdedTable()[0 := Free];
            Shift(t, OWN_SLOT, 0, 0, i) == t[0 := Used(128, 128)][128 := Free]
    decreases 128 - i
  {
    var t, hash := CrowdedTable()[0 := Free], OWN_SLOT;
    SizeTIsPowerOfTwo();
    IndexLEMeaning(256, 0, i + 1);
    assert t[i + 1] == Used(i + 1, i + 1) && Home<nat>(hash, 256, i + 1) == i + 1;
    if i < 127 {
      CrowdedScan(i + 1);
    } else {
      assert Shift(t[0 := t[128]][128 := Free], hash, 0, 128, 128) == t[0 := t[128]][128 := Free];
    }
  }
}
