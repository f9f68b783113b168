/** The order of a search tree's elements, and sequences of them as values. */
module BstOrder {
  import opened Collections

  /** The comparators that a tree can be used with: negative, zero and positive results behave
      like a total order whose equal elements need not be identical. */
  ghost predicate TotalOrder<D(!new)>(cmp: (D, D) -> int) {
    && (forall a, b :: cmp(a, b) < 0 <==> cmp(b, a) > 0)
    && (forall a, b, c :: cmp(a, b) <= 0 && cmp(b, c) <= 0 ==> cmp(a, c) <= 0)
  }

  lemma StrictTransitive<D(!new)>(cmp: (D, D) -> int, a: D, b: D, c: D)
    requires TotalOrder(cmp) && cmp(a, b) <= 0 && cmp(b, c) <= 0 && (cmp(a, b) < 0 || cmp(b, c) < 0)
    ensures cmp(a, c) < 0
  {}

  ghost predicate Sorted<D(!new)>(cmp: (D, D) -> int, s: seq<D>) {
    forall i, j | 0 <= i < j < |s| :: cmp(s[i], s[j]) < 0
  }

  /** The place of `data` in a sorted sequence: everything before it is smaller, everything from it on larger. */
  ghost predicate Splits<D(!new)>(cmp: (D, D) -> int, s: seq<D>, data: D, lo: nat, hi: nat) {
    && lo <= hi <= |s|
    && (forall i | 0 <= i < lo :: cmp(data, s[i]) > 0)
    && (forall i | hi <= i < |s| :: cmp(data, s[i]) < 0)
  }

  lemma SortedAfterInsert<D(!new)>(cmp: (D, D) -> int, s: seq<D>, k: nat, x: D)
    requires TotalOrder(cmp) && Sorted(cmp, s) && k <= |s| && Splits(cmp, s, x, k, k)
    ensures Sorted(cmp, InsertAt(s, k, x))
  {}

  lemma SortedAfterRemove<D(!new)>(cmp: (D, D) -> int, s: seq<D>, k: nat)
    requires Sorted(cmp, s) && k < |s|
    ensures Sorted(cmp, RemoveAt(s, k))
  {}

  /** Going left or right at element `m` of the range that is left to search. */
  lemma SplitsAt<D(!new)>(cmp: (D, D) -> int, s: seq<D>, data: D, lo: nat, hi: nat, m: nat)
    requires TotalOrder(cmp) && Sorted(cmp, s) && Splits(cmp, s, data, lo, hi) && lo <= m < hi
    ensures cmp(data, s[m]) > 0 ==> Splits(cmp, s, data, m + 1, hi)
    ensures cmp(data, s[m]) < 0 ==> Splits(cmp, s, data, lo, m)
  {
    if cmp(data, s[m]) > 0 {
      forall i | 0 <= i < m ensures cmp(data, s[i]) > 0 {
        StrictTransitive(cmp, s[i], s[m], data);
      }
    } else if cmp(data, s[m]) < 0 {
      forall i | m < i < |s| ensures cmp(data, s[i]) < 0 {
        StrictTransitive(cmp, data, s[m], s[i]);
      }
    }
  }

  /** An element of a sorted sequence that compares equal to `data` is the only one. */
  lemma EqualIsUnique<D(!new)>(cmp: (D, D) -> int, s: seq<D>, data: D, m: nat)
    requires TotalOrder(cmp) && Sorted(cmp, s) && m < |s| && cmp(data, s[m]) == 0
    ensures forall i | 0 <= i < |s| && i != m :: cmp(data, s[i]) != 0
  {
    forall i | 0 <= i < |s| && i != m ensures cmp(data, s[i]) != 0 {
      if i < m {
        StrictTransitive(cmp, s[i], s[m], data);
      } else {
        StrictTransitive(cmp, data, s[m], s[i]);
      }
    }
  }
}
