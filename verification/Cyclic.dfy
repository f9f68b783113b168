/** Slot arithmetic of the hash map: cyclic positions in a table of `n` slots and the
    bit test that the map uses to compare two of them. */
module Cyclic {

  /** The slot reached from `base` after `d` steps of MAP_PROBE_NEXT. */
  function At(n: nat, base: nat, d: nat): (i: nat)
    requires base < n && d <= n
    ensures i < n
  {
    if base + d < n then base + d else base + d - n
  }

  /** The number of MAP_PROBE_NEXT steps that lead from slot `a` to slot `b`. */
  function Gap(n: nat, a: nat, b: nat): (d: nat)
    requires a < n && b < n
    ensures d < n && At(n, a, d) == b
  {
    if a <= b then b - a else b + n - a
  }

  const SIZE_T_VALUES: nat := 0x1_0000_0000_0000_0000

  /** MAP_INDEX_LE: subtract as `size_t`, then test the bit of weight `n / 2`. */
  predicate IndexLE(n: nat, a: nat, b: nat)
    requires n >= 2
  {
    a == b || ((b - a) % SIZE_T_VALUES) / (n / 2) % 2 != 0
  }

  predicate PowerOfTwo(n: nat) {
    n == 1 || (n >= 2 && n % 2 == 0 && PowerOfTwo(n / 2))
  }

  lemma PowerOfTwoDoubled(p: nat)
    requires PowerOfTwo(p)
    ensures PowerOfTwo(2 * p)
  {
    assert p >= 1 && (2 * p) / 2 == p;
  }

  lemma HalfTimes(a: nat, b: nat)
    requires a % 2 == 0
    ensures a * b == 2 * ((a / 2) * b)
  {
    assert a == 2 * (a / 2);
  }

  lemma {:induction false} PowerOfTwoProduct(a: nat, b: nat)
    requires PowerOfTwo(a) && PowerOfTwo(b)
    ensures PowerOfTwo(a * b)
  {
    if a == 1 {
      assert a * b == b;
    } else {
      PowerOfTwoProduct(a / 2, b);
      PowerOfTwoDoubled((a / 2) * b);
      HalfTimes(a, b);
    }
  }

  lemma SizeTIsPowerOfTwo()
    ensures PowerOfTwo(256) && PowerOfTwo(SIZE_T_VALUES)
  {
    assert PowerOfTwo(2) && PowerOfTwo(4) && PowerOfTwo(8) && PowerOfTwo(16);
    PowerOfTwoProduct(16, 16);
    PowerOfTwoProduct(256, 256);
    PowerOfTwoProduct(0x1_0000, 0x1_0000);
    PowerOfTwoProduct(0x1_0000_0000, 0x1_0000_0000);
  }

  lemma {:induction false} PowerOfTwoDivides(n: nat, m: nat) returns (q: nat)
    requires PowerOfTwo(n) && PowerOfTwo(m) && n <= m
    ensures m == q * n
  {
    if n == 1 {
      q := m;
    } else {
      q := PowerOfTwoDivides(n / 2, m / 2);
      assert m == 2 * (m / 2) == 2 * (q * (n / 2)) == q * n;
    }
  }

  lemma DivideBetween(x: nat, h: nat, q: nat)
    requires h > 0 && q * h <= x < q * h + h
    ensures x / h == q
  {
    var p := x / h;
    assert x == p * h + x % h;
    assert (p - q) * h == p * h - q * h;
    assert p - q >= 1 ==> (p - q) * h >= h;
    assert q - p >= 1 ==> (q - p) * h >= h;
  }

  /** The bit of weight `h` in a number that is written with quotient `q` by `h`. */
  lemma BitOf(x: nat, h: nat, q: nat)
    requires h > 0 && q * h <= x < q * h + h
    ensures x / h % 2 == q % 2
  {
    DivideBetween(x, h, q);
  }

  lemma EvenMultiple(h: nat, q: nat)
    ensures q * (2 * h) == (2 * q - 1) * h + h == (2 * q - 2) * h + 2 * h
  {
    var m := q * h;
    assert q * (2 * h) == 2 * m && (2 * q - 1) * h == 2 * m - h && (2 * q - 2) * h == 2 * m - 2 * h;
  }

  /** The bit of weight `h` in a difference that wrapped around below zero. */
  lemma WrappedBit(h: nat, q: nat, d: nat)
    requires h > 0 && q >= 1 && 0 < d < 2 * h
    ensures q * (2 * h) - d >= 0 && ((q * (2 * h) - d) / h % 2 != 0 <==> d <= h)
  {
    EvenMultiple(h, q);
    BitOf(q * (2 * h) - d, h, if d <= h then 2 * q - 1 else 2 * q - 2);
  }

  lemma DirectBit(h: nat, d: nat)
    requires 0 < d < 2 * h
    ensures d / h % 2 != 0 <==> d >= h
  {
    BitOf(d, h, if d < h then 0 else 1);
  }

  lemma WrapsAround(d: int)
    requires 0 < d < SIZE_T_VALUES
    ensures d % SIZE_T_VALUES == d && (-d) % SIZE_T_VALUES == SIZE_T_VALUES - d
  {}

  /** The bit test means: slot `b` lies cyclically at or before slot `a`, at most half a table back. */
  lemma IndexLEMeaning(n: nat, a: nat, b: nat)
    requires n >= 2 && PowerOfTwo(n) && n <= SIZE_T_VALUES && a < n && b < n
    ensures IndexLE(n, a, b) <==> Gap(n, b, a) <= n / 2
  {
    hide PowerOfTwo, IndexLE;
    var h := n / 2;
    var q := SizeTMultiple(n);
    IndexLEIs(n, a, b);
    if a < b {
      WrapsAround(b - a);
      DirectBit(h, b - a);
    } else if b < a {
      WrapsAround(a - b);
      assert b - a == -(a - b);
      WrappedBit(h, q, a - b);
    }
  }

  lemma SizeTMultiple(n: nat) returns (q: nat)
    requires n >= 2 && PowerOfTwo(n) && n <= SIZE_T_VALUES
    ensures n == 2 * (n / 2) && q >= 1 && SIZE_T_VALUES == q * (2 * (n / 2))
  {
    SizeTIsPowerOfTwo();
    q := PowerOfTwoDivides(n, SIZE_T_VALUES);
  }

  lemma IndexLEIs(n: nat, a: nat, b: nat)
    requires n >= 2
    ensures IndexLE(n, a, b) <==> a == b || ((b - a) % SIZE_T_VALUES) / (n / 2) % 2 != 0
  {}

  /** The load-factor arithmetic of `hashmap_table_min_size_calc`: `n + n/3` stays below a table size that
      is a multiple of four exactly when one more entry keeps the load at or below 3/4. */
  lemma LoadFactorStep(length: nat, size: nat)
    requires size % 4 == 0
    ensures length + length / 3 < size <==> 4 * (length + 1) <= 3 * size
  {
    var q, r, p := length / 3, length % 3, size / 4;
    assert length == 3 * q + r && size == 4 * p;
    if q < p {
      assert q + 1 <= p;
    } else {
      assert q >= p;
    }
  }
}
