/** 64-bit integers, and remainders by a variable modulus, stated once for the rotating cursors. */
module Modular {

  /** An unsigned 64-bit counter wraps here. */
  const WRAP: int := 0x1_0000_0000_0000_0000
  const MAX_INT64: int := WRAP / 2 - 1

  /** A counter value after wrapping. */
  function Wrap(x: nat): (w: nat)
    ensures w < WRAP
  {
    x % WRAP
  }

  lemma WrapNext(x: nat)
    ensures x <= MAX_INT64 ==> Wrap(x + 1) == x + 1
  {}

  /** Conversion of an unsigned 64-bit counter to a signed int. */
  function ToInt64(x: int): int {
    if x < WRAP / 2 then x else x - WRAP
  }

  /** The signed 64-bit integer a computation ends with. */
  function Int64(x: int): int {
    ToInt64(x % WRAP)
  }

  lemma Int64Exact(x: int)
    requires 0 <= x <= MAX_INT64
    ensures Int64(x) == x
  {}

  lemma Int64Range(x: int)
    ensures -MAX_INT64 - 1 <= Int64(x) <= MAX_INT64
  {}

  lemma NonzeroMultiple(d: int, n: int)
    requires n > 0
    ensures d >= 1 ==> d * n >= n
    ensures d <= -1 ==> d * n <= -n
  {}

  lemma ModUnique(a: int, n: int, k: int, r: int)
    requires n > 0 && a == k * n + r && 0 <= r < n
    ensures a % n == r
  {
    var d := a / n - k;
    assert d * n == r - a % n;
    NonzeroMultiple(d, n);
  }

  lemma Int64Shift(x: int, k: int)
    ensures Int64(x + k * WRAP) == Int64(x)
  {
    ModUnique(x + k * WRAP, WRAP, x / WRAP + k, x % WRAP);
  }

  lemma Int64Offset(x: int) returns (k: int)
    ensures Int64(x) == x + k * WRAP
  {
    k := -(x / WRAP) - if x % WRAP < WRAP / 2 then 0 else 1;
  }

  /** Wrapping at every addition is wrapping once. */
  lemma Int64Add(a: int, b: int)
    ensures Int64(Int64(a) + Int64(b)) == Int64(a + b)
  {
    hide Int64;
    var j := Int64Offset(a);
    var k := Int64Offset(b);
    Int64Shift(a + b, j + k);
    assert Int64(a) + Int64(b) == a + b + (j + k) * WRAP;
  }

  /** Stepping i < n places from c lands r + i places on, wrapping once at n. */
  lemma ModStep(c: int, i: int, n: int)
    requires n > 0 && 0 <= i < n
    ensures (c + i) % n == if c % n + i < n then c % n + i else c % n + i - n
  {
    var q, r := c / n, c % n;
    assert c == q * n + r;
    if r + i < n {
      ModUnique(c + i, n, q, r + i);
    } else {
      assert c + i == (q + 1) * n + (r + i - n);
      ModUnique(c + i, n, q + 1, r + i - n);
    }
  }

  /** n consecutive places are pairwise distinct modulo n. */
  lemma ModDistinct(c: int, i: int, j: int, n: int)
    requires 0 <= i < n && 0 <= j < n && i != j
    ensures (c + i) % n != (c + j) % n
  {
    ModStep(c, i, n);
    ModStep(c, j, n);
  }

  /** Every residue s is met within n places of c. */
  lemma ModReach(c: int, s: int, n: int) returns (i: nat)
    requires 0 <= s < n
    ensures i < n && (c + i) % n == s
  {
    i := if s >= c % n then s - c % n else s - c % n + n;
    ModStep(c, i, n);
  }

  /** Dropping a multiple of n changes no remainder. */
  lemma ModDrop(a: int, w: int, n: int)
    requires n > 0 && w % n == 0
    ensures (a - w) % n == a % n
  {
    var q := a / n;
    assert a == q * n + a % n && w == (w / n) * n;
    assert a - w == (q - w / n) * n + a % n;
    ModUnique(a - w, n, q - w / n, a % n);
  }

  /** Remainders by n of a counter that wraps at w in the middle of n steps. */
  lemma ModAcross(w: int, c: int, i: int, n: int)
    requires 0 < n < w && 0 <= i < n && w - n < c < w
    ensures var j, q := w - c, w % n;
            (c + i) % w % n == if i >= j then i - j else if j - i <= q then q - (j - i) else q - (j - i) + n
  {
    var j, q, k := w - c, w % n, w / n;
    assert w == k * n + q;
    if i >= j {
      ModUnique(c + i, w, 1, i - j);
      ModUnique(i - j, n, 0, i - j);
    } else {
      ModUnique(c + i, w, 0, c + i);
      if j - i <= q {
        ModUnique(c + i, n, k, q - (j - i));
      } else {
        assert c + i == (k - 1) * n + (q - (j - i) + n);
        ModUnique(c + i, n, k - 1, q - (j - i) + n);
      }
    }
  }
}
