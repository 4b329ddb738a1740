/** Row-major index arithmetic shared by the vertex buffer, the index buffer and
    the chunk grid: a point (a, b) of a grid whose rows hold n entries lives in
    slot a * n + b, and every slot below m * n belongs to exactly one point. */
module Grid {

  /** Slot of point (a, b) in a row-major grid whose rows hold n entries. */
  function Slot(a: int, b: int, n: int): int
  {
    a * n + b
  }

  /** A slot gives back its point: dividing by the row length yields the row,
      the remainder yields the position inside the row. */
  lemma SlotDecomposes(a: int, b: int, n: int)
    requires 0 <= a && 0 <= b < n
    ensures Slot(a, b, n) / n == a && Slot(a, b, n) % n == b
  {
    var s := Slot(a, b, n);
    var q, r := s / n, s % n;
    assert s == q * n + r && 0 <= r < n;
    assert (a - q) * n == r - b;
    MulAwayFromZero(a - q, n);
  }

  /** Points of an m-row grid occupy the slots [0, m * n). */
  lemma SlotBelow(a: int, b: int, n: int, m: int)
    requires 0 <= a < m && 0 <= b < n
    ensures 0 <= Slot(a, b, n) < m * n
  {
    MulMonotone(a + 1, m, n);
    assert (a + 1) * n == a * n + n;
  }

  /** Every slot below m * n is the slot of the point obtained by dividing it. */
  lemma SlotOfQuotient(s: int, n: int, m: int)
    requires 0 <= s < m * n && 0 < n
    ensures 0 <= s / n < m && 0 <= s % n < n && Slot(s / n, s % n, n) == s
  {
    var q := s / n;
    assert s == q * n + s % n;
    MulMonotone(0, q, n);
  }

  /** Row-major order: a smaller slot belongs to an earlier row, or to the same
      row and an earlier position in it. */
  lemma SlotOrder(a: int, b: int, c: int, d: int, n: int)
    requires 0 <= a && 0 <= b < n && 0 <= c && 0 <= d < n
    requires Slot(a, b, n) < Slot(c, d, n)
    ensures a < c || (a == c && b < d)
  {
    assert (a - c) * n == a * n - c * n;
    MulAwayFromZero(a - c, n);
  }

  /** The slot just past the end of row a is the first slot of row a + 1. */
  lemma SlotNextRow(a: int, n: int)
    ensures Slot(a, n, n) == Slot(a + 1, 0, n)
  {
    assert (a + 1) * n == a * n + n;
  }

  /** Multiplying by a natural number keeps the order of the factors. */
  lemma MulMonotone(i: int, j: int, n: int)
    requires i <= j && 0 <= n
    ensures i * n <= j * n
  {
    assert j * n - i * n == (j - i) * n;
  }

  /** A non-zero multiple of n is at least n away from zero. */
  lemma MulAwayFromZero(k: int, n: int)
    requires 0 < n
    ensures k >= 1 ==> k * n >= n
    ensures k <= -1 ==> k * n <= -n
  {
    if k >= 1 {
      MulMonotone(1, k, n);
    } else if k <= -1 {
      MulMonotone(k, -1, n);
    }
  }
}
