/** The larger and the smaller of two integers, and division with remainder by a variable, which
    the solver does not do on its own. */
module Arithmetic {

  function Max(a: int, b: int): int {
    if a >= b then a else b
  }

  function Min(a: int, b: int): int {
    if a <= b then a else b
  }

  lemma MulAtLeast(k: int, size: int)
    requires k >= 1 && size > 0
    ensures k * size >= size
  {
  }

  lemma NoMultiple(k: int, size: int)
    requires size > 0 && -size < k * size < size
    ensures k == 0
  {
    if k >= 1 {
      MulAtLeast(k, size);
    } else if k <= -1 {
      MulAtLeast(-k, size);
    }
  }

  /** Division undoes multiplication. */
  lemma Remainder(q: int, r: int, size: int)
    requires 0 <= r < size
    ensures (q * size + r) % size == r && (q * size + r) / size == q
  {
    var x := q * size + r;
    assert (x / size - q) * size == r - x % size;
    NoMultiple(x / size - q, size);
  }

  lemma ModShift(a: int, k: int, size: nat)
    requires size > 0
    ensures (a + k * size) % size == a % size
  {
    var q, r := a / size, a % size;
    assert a + k * size == (q + k) * size + r;
    Remainder(q + k, r, size);
  }
}
