/**
 * The pattern editor's "place array" menu entry: the number of elements of
 * an array placed over the selection.
 */
module PlaceArray {

  import opened MachineInt

  /**
   * The element count of an array placed over the selection:
   * (selectionSize + (typeSize - 1)) / typeSize in size_t arithmetic.
   */
  function ArrayCount(selectionSize: u64, typeSize: u64): (n: u64)
    requires typeSize >= 1
    ensures n <= selectionSize
  {
    var x := ToU64(selectionSize + (typeSize - 1));
    QuotientAtMost(x, typeSize, selectionSize);
    x / typeSize
  }

  /** A quotient by d of anything below m + d is at most m. */
  lemma QuotientAtMost(x: nat, d: nat, m: nat)
    requires d >= 1 && x < m + d
    ensures x / d <= m
  {
    var q := x / d;
    DivBounds(x, d);
    if q > m {
      assert q >= m + 1;
      MulMonotone(m + 1, q, d);
      assert (m + 1) * d == m * d + d;
      MulMonotone(1, d, m);
      assert false;
    }
  }

  /** a <= b implies a * c <= b * c. */
  lemma MulMonotone(a: nat, b: nat, c: nat)
    requires a <= b
    ensures a * c <= b * c
  {
    assert b * c == a * c + (b - a) * c;
  }

  /**
   * Without overflow the count is the ceiling of the selection size over the
   * type size: enough elements to cover the selection, and one fewer would
   * not be.
   */
  lemma ArrayCountIsCeiling(selectionSize: u64, typeSize: u64)
    requires typeSize >= 1
    requires selectionSize + typeSize - 1 < U64_LIMIT
    ensures ArrayCount(selectionSize, typeSize) * typeSize >= selectionSize
    ensures ArrayCount(selectionSize, typeSize) == 0 || (ArrayCount(selectionSize, typeSize) - 1) * typeSize < selectionSize
  {
    var n := ArrayCount(selectionSize, typeSize);
    var x := selectionSize + typeSize - 1;
    assert n == x / typeSize;
    DivBounds(x, typeSize);
  }

  /** n = x / d satisfies n * d <= x < n * d + d. */
  lemma DivBounds(x: nat, d: nat)
    requires d >= 1
    ensures (x / d) * d <= x < (x / d) * d + d
  {
  }

  /**
   * A selection within a type size of the end of the 64-bit address space
   * overflows: the size_t sum wraps below the type size, so the count
   * wraps to 0.
   */
  lemma ArrayCountWraps(selectionSize: u64, typeSize: u64)
    requires typeSize >= 1
    requires selectionSize + typeSize - 1 >= U64_LIMIT
    ensures ArrayCount(selectionSize, typeSize) == 0
  {
    var y := selectionSize + (typeSize - 1);
    var x := y - U64_LIMIT;
    assert 0 <= x < typeSize;
    assert ToU64(y) == x;
    assert x / typeSize == 0;
  }
}
