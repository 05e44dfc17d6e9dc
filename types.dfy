/**
 * Basic integer types shared by the attribute subsystem: the unsigned 32-bit
 * `index_t`, its "invalid index" sentinel `NO_ID`, and the one-byte `Byte`
 * used to store booleans.
 */
module Types {

  /** Number of distinct values of a 32-bit unsigned `index_t`. */
  const INDEX_LIMIT: int := 0x1_0000_0000

  /** `index_t`: an unsigned 32-bit integer. */
  type Index = i: int | 0 <= i < INDEX_LIMIT

  /** `NO_ID = index_t(-1)`: the invalid index, also the "removed" mark of a compress map. */
  const NO_ID: Index := INDEX_LIMIT - 1

  /** An unsigned 8-bit integer. */
  type Byte = b: int | 0 <= b < 256

  /**
   * `static_cast< index_t >( x )` of an integer of any width or signedness:
   * the value modulo 2^32 (a negative value wraps around).
   */
  function ToIndex(x: int): (r: Index)
    ensures 0 <= x < INDEX_LIMIT ==> r == x
    ensures -INDEX_LIMIT <= x < 0 ==> r == x + INDEX_LIMIT
    ensures (r - x) % INDEX_LIMIT == 0
  {
    x % INDEX_LIMIT
  }

  /** `index_t` addition, which wraps around at 2^32. */
  function AddIndex(a: Index, b: Index): (r: Index)
    ensures a + b < INDEX_LIMIT ==> r == a + b
    ensures a + b >= INDEX_LIMIT ==> r == a + b - INDEX_LIMIT
  {
    ToIndex(a + b)
  }

  /** `index_t` multiplication, which wraps around at 2^32. */
  function MulIndex(a: Index, b: Index): (r: Index)
    ensures a * b < INDEX_LIMIT ==> r == a * b
    ensures (a * b - r) % INDEX_LIMIT == 0
  {
    ToIndex(a * b)
  }

  datatype Option<T> = None | Some(value: T)

  function Min(a: int, b: int): (r: int)
    ensures r <= a && r <= b && (r == a || r == b)
  {
    if a <= b then a else b
  }
}
