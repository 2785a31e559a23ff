/** Shared vocabulary of the dungeon model: optional values, grid cells and
    the small integer helpers every stage uses. */
module Common {

  /** A value that may be missing (Python's `None`). */
  datatype Option<+T> = None | Some(value: T) {

    /** The carried value, or `default` when there is none (`dict.get(k, default)`). */
    function GetOr(default: T): T {
      match this
      case Some(v) => v
      case None => default
    }
  }

  /** A grid cell `(x, y)`: column first, then row. */
  type Cell = (int, int)

  function Abs(n: int): (r: nat)
    ensures r == n || r == -n
  {
    if n < 0 then -n else n
  }

  function Max(a: int, b: int): (r: int)
    ensures r >= a && r >= b && (r == a || r == b)
  {
    if a >= b then a else b
  }

  function Min(a: int, b: int): (r: int)
    ensures r <= a && r <= b && (r == a || r == b)
  {
    if a <= b then a else b
  }

  /** Two cells are one cardinal (4-connected) step apart. */
  predicate Adjacent(a: Cell, b: Cell) {
    Abs(a.0 - b.0) + Abs(a.1 - b.1) == 1
  }

  /** Every consecutive pair of cells is one cardinal step apart. */
  predicate Contiguous(p: seq<Cell>) {
    forall i :: 0 <= i < |p| - 1 ==> Adjacent(p[i], p[i + 1])
  }

  /** A path from `a` to `b`: non-empty, starting at `a`, ending at `b`, contiguous. */
  predicate Connects(p: seq<Cell>, a: Cell, b: Cell) {
    |p| > 0 && p[0] == a && p[|p| - 1] == b && Contiguous(p)
  }

  /** No cell occurs twice. */
  predicate NoRepeats<T(==)>(s: seq<T>) {
    forall i, j :: 0 <= i < j < |s| ==> s[i] != s[j]
  }

  /** `0 <= v < size`, the bounds test the renderers write as `0 <= v < size`. */
  predicate InRange(v: int, size: int) {
    0 <= v < size
  }

  /** Python's `max(0, min(v, size - 1))`. */
  function Clamp(v: int, size: int): (r: int)
    requires size >= 1
    ensures InRange(r, size)
    ensures InRange(v, size) ==> r == v
    ensures v < 0 ==> r == 0
    ensures v >= size ==> r == size - 1
  {
    Max(0, Min(v, size - 1))
  }
}
