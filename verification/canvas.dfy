/** Row-major matrices `g[y][x]`, the shape both renderers draw on and the
    walkability matrix path-finding reads. */
module Canvas {
  import opened Common

  /** `g` has `h` rows of `w` entries each. */
  predicate IsRect<T>(g: seq<seq<T>>, w: nat, h: nat) {
    |g| == h && forall y :: 0 <= y < h ==> |g[y]| == w
  }

  /** The cell lies inside a `w x h` matrix: the source's `0 <= x < w and 0 <= y < h`. */
  predicate Inside(c: Cell, w: int, h: int) {
    InRange(c.0, w) && InRange(c.1, h)
  }

  /** `[[v for _ in range(w)] for _ in range(h)]`; a negative size gives no entries. */
  function Fill<T>(w: int, h: int, v: T): (g: seq<seq<T>>)
    ensures IsRect(g, Max(w, 0), Max(h, 0))
    ensures forall y, x :: 0 <= y < |g| && 0 <= x < |g[y]| ==> g[y][x] == v
  {
    seq(Max(h, 0), _ => seq(Max(w, 0), _ => v))
  }

  /** `g[c.1][c.0] = v`. */
  function Put<T>(g: seq<seq<T>>, c: Cell, v: T): (r: seq<seq<T>>)
    requires 0 <= c.1 < |g| && 0 <= c.0 < |g[c.1]|
    ensures |r| == |g| && forall y :: 0 <= y < |g| ==> |r[y]| == |g[y]|
    ensures r[c.1][c.0] == v
    ensures forall y, x :: 0 <= y < |g| && 0 <= x < |g[y]| && (x, y) != c ==> r[y][x] == g[y][x]
  {
    g[c.1 := g[c.1][c.0 := v]]
  }
}
