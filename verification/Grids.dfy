/** Square grids of modules, addressed by column x and row y. */
module Grids {
  type Grid = seq<seq<bool>>

  predicate IsSquare(g: Grid, size: nat) {
    |g| == size && forall y | 0 <= y < size :: |g[y]| == size
  }

  function At(g: Grid, x: int, y: int): bool {
    0 <= y < |g| && 0 <= x < |g[y]| && g[y][x]
  }

  function Put(g: Grid, x: int, y: int, v: bool): (r: Grid)
    requires 0 <= y < |g| && 0 <= x < |g[y]|
    ensures forall s: nat :: IsSquare(g, s) ==> IsSquare(r, s)
    ensures forall cx, cy :: At(r, cx, cy) == if cx == x && cy == y then v else At(g, cx, cy)
  {
    g[y := g[y][x := v]]
  }

  function Constant(size: nat, v: bool): (r: Grid)
    ensures IsSquare(r, size)
    ensures forall x, y | 0 <= x < size && 0 <= y < size :: At(r, x, y) == v
  {
    seq(size, y => seq(size, x => v))
  }

  lemma SameGrid(a: Grid, b: Grid, size: nat)
    requires IsSquare(a, size) && IsSquare(b, size)
    requires forall x, y | 0 <= x < size && 0 <= y < size :: At(a, x, y) == At(b, x, y)
    ensures a == b
  {
    forall y | 0 <= y < size ensures a[y] == b[y] {
      forall x | 0 <= x < size ensures a[y][x] == b[y][x] {
        assert At(a, x, y) == At(b, x, y);
      }
    }
  }
}
