/** Row-major W×H cell buffers (the source's `Uint8Array(W * H)` holding 0 or 1),
    the index arithmetic `y * W + x`, and the grain count of a buffer. */
module Grid {

  function Max(a: int, b: int): int { if a < b then b else a }
  function Min(a: int, b: int): int { if a < b then a else b }

  /** a ≤ b implies a·c ≤ b·c for natural c. */
  lemma {:induction false} MulLe(a: nat, b: nat, c: nat)
    requires a <= b
    ensures a * c <= b * c
  {
    if a < b {
      MulLe(a, b - 1, c);
      assert (b - 1) * c + c == b * c;
    }
  }

  /** The flat index of cell (x, y); it lies inside row y, and row y lies inside the buffer. */
  function Idx(W: nat, H: nat, x: nat, y: nat): (i: nat)
    requires x < W && y < H
    ensures y * W <= i < y * W + W <= W * H
  {
    MulLe(y + 1, H, W);
    y * W + x
  }

  /** Row rows − 1 ends where the first rows rows end. */
  lemma RowsBelow(rows: nat, W: nat)
    requires 0 < rows
    ensures 0 <= (rows - 1) * W <= (rows - 1) * W + W == rows * W
  {
  }

  /** A cell on a row above row r lies before row r in the buffer. */
  lemma RowAbove(W: nat, H: nat, x: nat, y: nat, r: nat)
    requires x < W && y < r < H
    ensures Idx(W, H, x, y) < r * W
  {
    MulLe(y + 1, r, W);
  }

  /** An index before row a is before every later row b. */
  lemma BeforeLaterRow(j: int, a: nat, b: nat, W: nat)
    requires j < a * W && a <= b
    ensures j < b * W
  {
    MulLe(a, b, W);
  }

  /** Distinct cells have distinct flat indices. */
  lemma IdxInjective(W: nat, H: nat, x1: nat, y1: nat, x2: nat, y2: nat)
    requires x1 < W && y1 < H && x2 < W && y2 < H
    requires Idx(W, H, x1, y1) == Idx(W, H, x2, y2)
    ensures x1 == x2 && y1 == y2
  {
    if y1 < y2 {
      MulLe(y1 + 1, y2, W);
    } else if y2 < y1 {
      MulLe(y2 + 1, y1, W);
    }
  }

  /** Number of occupied cells. */
  function Count(g: seq<bool>): (n: nat)
    ensures n <= |g|
  {
    if g == [] then 0 else (if g[0] then 1 else 0) + Count(g[1..])
  }

  /** Setting one cell changes the count by the difference of the two flags. */
  lemma {:induction false} CountUpdate(g: seq<bool>, k: nat, v: bool)
    requires k < |g|
    ensures Count(g[k := v]) == Count(g) - (if g[k] then 1 else 0) + (if v then 1 else 0)
  {
    if k == 0 {
      assert g[k := v][1..] == g[1..];
    } else {
      assert g[k := v][1..] == g[1..][k - 1 := v];
      CountUpdate(g[1..], k - 1, v);
    }
  }

  /** Moving one grain from an occupied cell to a distinct empty cell keeps the count. */
  lemma MoveKeepsCount(g: seq<bool>, src: nat, dst: nat)
    requires src < |g| && dst < |g| && src != dst
    requires g[src] && !g[dst]
    ensures Count(g[src := false][dst := true]) == Count(g)
  {
    CountUpdate(g, src, false);
    CountUpdate(g[src := false], dst, true);
  }

  /** Setting cell (x, y) of a buffer sets that cell and no other. */
  lemma SetCell(g: seq<bool>, W: nat, H: nat, x: nat, y: nat)
    requires |g| == W * H && x < W && y < H
    ensures forall x': nat, y': nat | x' < W && y' < H ::
              g[Idx(W, H, x, y) := true][Idx(W, H, x', y')] == (g[Idx(W, H, x', y')] || (x' == x && y' == y))
  {
    forall x': nat, y': nat | x' < W && y' < H && Idx(W, H, x', y') == Idx(W, H, x, y)
      ensures x' == x && y' == y
    {
      IdxInjective(W, H, x', y', x, y);
    }
  }
}
