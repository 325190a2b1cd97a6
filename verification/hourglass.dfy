/** The containment mask of assets/stage1.js (`makeHourglassMask`): two trapezoidal bulbs
    meeting at a neck on the middle row. Row y holds the columns within `HalfWidth(y)` of
    the centre W/2; the half-width runs linearly from the top half-width at row 0 to half the
    neck at row H/2, then back out. Lengths are exact reals here. */
module Hourglass {
  import opened Grid

  /** floor(W · 0.42), at least 6: the half-width at the top and bottom edges. */
  function TopHalfWidth(W: nat): (h: int)
    ensures 6 <= h
    ensures 12 <= W ==> 2 * h <= W
  {
    Max(6, W * 42 / 100)
  }

  /** The neck: the requested cells, at most floor(W · 0.10), but never under 4. */
  function NeckWidth(W: nat, neckCells: int): (n: int)
    ensures 4 <= n
    ensures 40 <= W ==> n <= W / 10
    ensures 4 <= neckCells <= W / 10 ==> n == neckCells
  {
    Max(4, Min(neckCells, W / 10))
  }

  function Floor(r: real): int { r.Floor }

  function Ceil(r: real): int { -((-r).Floor) }

  /** The point a fraction t of the way from a to b. */
  function Lerp(a: real, b: real, t: real): real
  {
    a * (1.0 - t) + b * t
  }

  /** Half-width of row y: linear from the top half-width to neck/2 over the upper half,
      and from neck/2 back to the top half-width over the lower half. */
  function HalfWidth(W: nat, H: nat, neck: int, y: nat): real
    requires y < H
  {
    var halfH := H as real / 2.0;
    var top := TopHalfWidth(W) as real;
    var n := neck as real / 2.0;
    if (y as real) < halfH then Lerp(top, n, (y as real) / halfH)
    else Lerp(n, top, ((y as real) - halfH) / halfH)
  }

  /** Column x lies in the inclusive range ceil(W/2 − h) .. floor(W/2 + h). */
  predicate InSpan(W: nat, h: real, x: int)
  {
    Ceil(W as real / 2.0 - h) <= x <= Floor(W as real / 2.0 + h)
  }

  /** Cell (x, y) is inside the vessel: within the grid and within its row's span. */
  predicate InMask(W: nat, H: nat, neck: int, x: int, y: nat)
    requires y < H
  {
    0 <= x < W && InSpan(W, HalfWidth(W, H, neck, y), x)
  }

  /** `makeHourglassMask`: fills every row's span, clipped to the grid, and returns the
      clamped neck alongside the mask. */
  method MakeHourglassMask(W: nat, H: nat, neckCells: int) returns (mask: array<bool>, neck: int)
    ensures fresh(mask) && mask.Length == W * H
    ensures neck == NeckWidth(W, neckCells) && neck >= 2
    ensures forall x: nat, y: nat | x < W && y < H ::
              mask[Idx(W, H, x, y)] == InMask(W, H, NeckWidth(W, neckCells), x, y)
  {
    mask := new bool[W * H](_ => false);
    var cx := W as real / 2.0;
    var n := Max(4, Min(neckCells, W / 10));
    var y := 0;
    while y < H
      invariant 0 <= y <= H
      invariant forall x': nat, y': nat | x' < W && y' < H ::
                  mask[Idx(W, H, x', y')] == (y' < y && InMask(W, H, n, x', y'))
    {
      var halfW := HalfWidth(W, H, n, y);
      var minX := Ceil(cx - halfW);
      var maxX := Floor(cx + halfW);
      FillRow(mask, W, H, y, minX, maxX);
      y := y + 1;
    }
    neck := Max(2, n);
  }

  /** The inner loop of `makeHourglassMask`: sets columns minX .. maxX of row y that lie in
      the grid, and nothing else. */
  method FillRow(mask: array<bool>, W: nat, H: nat, y: nat, minX: int, maxX: int)
    requires mask.Length == W * H && y < H
    modifies mask
    ensures forall x': nat, y': nat | x' < W && y' < H ::
              mask[Idx(W, H, x', y')] == (old(mask[Idx(W, H, x', y')]) || (y' == y && minX <= x' <= maxX))
  {
    ghost var m0 := mask[..];
    var x := minX;
    while x <= maxX
      invariant minX <= x && (x <= maxX + 1 || x == minX)
      invariant forall x': nat, y': nat | x' < W && y' < H ::
                  mask[..][Idx(W, H, x', y')] == (m0[Idx(W, H, x', y')] || (y' == y && minX <= x' < x))
      decreases maxX + 1 - x
    {
      if x >= 0 && x < W {
        assert y * W + x == Idx(W, H, x, y);
        SetCell(mask[..], W, H, x, y);
        mask[y * W + x] := true;
      }
      x := x + 1;
    }
  }

  // ---------------------------------------------------------------------------
  // The shape of the mask.

  lemma CeilIsLeast(r: real, x: int)
    ensures Ceil(r) <= x <==> r <= x as real
  {
  }

  lemma FloorIsGreatest(r: real, x: int)
    ensures x <= Floor(r) <==> x as real <= r
  {
  }

  /** The span is an interval of reals rounded inwards: x is in it exactly when
      |x − W/2| ≤ h. */
  lemma InSpanExact(W: nat, h: real, x: int)
    ensures InSpan(W, h, x) <==> W as real / 2.0 - h <= x as real <= W as real / 2.0 + h
  {
    CeilIsLeast(W as real / 2.0 - h, x);
    FloorIsGreatest(W as real / 2.0 + h, x);
  }

  /** Each row is symmetric about the centre: column x is inside exactly when column W − x is. */
  lemma MaskSymmetric(W: nat, H: nat, neck: int, x: int, y: nat)
    requires y < H && 0 < x < W
    ensures InMask(W, H, neck, x, y) <==> InMask(W, H, neck, W - x, y)
  {
    var h := HalfWidth(W, H, neck, y);
    InSpanExact(W, h, x);
    InSpanExact(W, h, W - x);
  }

  /** Half the neck never exceeds the top half-width. */
  lemma NeckBelowTop(W: nat, neckCells: int)
    ensures NeckWidth(W, neckCells) as real / 2.0 <= TopHalfWidth(W) as real
  {
    if W / 10 > 12 {
      assert W / 10 <= W * 42 / 100;
    }
  }

  /** The half-width of every row lies between half the neck and the top half-width. */
  lemma HalfWidthBounds(W: nat, H: nat, neckCells: int, y: nat)
    requires y < H
    ensures NeckWidth(W, neckCells) as real / 2.0 <= HalfWidth(W, H, NeckWidth(W, neckCells), y)
              <= TopHalfWidth(W) as real
  {
    NeckBelowTop(W, neckCells);
    var halfH := H as real / 2.0;
    var top := TopHalfWidth(W) as real;
    var n := NeckWidth(W, neckCells) as real / 2.0;
    if (y as real) < halfH {
      Fraction(y as real, halfH);
      LerpBetween(n, top, (y as real) / halfH);
    } else {
      Fraction((y as real) - halfH, halfH);
      LerpBetween(n, top, ((y as real) - halfH) / halfH);
    }
  }

  /** Every point between a and b lies on the segment, whichever end it starts from. */
  lemma LerpBetween(a: real, b: real, t: real)
    requires a <= b && 0.0 <= t <= 1.0
    ensures a <= Lerp(a, b, t) <= b
    ensures a <= Lerp(b, a, t) <= b
  {
    Distribute(a, t);
    Distribute(b, t);
    ScaleBetween(a, b, t);
    assert Lerp(a, b, t) == a - a * t + b * t;
    assert Lerp(b, a, t) == b - b * t + a * t;
  }

  /** Moving further along the segment from a towards b never moves back. */
  lemma LerpMono(a: real, b: real, t1: real, t2: real)
    requires a <= b && t1 <= t2
    ensures Lerp(a, b, t1) <= Lerp(a, b, t2)
    ensures Lerp(b, a, t2) <= Lerp(b, a, t1)
  {
    Distribute(a, t1);
    Distribute(b, t1);
    Distribute(a, t2);
    Distribute(b, t2);
    ScaleMono(a, b, t1, t2);
    assert Lerp(a, b, t1) == a - a * t1 + b * t1;
    assert Lerp(a, b, t2) == a - a * t2 + b * t2;
    assert Lerp(b, a, t1) == b - b * t1 + a * t1;
    assert Lerp(b, a, t2) == b - b * t2 + a * t2;
  }

  /** Multiplication distributes over the difference that `Lerp` is made of. */
  lemma Distribute(x: real, t: real)
    ensures x * (1.0 - t) == x - x * t
  {
  }

  /** b·t − a·t lies in [0, b − a] for a ≤ b and t in [0, 1]. */
  lemma ScaleBetween(a: real, b: real, t: real)
    requires a <= b && 0.0 <= t <= 1.0
    ensures 0.0 <= b * t - a * t <= b - a
  {
    ScaleMono(a, b, 0.0, t);
    ScaleMono(a, b, t, 1.0);
  }

  /** a / b lies in [0, 1] when 0 ≤ a ≤ b. */
  lemma Fraction(a: real, b: real)
    requires 0.0 <= a <= b && 0.0 < b
    ensures 0.0 <= a / b <= 1.0
  {
    assert a / b * b == a;
  }

  /** Dividing by a positive number keeps the order. */
  lemma DivMono(a1: real, a2: real, d: real)
    requires a1 <= a2 && 0.0 < d
    ensures a1 / d <= a2 / d
  {
    assert a2 / d - a1 / d == (a2 - a1) / d;
  }

  /** b·t − a·t grows with t when a ≤ b. */
  lemma ScaleMono(a: real, b: real, t1: real, t2: real)
    requires a <= b && t1 <= t2
    ensures b * t1 - a * t1 <= b * t2 - a * t2
  {
    assert (b * t2 - a * t2) - (b * t1 - a * t1) == (b - a) * (t2 - t1);
  }

  /** Above the neck the vessel narrows row by row. */
  lemma UpperBulbNarrows(W: nat, H: nat, neckCells: int, y1: nat, y2: nat)
    requires y1 <= y2 < H && (y2 as real) < H as real / 2.0
    ensures HalfWidth(W, H, NeckWidth(W, neckCells), y2) <= HalfWidth(W, H, NeckWidth(W, neckCells), y1)
  {
    NeckBelowTop(W, neckCells);
    var halfH := H as real / 2.0;
    DivMono(y1 as real, y2 as real, halfH);
    LerpMono(NeckWidth(W, neckCells) as real / 2.0, TopHalfWidth(W) as real, (y1 as real) / halfH, (y2 as real) / halfH);
  }

  /** Below the neck the vessel widens row by row. */
  lemma LowerBulbWidens(W: nat, H: nat, neckCells: int, y1: nat, y2: nat)
    requires y1 <= y2 < H && H as real / 2.0 <= y1 as real
    ensures HalfWidth(W, H, NeckWidth(W, neckCells), y1) <= HalfWidth(W, H, NeckWidth(W, neckCells), y2)
  {
    NeckBelowTop(W, neckCells);
    var halfH := H as real / 2.0;
    DivMono((y1 as real) - halfH, (y2 as real) - halfH, halfH);
    LerpMono(NeckWidth(W, neckCells) as real / 2.0, TopHalfWidth(W) as real,
             ((y1 as real) - halfH) / halfH, ((y2 as real) - halfH) / halfH);
  }

  /** A wider row contains every column of a narrower one. */
  lemma SpanGrows(W: nat, h1: real, h2: real, x: int)
    requires h1 <= h2
    ensures InSpan(W, h1, x) ==> InSpan(W, h2, x)
  {
    InSpanExact(W, h1, x);
    InSpanExact(W, h2, x);
  }

  /** An hourglass cross-section: in the upper bulb a lower row's cells are all in every
      row above it, and in the lower bulb an upper row's cells are all in every row below it. */
  lemma MaskIsHourglass(W: nat, H: nat, neckCells: int, x: int, y1: nat, y2: nat)
    requires y1 <= y2 < H
    ensures ((y2 as real) < H as real / 2.0 && InMask(W, H, NeckWidth(W, neckCells), x, y2))
            ==> InMask(W, H, NeckWidth(W, neckCells), x, y1)
    ensures (H as real / 2.0 <= y1 as real && InMask(W, H, NeckWidth(W, neckCells), x, y1))
            ==> InMask(W, H, NeckWidth(W, neckCells), x, y2)
  {
    var neck := NeckWidth(W, neckCells);
    if (y2 as real) < H as real / 2.0 {
      UpperBulbNarrows(W, H, neckCells, y1, y2);
      SpanGrows(W, HalfWidth(W, H, neck, y2), HalfWidth(W, H, neck, y1), x);
    }
    if H as real / 2.0 <= y1 as real {
      LowerBulbWidens(W, H, neckCells, y1, y2);
      SpanGrows(W, HalfWidth(W, H, neck, y1), HalfWidth(W, H, neck, y2), x);
    }
  }

  /** The centre column is inside on every row, so the neck never closes. */
  lemma CentreAlwaysOpen(W: nat, H: nat, neckCells: int, y: nat)
    requires 0 < W && y < H
    ensures InMask(W, H, NeckWidth(W, neckCells), W / 2, y)
  {
    HalfWidthBounds(W, H, neckCells, y);
    InSpanExact(W, HalfWidth(W, H, NeckWidth(W, neckCells), y), W / 2);
  }
}
