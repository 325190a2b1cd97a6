/** The clamp arithmetic of assets/stage1.js: the device pixel ratio (`DPR`), the canvas,
    cell and grid sizes chosen by `layout`, and the pointer position of `setPlayerFromEvent`. */
module Viewport {
  import opened Grid

  /** `Math.max(lo, Math.min(hi, v))` on integers. */
  function Clamp(lo: int, hi: int, v: int): (r: int)
    requires lo <= hi
    ensures lo <= r <= hi
    ensures lo <= v <= hi ==> r == v
    ensures v < lo ==> r == lo
    ensures hi < v ==> r == hi
  {
    Max(lo, Min(hi, v))
  }

  /** `Math.max(lo, Math.min(hi, v))` on reals. */
  function ClampReal(lo: real, hi: real, v: real): (r: real)
    requires lo <= hi
    ensures lo <= r <= hi
    ensures lo <= v <= hi ==> r == v
    ensures v < lo ==> r == lo
    ensures hi < v ==> r == hi
  {
    if v < lo then lo else if hi < v then hi else v
  }

  /** `DPR()`: floor(devicePixelRatio || 1) clamped to 1 .. 3; a ratio of 0 reads as 1. */
  function DevicePixelRatio(ratio: real): (d: int)
    ensures 1 <= d <= 3
    ensures 1 <= ratio.Floor <= 3 ==> d == ratio.Floor
    ensures ratio < 1.0 ==> d == 1
    ensures 3.0 <= ratio ==> d == 3
  {
    Clamp(1, 3, if ratio == 0.0 then 1 else ratio.Floor)
  }

  /** The sizes `layout` derives from the host box. */
  datatype Dims = Dims(canvasW: int, canvasH: int, cell: int, W: int, H: int)

  /** The canvas size along an axis of extent device pixels: whole pixels, at least one. */
  function CanvasSize(extent: real): (n: int)
    ensures 1 <= n
    ensures 1.0 <= extent ==> n as real <= extent < n as real + 1.0
  {
    Max(1, extent.Floor)
  }

  /** How many whole cells of the given size fit along extent pixels. */
  function Cells(extent: real, cell: int): (n: int)
    requires 0 < cell
    ensures n as real <= extent / cell as real < n as real + 1.0
  {
    (extent / cell as real).Floor
  }

  /** `layout`: the canvas in device pixels (at least 1×1), the cell size from the box width
      (2 .. 4 pixels), and the grid size from the canvas (80 .. 160 by 140 .. 260 cells). */
  function ComputeLayout(rectW: real, rectH: real, ratio: real): (d: Dims)
    ensures 1 <= d.canvasW && 1 <= d.canvasH
    ensures 2 <= d.cell <= 4
    ensures 80 <= d.W <= 160 && 140 <= d.H <= 260
    // unless a count was raised to its minimum, the grid drawn at the cell size fits the canvas
    ensures var dpr := DevicePixelRatio(ratio) as real;
            80 <= Cells(rectW * dpr, d.cell) ==> d.W * d.cell <= d.canvasW
    ensures var dpr := DevicePixelRatio(ratio) as real;
            140 <= Cells(rectH * dpr, d.cell) ==> d.H * d.cell <= d.canvasH
  {
    var dpr := DevicePixelRatio(ratio) as real;
    Fit(rectW * dpr, rectH * dpr, Clamp(2, 4, ((rectW / 120.0) * dpr).Floor))
  }

  /** The sizes for a canvas of ew × eh device pixels and the given cell size. */
  function Fit(ew: real, eh: real, cell: int): (d: Dims)
    requires 0 < cell
    ensures d.cell == cell
    ensures 1 <= d.canvasW && 1 <= d.canvasH
    ensures 80 <= Cells(ew, cell) ==> d.W * d.cell <= d.canvasW
    ensures 140 <= Cells(eh, cell) ==> d.H * d.cell <= d.canvasH
  {
    AxisFits(ew, cell, 80, 160);
    AxisFits(eh, cell, 140, 260);
    Dims(CanvasSize(ew), CanvasSize(eh), cell, Clamp(80, 160, Cells(ew, cell)), Clamp(140, 260, Cells(eh, cell)))
  }

  /** A zero-sized host box falls back to the smallest safe sizes. */
  lemma EmptyBoxLayout(ratio: real)
    ensures ComputeLayout(0.0, 0.0, ratio) == Dims(1, 1, 2, 80, 140)
  {
  }

  /** floor(a / c) · c ≤ floor(a) for a positive integer c. */
  lemma FloorQuotient(a: real, c: int)
    requires 0 < c
    ensures (a / c as real).Floor * c <= a.Floor
  {
    var q := (a / c as real).Floor;
    assert q as real <= a / c as real;
    assert (q * c) as real == q as real * c as real;
    assert q as real * c as real <= a by {
      assert (a / c as real) * c as real == a;
    }
  }

  /** Along one axis of `extent` device pixels: the cell count, clamped to lo .. hi, times
      the cell size stays within the canvas unless the count was raised to lo. */
  lemma AxisFits(extent: real, cell: int, lo: int, hi: int)
    requires 0 < cell && 0 <= lo <= hi
    ensures lo <= Cells(extent, cell) ==> Clamp(lo, hi, Cells(extent, cell)) * cell <= CanvasSize(extent)
  {
    if lo <= Cells(extent, cell) {
      FloorQuotient(extent, cell);
      MulLe(Clamp(lo, hi, Cells(extent, cell)), Cells(extent, cell), cell);
    }
  }

  /** `setPlayerFromEvent` along one axis: the pointer offset from the canvas edge in device
      pixels, clamped to 0 .. extent. */
  function PointerToCanvas(client: real, offset: real, dpr: int, extent: int): (p: real)
    requires 0 <= extent
    ensures 0.0 <= p <= extent as real
    ensures 0.0 <= (client - offset) * dpr as real <= extent as real ==> p == (client - offset) * dpr as real
  {
    ClampReal(0.0, extent as real, (client - offset) * dpr as real)
  }
}
