/** One running instance of the hourglass stage (`init` in assets/stage1.js): the state its
    closures share — grid size, mask and sand buffers, step parity, the time accumulator, the
    bullets and their spawner, the player marker and the canvas size — and the operations that
    update it: `layout`, `frame`, `updateBullets` with its two spawners, and
    `setPlayerFromEvent`. Timestamps and the host box are parameters; the trigonometry and
    the random sweep direction are parameters of the bullet operations. */
module Stage1 {
  import opened Grid
  import opened Hourglass
  import opened Sand
  import opened Scheduler
  import opened Bullets
  import opened Viewport

  class Session {
    var W: nat
    var H: nat
    var cell: int
    var mask: array<bool>
    var sand: array<bool>
    var parity: nat
    var acc: real
    var last: real
    var tTotal: real
    var bullets: seq<Bullet>
    var cooldown: real
    var pattern: nat
    var playerX: real
    var playerY: real
    const playerR: real
    var canvasW: int
    var canvasH: int

    /** The step parity and the spawner pattern are bits, and the time residual left after
        a frame is less than one period. */
    ghost predicate ClockValid()
      reads this
    {
      parity < 2 && pattern < 2 && acc < StepDt
    }

    /** Both buffers hold W·H cells, every grain lies on the mask, and the canvas is at
        least one pixel each way. */
    ghost predicate GridValid()
      reads this, sand, mask
    {
      mask.Length == W * H && sand.Length == W * H && 1 <= canvasW && 1 <= canvasH
      && (forall j | 0 <= j < W * H && sand[j] :: mask[j])
    }

    ghost predicate Valid()
      reads this, sand, mask
    {
      ClockValid() && GridValid()
    }

    /** The grid as `layout` leaves it: the mask is the hourglass of a W-wide grid with a
        neck of floor(W · 0.08) cells, and the sand fills the mask on the initial rows. */
    ghost predicate Filled()
      reads this, sand, mask
    {
      mask.Length == W * H && sand.Length == W * H
      && (forall x: nat, y: nat | x < W && y < H ::
            mask[Idx(W, H, x, y)] == InMask(W, H, NeckWidth(W, W * 8 / 100), x, y))
      && (forall x: nat, y: nat | x < W && y < H ::
            sand[Idx(W, H, x, y)] == (mask[Idx(W, H, x, y)] && InitialRow(H, y)))
    }

    /** The sand is the grid s0 advanced n steps from parity p0, and the parity has been
        flipped n times. */
    ghost predicate SandAdvanced(s0: seq<bool>, p0: nat, n: nat)
      requires |s0| == W * H && mask.Length == W * H
      reads this`W, this`H, this`sand, this`mask, this`parity, sand, mask
    {
      sand[..] == Run(s0, mask[..], W, H, p0, n) && parity == (p0 + n) % 2
    }

    /** The residual and the sand after the fixed-step part of `frame(dt)` from residual a0,
        sand s0 and parity p0: the capped residual less the periods stepped, and the sand
        advanced by that many steps. */
    ghost predicate ClockAdvanced(a0: real, s0: seq<bool>, p0: nat, dt: real)
      requires |s0| == W * H && mask.Length == W * H
      reads this`W, this`H, this`acc, this`sand, this`mask, this`parity, sand, mask
    {
      var n := StepsFor(Capped(a0 + dt));
      acc == Capped(a0 + dt) - Consumed(n) && SandAdvanced(s0, p0, n)
    }

    /** The spawner and bullets after `updateBullets(dtMs)` from cooldown c0, pattern p0 and
        bullets b0: when the cooldown runs out, the pattern p0 is emitted, the cooldown is
        rearmed (1200 ms after a burst, 800 ms after a sweep) and the pattern alternates;
        then every bullet, old and new, is moved and those beyond the margin are dropped. */
    ghost predicate SpawnerAdvanced(c0: real, p0: nat, b0: seq<Bullet>, dtMs: real,
                                    unit: (nat, nat) -> Vec, wave: real, rightward: bool)
      reads this`W, this`H, this`cell, this`canvasW, this`canvasH, this`pattern, this`cooldown, this`bullets
    {
      var emits := c0 - dtMs <= 0.0;
      var emitted := if emits then Emission(p0, W, H, cell, canvasW, unit, wave, rightward) else [];
      pattern == (if !emits then p0 else if p0 == 0 then 1 else 0)
      && cooldown == (if !emits then c0 - dtMs else if p0 == 0 then RadialCooldown else SweepCooldown)
      && bullets == MoveAndCull(b0 + emitted, dtMs / 1000.0, canvasW, canvasH)
    }

    /** `init`: the default 120×200 grid at 3 pixels a cell, everything at rest, the clock
        reading `now`; then the first `layout` of the host box. */
    constructor (rectW: real, rectH: real, ratio: real, now: real)
      ensures Valid()
      ensures parity == 0 && acc == 0.0 && last == now && tTotal == 0.0
      ensures bullets == [] && cooldown == 0.0 && pattern == 0 && playerR == 6.0
      ensures var d := ComputeLayout(rectW, rectH, ratio);
              canvasW == d.canvasW && canvasH == d.canvasH && cell == d.cell && W == d.W && H == d.H
      ensures Filled()
      ensures playerX == canvasW as real / 2.0 && playerY == Max(20, canvasH - 40) as real
    {
      W, H, cell := 120, 200, 3;
      mask := new bool[0];
      sand := new bool[0];
      parity, acc, last, tTotal := 0, 0.0, now, 0.0;
      bullets, cooldown, pattern := [], 0.0, 0;
      playerX, playerY, playerR := 0.0, 0.0, 6.0;
      canvasW, canvasH := 1, 1;
      new;
      Layout(rectW, rectH, ratio);
    }

    /** `layout`: sizes the canvas, cell and grid from the host box and the pixel ratio,
        rebuilds the mask with a neck of floor(W · 0.08) cells, refills the sand, and puts the
        player at the bottom centre. The clock, parity and bullets are untouched. */
    method Layout(rectW: real, rectH: real, ratio: real)
      requires ClockValid()
      modifies this
      ensures Valid() && fresh(mask) && fresh(sand)
      ensures var d := ComputeLayout(rectW, rectH, ratio);
              canvasW == d.canvasW && canvasH == d.canvasH && cell == d.cell && W == d.W && H == d.H
      ensures Filled()
      ensures playerX == canvasW as real / 2.0 && playerY == Max(20, canvasH - 40) as real
      ensures parity == old(parity) && acc == old(acc) && last == old(last) && tTotal == old(tTotal)
      ensures bullets == old(bullets) && cooldown == old(cooldown) && pattern == old(pattern)
    {
      var d := ComputeLayout(rectW, rectH, ratio);
      canvasW, canvasH := d.canvasW, d.canvasH;
      cell := d.cell;
      Refill(d.W, d.H);
      playerX := canvasW as real / 2.0;
      playerY := Max(20, canvasH - 40) as real;
    }

    /** The grid part of `layout`: a W×H grid, the hourglass mask `makeHourglassMask(W, H,
        floor(W · 0.08))` and a fresh fill from `createSand`. */
    method Refill(gridW: nat, gridH: nat)
      modifies this`W, this`H, this`mask, this`sand
      ensures W == gridW && H == gridH && fresh(mask) && fresh(sand)
      ensures Filled() && forall j | 0 <= j < W * H && sand[j] :: mask[j]
    {
      var m, neck := MakeHourglassMask(gridW, gridH, gridW * 8 / 100);
      var s := CreateSand(gridW, gridH, m);
      W, H := gridW, gridH;
      mask, sand := m, s;
    }

    /** The fixed-step part of `frame`: adds dt to the residual, caps it at 250 ms, and steps
        the sand once per whole period in it, flipping the parity each time. The grains are
        conserved and stay on the mask. */
    method RunFixedSteps(dt: real) returns (steps: nat)
      requires Valid()
      modifies this`acc, this`sand, this`parity
      ensures Valid()
      ensures steps == StepsFor(Capped(old(acc) + dt)) && steps <= MaxSteps
      ensures acc == Capped(old(acc) + dt) - Consumed(steps)
      ensures SandAdvanced(old(sand[..]), old(parity), steps)
      ensures ClockAdvanced(old(acc), old(sand[..]), old(parity), dt)
      ensures Count(sand[..]) == Count(old(sand[..]))
    {
      ghost var s0, p0 := sand[..], parity;
      acc := acc + dt;
      if acc > 250.0 {
        acc := 250.0;
      }
      ghost var a0 := acc;
      steps := CatchUp();
      if 0.0 <= a0 {
        StepsForUnique(a0, steps);
      }
      CatchUpBounded(old(acc), dt);
      RunConserves(s0, mask[..], W, H, p0, steps);
    }

    /** `while (acc >= stepDt)`: steps the sand and flips the parity once per whole period in
        the residual, consuming the period each time, until less than one period is left. */
    method CatchUp() returns (steps: nat)
      requires mask.Length == W * H && sand.Length == W * H
      requires parity < 2 && acc <= AccCap
      modifies this`acc, this`sand, this`parity
      ensures sand.Length == W * H && parity < 2
      ensures acc == old(acc) - Consumed(steps) && acc < StepDt
      ensures steps == 0 || 0.0 <= acc
      ensures SandAdvanced(old(sand[..]), old(parity), steps)
    {
      ghost var s0, p0, a0 := sand[..], parity, acc;
      steps := 0;
      while acc >= StepDt
        invariant acc == a0 - Consumed(steps) && (steps == 0 || 0.0 <= acc)
        invariant sand.Length == W * H && parity < 2
        invariant SandAdvanced(s0, p0, steps)
        decreases MaxSteps - steps
      {
        ConsumedNext(steps);
        ConsumedWithinCap(steps + 1);
        StepOnce(s0, p0, steps);
        acc := acc - StepDt;
        steps := steps + 1;
      }
    }

    /** One pass of the fixed-step loop: `sand = stepSand(sand, mask, W, H, parity)` and
        `parity ^= 1` take the sand from k steps past s0 to k + 1. */
    method StepOnce(ghost s0: seq<bool>, ghost p0: nat, ghost k: nat)
      requires mask.Length == W * H && sand.Length == W * H && |s0| == W * H
      requires p0 < 2 && SandAdvanced(s0, p0, k)
      modifies this`sand, this`parity
      ensures sand.Length == W * H && parity < 2
      ensures SandAdvanced(s0, p0, k + 1)
    {
      sand := StepSand(sand, mask, W, H, parity);
      RunOneMore(s0, mask[..], W, H, p0, k);
      parity := Flip(parity);
    }

    /** `spawnRadial`: appends count bullets at (cx, cy), bullet i heading along
        unit(i, count) at the given speed. */
    method SpawnRadial(cx: real, cy: real, count: nat, speed: real, radius: real, unit: (nat, nat) -> Vec)
      modifies this`bullets
      ensures bullets == old(bullets) + Radial(cx, cy, count, speed, radius, unit)
    {
      ghost var b0 := bullets;
      var i := 0;
      while i < count
        invariant 0 <= i <= count
        invariant bullets == b0 + Radial(cx, cy, count, speed, radius, unit)[..i]
      {
        var a := unit(i, count);
        assert Radial(cx, cy, count, speed, radius, unit)[i] == Bullet(cx, cy, a.dx * speed, a.dy * speed, radius);
        bullets := bullets + [Bullet(cx, cy, a.dx * speed, a.dy * speed, radius)];
        assert Radial(cx, cy, count, speed, radius, unit)[..i + 1]
            == Radial(cx, cy, count, speed, radius, unit)[..i] + [Radial(cx, cy, count, speed, radius, unit)[i]];
        i := i + 1;
      }
      assert Radial(cx, cy, count, speed, radius, unit)[..i] == Radial(cx, cy, count, speed, radius, unit);
    }

    /** `spawnSweep`: appends a horizontal line of bullets, one per 28 px from −40 to the
        canvas width + 40, entering from the side opposite to dir. */
    method SpawnSweep(y: real, dir: int)
      modifies this`bullets
      ensures bullets == old(bullets) + Sweep(y, dir, canvasW, -40)
    {
      var startX := if dir > 0 then -20.0 else canvasW as real + 20.0;
      var i := -40;
      while i < canvasW + 40
        invariant old(bullets) + Sweep(y, dir, canvasW, -40) == bullets + Sweep(y, dir, canvasW, i)
        decreases canvasW + 40 - i
      {
        var b := Bullet(startX, y + (JsRem(i, SweepGap * 4) - SweepGap * 2) as real * 0.05,
                        dir as real * SweepSpeed, 0.0, SweepRadius);
        bullets := bullets + [b];
        i := i + SweepGap;
      }
    }

    /** `updateBullets(dtMs)`: counts the cooldown down, emits the current pattern when it runs
        out, then moves every bullet by dtMs and removes, back to front, those beyond the
        40 px margin. Every remaining bullet is within the margin. */
    method UpdateBullets(dtMs: real, unit: (nat, nat) -> Vec, wave: real, rightward: bool)
      requires Valid()
      modifies this`bullets, this`cooldown, this`pattern
      ensures Valid()
      ensures SpawnerAdvanced(old(cooldown), old(pattern), old(bullets), dtMs, unit, wave, rightward)
      ensures forall b | b in bullets :: !Outside(b, canvasW, canvasH)
    {
      var dt := dtMs / 1000.0;
      ghost var emitted := Emission(pattern, W, H, cell, canvasW, unit, wave, rightward);
      cooldown := cooldown - dtMs;
      if cooldown <= 0.0 {
        if pattern == 0 {
          var cx := Centre(W, cell);
          var cy := Centre(H, cell);
          SpawnRadial(cx, cy, RadialCount, RadialSpeed, RadialRadius, unit);
          cooldown := RadialCooldown;
          pattern := 1;
        } else {
          var yMid := SweepRow(H, cell, wave);
          SpawnSweep(yMid, if rightward then 1 else -1);
          cooldown := SweepCooldown;
          pattern := 0;
        }
      } else {
        emitted := [];
      }
      assert bullets == old(bullets) + emitted;
      Cull(dt);
    }

    /** The move-and-cull loop of `updateBullets`: walks the bullets back to front, moves
        each by dt seconds and splices out those beyond the margin, which leaves exactly
        the moved bullets within it, in their order. */
    method Cull(dt: real)
      modifies this`bullets
      ensures bullets == MoveAndCull(old(bullets), dt, canvasW, canvasH)
      ensures forall b | b in bullets :: !Outside(b, canvasW, canvasH)
    {
      ghost var all := bullets;
      var bs := bullets;
      var w, h := canvasW, canvasH;
      var i := |bs| - 1;
      while i >= 0
        invariant -1 <= i < |all|
        invariant bs == all[..i + 1] + MoveAndCull(all[i + 1..], dt, w, h)
      {
        CullFrom(all, i, dt, w, h);
        assert bs[..i] == all[..i] && bs[i] == all[i] && bs[i + 1..] == MoveAndCull(all[i + 1..], dt, w, h);
        var b := Moved(bs[i], dt);
        if b.x < -40.0 || b.x > w as real + 40.0 || b.y < -40.0 || b.y > h as real + 40.0 {
          bs := bs[..i] + bs[i + 1..];
        } else {
          bs := bs[..i] + [b] + bs[i + 1..];
        }
        i := i - 1;
      }
      assert all[0..] == all;
      bullets := bs;
      CullKeepsOnlyInside(all, dt, canvasW, canvasH);
    }

    /** `frame(t)`: the time since the last frame is added to the running total and to the
        residual, the sand takes the fixed steps the residual allows, and the bullets advance
        by the same elapsed time. */
    method Frame(t: real, unit: (nat, nat) -> Vec, wave: real, rightward: bool)
      requires Valid()
      modifies this`last, this`tTotal, this`acc, this`sand, this`parity, this`bullets, this`cooldown, this`pattern
      ensures Valid()
      ensures W == old(W) && H == old(H) && mask == old(mask) && canvasW == old(canvasW) && canvasH == old(canvasH)
      ensures last == t && tTotal == old(tTotal) + (t - old(last))
      ensures ClockAdvanced(old(acc), old(sand[..]), old(parity), t - old(last))
      ensures Count(sand[..]) == Count(old(sand[..]))
      ensures SpawnerAdvanced(old(cooldown), old(pattern), old(bullets), t - old(last), unit, wave, rightward)
    {
      ghost var a0, s0, p0 := acc, sand[..], parity;
      ghost var c0, q0, b0 := cooldown, pattern, bullets;
      var dt := t - last;
      last := t;
      tTotal := tTotal + dt;
      var steps := RunFixedSteps(dt);
      assert ClockAdvanced(a0, s0, p0, dt) && Count(sand[..]) == Count(s0);
      ghost var s1 := sand[..];
      UpdateBullets(dt, unit, wave, rightward);
      assert sand[..] == s1;
      assert SpawnerAdvanced(c0, q0, b0, dt, unit, wave, rightward);
    }

    /** The first animation callback resets the clock to its timestamp, so the first frame
        sees no elapsed time. */
    method Resync(t: real)
      modifies this`last
      ensures last == t
    {
      last := t;
    }

    /** `setPlayerFromEvent`: the pointer's offset from the canvas corner, scaled to device
        pixels and clamped to the canvas. */
    method SetPlayerFromEvent(clientX: real, clientY: real, rectLeft: real, rectTop: real, ratio: real)
      requires Valid()
      modifies this`playerX, this`playerY
      ensures playerX == PointerToCanvas(clientX, rectLeft, DevicePixelRatio(ratio), canvasW)
      ensures playerY == PointerToCanvas(clientY, rectTop, DevicePixelRatio(ratio), canvasH)
      ensures 0.0 <= playerX <= canvasW as real && 0.0 <= playerY <= canvasH as real
    {
      var dpr := DevicePixelRatio(ratio);
      playerX := PointerToCanvas(clientX, rectLeft, dpr, canvasW);
      playerY := PointerToCanvas(clientY, rectTop, dpr, canvasH);
    }
  }
}
