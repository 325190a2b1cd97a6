/** The projectile garnish of assets/stage1.js: bullets, the two emission patterns
    (`spawnRadial`, `spawnSweep`) and the move-and-cull pass of `updateBullets`.
    Positions and velocities are exact reals; the trigonometry of the radial burst and the
    sweep line's vertical oscillation are inputs. */
module Bullets {

  /** A bullet: position and radius in canvas pixels, velocity in pixels per second. */
  datatype Bullet = Bullet(x: real, y: real, vx: real, vy: real, r: real)

  /** A unit direction, (cos a, sin a) of some angle a. */
  datatype Vec = Vec(dx: real, dy: real)

  /** How far past the canvas edge a bullet may go before it is removed. */
  const Margin: real := 40.0

  const RadialCount: nat := 28
  const RadialSpeed: real := 120.0
  const RadialRadius: real := 3.0
  const RadialCooldown: real := 1200.0

  const SweepSpeed: real := 140.0
  const SweepGap: int := 28
  const SweepRadius: real := 2.6
  const SweepCooldown: real := 800.0

  /** The bullet lies more than the margin outside the width × height canvas. */
  predicate Outside(b: Bullet, width: int, height: int)
  {
    b.x < -Margin || b.x > width as real + Margin || b.y < -Margin || b.y > height as real + Margin
  }

  /** The bullet after dt seconds of flight. */
  function Moved(b: Bullet, dt: real): (m: Bullet)
    ensures m.vx == b.vx && m.vy == b.vy && m.r == b.r
    ensures m.x - b.x == b.vx * dt && m.y - b.y == b.vy * dt
  {
    b.(x := b.x + b.vx * dt, y := b.y + b.vy * dt)
  }

  /** Every bullet moved by dt, then those outside the margin dropped, order kept. */
  function MoveAndCull(bs: seq<Bullet>, dt: real, width: int, height: int): (r: seq<Bullet>)
    ensures |r| <= |bs|
  {
    if bs == [] then []
    else
      var m := Moved(bs[0], dt);
      (if Outside(m, width, height) then [] else [m]) + MoveAndCull(bs[1..], dt, width, height)
  }

  /** The cull of a suffix starting at k: bullet k moved, kept only when within the margin,
      in front of the cull of the rest. */
  lemma CullFrom(bs: seq<Bullet>, k: nat, dt: real, width: int, height: int)
    requires k < |bs|
    ensures MoveAndCull(bs[k..], dt, width, height)
            == (if Outside(Moved(bs[k], dt), width, height) then [] else [Moved(bs[k], dt)])
               + MoveAndCull(bs[k + 1..], dt, width, height)
  {
    assert bs[k..][1..] == bs[k + 1..];
  }

  /** After the cull every bullet is within the margin, and each is a moved original. */
  lemma {:induction false} CullKeepsOnlyInside(bs: seq<Bullet>, dt: real, width: int, height: int)
    ensures forall b | b in MoveAndCull(bs, dt, width, height) :: !Outside(b, width, height)
    ensures forall b | b in MoveAndCull(bs, dt, width, height) :: exists k | 0 <= k < |bs| :: b == Moved(bs[k], dt)
  {
    if bs != [] {
      CullKeepsOnlyInside(bs[1..], dt, width, height);
      forall b | b in MoveAndCull(bs[1..], dt, width, height)
        ensures exists k | 0 <= k < |bs| :: b == Moved(bs[k], dt)
      {
        var k :| 0 <= k < |bs[1..]| && b == Moved(bs[1..][k], dt);
        assert b == Moved(bs[k + 1], dt);
      }
    }
  }

  /** A bullet is removed only when its moved position is outside the margin: every moved
      bullet within the margin survives the cull. */
  lemma {:induction false} CullKeepsAllInside(bs: seq<Bullet>, dt: real, width: int, height: int, k: nat)
    requires k < |bs|
    ensures !Outside(Moved(bs[k], dt), width, height) ==> Moved(bs[k], dt) in MoveAndCull(bs, dt, width, height)
  {
    if k > 0 {
      CullKeepsAllInside(bs[1..], dt, width, height, k - 1);
    }
  }

  /** `spawnRadial`: count bullets at (cx, cy), bullet i heading along unit(i, count) at the
      given speed. */
  function Radial(cx: real, cy: real, count: nat, speed: real, radius: real, unit: (nat, nat) -> Vec): (r: seq<Bullet>)
    ensures |r| == count
    ensures forall i | 0 <= i < count ::
              r[i].x == cx && r[i].y == cy && r[i].r == radius
              && r[i].vx == unit(i, count).dx * speed && r[i].vy == unit(i, count).dy * speed
  {
    seq(count, i requires 0 <= i => Bullet(cx, cy, unit(i, count).dx * speed, unit(i, count).dy * speed, radius))
  }

  /** JavaScript's `%`: the remainder of truncating division, which takes the sign of a. */
  function JsRem(a: int, b: int): (r: int)
    requires 0 < b
    ensures -b < r < b
    ensures 0 <= a ==> 0 <= r
    ensures a < 0 ==> r <= 0
    ensures (a - r) % b == 0
  {
    if 0 <= a then
      assert a - a % b == (a / b) * b;
      MultipleMod(a / b, b);
      a % b
    else
      NegativeRem(a, b);
      -((-a) % b)
  }

  /** For a < 0, a + ((−a) mod b) is a multiple of b. */
  lemma NegativeRem(a: int, b: int)
    requires a < 0 < b
    ensures (a + (-a) % b) % b == 0
  {
    var q := (-a) / b;
    assert -a == b * q + (-a) % b;
    assert a + (-a) % b == (-q) * b;
    MultipleMod(-q, b);
  }

  /** A multiple of b leaves no remainder. */
  lemma MultipleMod(k: int, b: int)
    requires 0 < b
    ensures (k * b) % b == 0
  {
    var x := k * b;
    var j := k - x / b;
    assert x % b == b * j;
  }

  /** Vertical offset of the sweep bullet spawned at step i of the line. */
  function SweepOffset(i: int): (dy: real)
    ensures -8.4 < dy < 2.8
    ensures 0 <= i ==> -2.8 <= dy
  {
    (JsRem(i, SweepGap * 4) - SweepGap * 2) as real * 0.05
  }

  /** The x a sweep enters from: 20 px off the left edge when moving right, off the right edge otherwise. */
  function SweepStartX(dir: int, width: int): (x: real)
    ensures dir > 0 ==> x < 0.0
    ensures dir <= 0 ==> x > width as real
  {
    if dir > 0 then -20.0 else width as real + 20.0
  }

  /** `spawnSweep` from loop counter i on: one bullet per gap while i < width + 40. */
  function Sweep(y: real, dir: int, width: int, i: int): (r: seq<Bullet>)
    ensures forall k | 0 <= k < |r| ::
              r[k].x == SweepStartX(dir, width) && r[k].vx == dir as real * SweepSpeed
              && r[k].vy == 0.0 && r[k].r == SweepRadius
    decreases width + 40 - i
  {
    if i >= width + 40 then []
    else [Bullet(SweepStartX(dir, width), y + SweepOffset(i), dir as real * SweepSpeed, 0.0, SweepRadius)]
         + Sweep(y, dir, width, i + SweepGap)
  }

  /** The sweep line has ceil((width + 40 − i) / gap) bullets. */
  lemma {:induction false} SweepCount(y: real, dir: int, width: int, i: int)
    ensures |Sweep(y, dir, width, i)| == if i >= width + 40 then 0 else (width + 40 - i + SweepGap - 1) / SweepGap
    decreases width + 40 - i
  {
    if i < width + 40 {
      SweepCount(y, dir, width, i + SweepGap);
    }
  }

  /** Every sweep bullet starts off-screen on one side and moves horizontally towards the other. */
  lemma SweepEntersFromOffscreen(y: real, dir: int, width: int, i: int)
    requires dir == 1 || dir == -1
    ensures forall b | b in Sweep(y, dir, width, i) ::
              b.vy == 0.0 && (if dir > 0 then b.x < 0.0 && b.vx > 0.0 else b.x > width as real && b.vx < 0.0)
  {
  }

  /** The canvas coordinate of the middle of an n-cell grid axis: (n · 0.5) · cell. */
  function Centre(n: nat, cell: int): real
  {
    n as real * 0.5 * cell as real
  }

  /** The canvas y of the sweep line: three quarters of the grid's height, displaced by up to
      a tenth of it as `wave` (standing for sin(tTotal / 700)) swings between −1 and 1. */
  function SweepRow(H: nat, cell: int, wave: real): real
  {
    (H as real * 0.75 + wave * H as real * 0.1) * cell as real
  }

  /** What one emission adds: pattern 0 is the radial burst from the neck (the canvas point of
      grid cell (W/2, H/2)); pattern 1 is the sweep line, `rightward` standing for the random
      direction. */
  function Emission(pattern: nat, W: nat, H: nat, cell: int, width: int,
                    unit: (nat, nat) -> Vec, wave: real, rightward: bool): (r: seq<Bullet>)
    ensures pattern == 0 ==> |r| == RadialCount
    ensures forall k | 0 <= k < |r| :: r[k].r == (if pattern == 0 then RadialRadius else SweepRadius)
  {
    if pattern == 0 then
      Radial(Centre(W, cell), Centre(H, cell), RadialCount, RadialSpeed, RadialRadius, unit)
    else
      Sweep(SweepRow(H, cell, wave), if rightward then 1 else -1, width, -40)
  }

  /** The radial pattern adds exactly 28 bullets; the sweep adds one per 28 px of the
      canvas width plus 80 px, rounded up. */
  lemma EmissionSize(pattern: nat, W: nat, H: nat, cell: int, width: int,
                     unit: (nat, nat) -> Vec, wave: real, rightward: bool)
    requires 0 <= width
    ensures pattern == 0 ==> |Emission(pattern, W, H, cell, width, unit, wave, rightward)| == 28
    ensures pattern != 0 ==> |Emission(pattern, W, H, cell, width, unit, wave, rightward)| == (width + 80 + 27) / 28
  {
    if pattern != 0 {
      SweepCount(SweepRow(H, cell, wave), if rightward then 1 else -1, width, -40);
    }
  }
}
