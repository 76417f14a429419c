/**
 * The text-shaped particle swarm: a glyph raster is scanned on an integer grid,
 * every inked sample becomes a particle bound to its origin, and every frame
 * each particle is pushed away by the mouse, pulled back to its origin and
 * slowed down by friction.
 */
module PixelGlitchText {

  /** A byte of the RGBA buffer returned for the canvas. */
  type Byte = x: int | 0 <= x < 256

  /** The mouse position when no mouse hovers the canvas. */
  const FarAway: real := -2000.0

  /** Velocity damping applied to every particle each frame. */
  const Friction: real := 0.85

  /** A sample is ink when its alpha is strictly above this value. */
  const AlphaThreshold: int := 128

  /**
   * The polar view of the particle-to-mouse vector: its length and the
   * cosine and sine of its angle. The source computes these with square root,
   * arc tangent, cosine and sine; the model receives them from the caller.
   */
  datatype Polar = Polar(distance: real, cos: real, sin: real)

  /** The part of a particle that changes from frame to frame. */
  datatype Motion = Motion(x: real, y: real, vx: real, vy: real)

  /** Whether the mouse lies strictly inside the repulsion disc around (x, y). */
  predicate Repels(x: real, y: real, mouseX: real, mouseY: real, radius: real) {
    var dx := mouseX - x;
    var dy := mouseY - y;
    dx * dx + dy * dy < radius * radius
  }

  lemma SquaresNonNegative(a: real, b: real)
    ensures a * a + b * b >= 0.0
  {
    assert a * a >= 0.0 by {
      if a < 0.0 { assert a * a == (-a) * (-a); }
    }
    assert b * b >= 0.0 by {
      if b < 0.0 { assert b * b == (-b) * (-b); }
    }
  }

  /** The repulsion strength, falling from 1 at the mouse to 0 at the radius. */
  function Force(radius: real, distance: real): real
    requires radius != 0.0
  {
    (radius - distance) / radius
  }

  /** The velocity after the mouse's push, which acts only strictly inside the radius. */
  function Pushed(m: Motion, mouseX: real, mouseY: real, radius: real, forceMultiplier: real,
                  polar: (real, real) -> Polar): (real, real)
  {
    var dx := mouseX - m.x;
    var dy := mouseY - m.y;
    if dx * dx + dy * dy < radius * radius then
      SquaresNonNegative(dx, dy);
      var p := polar(dx, dy);
      var force := Force(radius, p.distance);
      (m.vx - p.cos * force * forceMultiplier, m.vy - p.sin * force * forceMultiplier)
    else
      (m.vx, m.vy)
  }

  /**
   * One frame of Particle.update: the push, a spring towards the origin,
   * friction, then integration of the position.
   */
  function Step(m: Motion, originX: real, originY: real, ease: real, friction: real,
                mouseX: real, mouseY: real, radius: real, forceMultiplier: real,
                polar: (real, real) -> Polar): Motion
  {
    var pushed := Pushed(m, mouseX, mouseY, radius, forceMultiplier, polar);
    var vx := (pushed.0 + (originX - m.x) * ease) * friction;
    var vy := (pushed.1 + (originY - m.y) * ease) * friction;
    Motion(m.x + vx, m.y + vy, vx, vy)
  }

  /** A direction oracle that contributes no repulsion at all. */
  function NoPush(dx: real, dy: real): Polar {
    Polar(0.0, 0.0, 0.0)
  }

  /** Outside the radius (or on its edge) the mouse contributes exactly nothing. */
  lemma NoRepulsionOutsideRadius(m: Motion, originX: real, originY: real, ease: real, friction: real,
                                 mouseX: real, mouseY: real, radius: real, forceMultiplier: real,
                                 polar: (real, real) -> Polar)
    requires !Repels(m.x, m.y, mouseX, mouseY, radius)
    ensures Step(m, originX, originY, ease, friction, mouseX, mouseY, radius, forceMultiplier, polar)
         == Step(m, originX, originY, ease, friction, mouseX, mouseY, radius, forceMultiplier, NoPush)
  {
  }

  /** With radius 0 no mouse position repels, so the division by the radius is never reached. */
  lemma ZeroRadiusNeverRepels(x: real, y: real, mouseX: real, mouseY: real)
    ensures !Repels(x, y, mouseX, mouseY, 0.0)
  {
    SquaresNonNegative(mouseX - x, mouseY - y);
  }

  /** A particle resting at its origin with the mouse out of reach stays where it is. */
  lemma RestIsFixedPoint(originX: real, originY: real, ease: real, friction: real,
                         mouseX: real, mouseY: real, radius: real, forceMultiplier: real,
                         polar: (real, real) -> Polar)
    requires !Repels(originX, originY, mouseX, mouseY, radius)
    ensures Step(Motion(originX, originY, 0.0, 0.0), originX, originY, ease, friction,
                 mouseX, mouseY, radius, forceMultiplier, polar)
         == Motion(originX, originY, 0.0, 0.0)
  {
  }

  /** When the oracle gives the true distance, the applied force lies in (0, 1]. */
  lemma ForceInUnitRange(radius: real, distance: real)
    requires radius > 0.0 && distance >= 0.0
    requires distance * distance < radius * radius
    ensures 0.0 < Force(radius, distance) <= 1.0
  {
    assert radius - distance > 0.0;
  }

  /**
   * The far-away sentinel repels no particle on the canvas (non-negative
   * coordinates) for any radius up to 2000.
   */
  lemma SentinelOutOfReach(x: real, y: real, radius: real)
    requires x >= 0.0 && y >= 0.0
    requires -2000.0 <= radius <= 2000.0
    ensures !Repels(x, y, FarAway, FarAway, radius)
  {
    var dx := FarAway - x;
    var dy := FarAway - y;
    assert dx <= -2000.0 && dy <= -2000.0;
    assert dx * dx >= 4000000.0 by {
      assert -dx >= 2000.0;
      assert (-dx) * (-dx) >= 2000.0 * (-dx) >= 2000.0 * 2000.0;
    }
    assert dy * dy >= 4000000.0 by {
      assert -dy >= 2000.0;
      assert (-dy) * (-dy) >= 2000.0 * (-dy) >= 2000.0 * 2000.0;
    }
    assert radius * radius <= 4000000.0 by {
      if radius >= 0.0 {
        assert radius * radius <= 2000.0 * radius <= 2000.0 * 2000.0;
      } else {
        assert radius * radius == (-radius) * (-radius);
        assert (-radius) * (-radius) <= 2000.0 * (-radius) <= 2000.0 * 2000.0;
      }
    }
  }

  /** One glyph particle, updated in place every frame. */
  class Particle {
    var x: real
    var y: real
    var originX: real
    var originY: real
    var size: real
    var vx: real
    var vy: real
    var color: string
    var friction: real
    var ease: real

    /** A new particle rests at its origin: the start position, zero velocity. */
    constructor (x: real, y: real, size: real, color: string, ease: real)
      ensures this.x == x && this.y == y && originX == x && originY == y
      ensures this.size == size && this.color == color && this.ease == ease
      ensures vx == 0.0 && vy == 0.0 && friction == Friction
    {
      this.x := x;
      this.y := y;
      this.originX := x;
      this.originY := y;
      this.size := size;
      this.color := color;
      this.vx := 0.0;
      this.vy := 0.0;
      this.friction := Friction;
      this.ease := ease;
    }

    function State(): Motion
      reads this
    {
      Motion(x, y, vx, vy)
    }

    /**
     * One frame. Only the position and velocity fields are in the frame, so the
     * origin, size, colour, friction and ease cannot change.
     */
    method Update(mouseX: real, mouseY: real, radius: real, forceMultiplier: real,
                  polar: (real, real) -> Polar)
      modifies this`x, this`y, this`vx, this`vy
      ensures State() == Step(old(State()), originX, originY, ease, friction,
                              mouseX, mouseY, radius, forceMultiplier, polar)
    {
      var dx := mouseX - x;
      var dy := mouseY - y;
      var distanceSq := dx * dx + dy * dy;
      var radiusSq := radius * radius;
      var nvx, nvy := vx, vy;
      if distanceSq < radiusSq {
        SquaresNonNegative(dx, dy);
        var p := polar(dx, dy);
        var force := Force(radius, p.distance);
        nvx := nvx - p.cos * force * forceMultiplier;
        nvy := nvy - p.sin * force * forceMultiplier;
      }
      nvx := nvx + (originX - x) * ease;
      nvy := nvy + (originY - y) * ease;
      nvx := nvx * friction;
      nvy := nvy * friction;
      vx, vy := nvx, nvy;
      x, y := x + vx, y + vy;
    }
  }

  /** Parameters of one sampling pass; the grid step in buffer pixels is gridSize * dpr. */
  datatype SampleConfig = SampleConfig(gridSize: nat, dpr: nat, color: string, returnSpeed: real)
  {
    predicate Ok() { gridSize > 0 && dpr > 0 }
    function Pitch(): (k: nat)
      requires Ok()
      ensures k > 0
    {
      gridSize * dpr
    }
  }

  /**
   * The particle a sample at buffer pixel (col, row) produces: position in CSS
   * pixels, size gridSize - 0.5, the configured colour and restore rate.
   */
  datatype Seed = Seed(col: nat, row: nat, x: real, y: real, size: real, color: string, ease: real)

  function SeedAt(col: nat, row: nat, cfg: SampleConfig): Seed
    requires cfg.Ok()
  {
    Seed(col, row, col as real / cfg.dpr as real, row as real / cfg.dpr as real,
         cfg.gridSize as real - 0.5, cfg.color, cfg.returnSpeed)
  }

  /** The buffer offset of the alpha byte of pixel (col, row). */
  function AlphaIndex(width: nat, col: nat, row: nat): nat {
    (row * width + col) * 4 + 3
  }

  /**
   * The alpha of pixel (col, row). A read past the buffer yields JavaScript's
   * `undefined`, which no `>` comparison accepts; 0 plays that part here.
   */
  function Alpha(data: seq<Byte>, width: nat, col: nat, row: nat): int {
    var i := AlphaIndex(width, col, row);
    if i < |data| then data[i] else 0
  }

  /** Every pixel of a canvas-sized buffer has its alpha byte inside the buffer. */
  lemma AlphaIndexInBounds(width: nat, height: nat, col: nat, row: nat)
    requires col < width && row < height
    ensures AlphaIndex(width, col, row) < 4 * width * height
  {
    assert row * width <= (height - 1) * width by {
      assert row <= height - 1;
    }
    assert (height - 1) * width == height * width - width;
    assert row * width + col < height * width;
  }

  /** The seeds of one scan line, from column col onwards. */
  function RowSeeds(data: seq<Byte>, width: nat, row: nat, col: nat, cfg: SampleConfig): seq<Seed>
    requires cfg.Ok()
    decreases width - col
  {
    if col >= width then []
    else
      (if Alpha(data, width, col, row) > AlphaThreshold then [SeedAt(col, row, cfg)] else [])
      + RowSeeds(data, width, row, col + cfg.Pitch(), cfg)
  }

  lemma RowSeedsUnfold(data: seq<Byte>, width: nat, row: nat, col: nat, cfg: SampleConfig)
    requires cfg.Ok() && col < width
    ensures RowSeeds(data, width, row, col, cfg)
         == (if Alpha(data, width, col, row) > AlphaThreshold then [SeedAt(col, row, cfg)] else [])
            + RowSeeds(data, width, row, col + cfg.Pitch(), cfg)
  {
  }

  /** The seeds of all scan lines from row onwards, in row-major order. */
  function GridSeeds(data: seq<Byte>, width: nat, height: nat, row: nat, cfg: SampleConfig): seq<Seed>
    requires cfg.Ok()
    decreases height - row
  {
    if row >= height then []
    else RowSeeds(data, width, row, 0, cfg) + GridSeeds(data, width, height, row + cfg.Pitch(), cfg)
  }

  lemma GridSeedsUnfold(data: seq<Byte>, width: nat, height: nat, row: nat, cfg: SampleConfig)
    requires cfg.Ok() && row < height
    ensures GridSeeds(data, width, height, row, cfg)
         == RowSeeds(data, width, row, 0, cfg) + GridSeeds(data, width, height, row + cfg.Pitch(), cfg)
  {
  }

  /** Visiting one more grid point of a scan line keeps the seeds gathered so far a prefix. */
  lemma RowSeedsAdvance(data: seq<Byte>, width: nat, row: nat, col: nat, cfg: SampleConfig,
                        seeds: seq<Seed>, all: seq<Seed>)
    requires cfg.Ok() && col < width
    requires seeds + RowSeeds(data, width, row, col, cfg) == all
    ensures Alpha(data, width, col, row) > AlphaThreshold ==>
              (seeds + [SeedAt(col, row, cfg)]) + RowSeeds(data, width, row, col + cfg.Pitch(), cfg) == all
    ensures Alpha(data, width, col, row) <= AlphaThreshold ==>
              seeds + RowSeeds(data, width, row, col + cfg.Pitch(), cfg) == all
  {
    RowSeedsUnfold(data, width, row, col, cfg);
    if Alpha(data, width, col, row) > AlphaThreshold {
      assert (seeds + [SeedAt(col, row, cfg)]) + RowSeeds(data, width, row, col + cfg.Pitch(), cfg)
          == seeds + ([SeedAt(col, row, cfg)] + RowSeeds(data, width, row, col + cfg.Pitch(), cfg));
    }
  }

  /** Gathering one more scan line keeps the seeds gathered so far a prefix of all samples. */
  lemma GridSeedsAdvance(data: seq<Byte>, width: nat, height: nat, row: nat, cfg: SampleConfig, seeds: seq<Seed>)
    requires cfg.Ok() && row < height
    requires seeds + GridSeeds(data, width, height, row, cfg) == Samples(data, width, height, cfg)
    ensures (seeds + RowSeeds(data, width, row, 0, cfg)) + GridSeeds(data, width, height, row + cfg.Pitch(), cfg)
         == Samples(data, width, height, cfg)
  {
    GridSeedsUnfold(data, width, height, row, cfg);
    assert (seeds + RowSeeds(data, width, row, 0, cfg)) + GridSeeds(data, width, height, row + cfg.Pitch(), cfg)
        == seeds + (RowSeeds(data, width, row, 0, cfg) + GridSeeds(data, width, height, row + cfg.Pitch(), cfg));
  }

  /** The particle seeds one sampling pass over a width x height buffer produces. */
  function Samples(data: seq<Byte>, width: nat, height: nat, cfg: SampleConfig): seq<Seed>
    requires cfg.Ok()
  {
    GridSeeds(data, width, height, 0, cfg)
  }

  /** Whether n is one of 0, k, 2k, ...: a coordinate the scan loops visit. */
  predicate Multiple(n: nat, k: nat)
    requires k > 0
    decreases n
  {
    n == 0 || (n >= k && Multiple(n - k, k))
  }

  /** A sampled grid point: inside the buffer and on the scan grid. */
  predicate OnGrid(width: nat, height: nat, cfg: SampleConfig, col: nat, row: nat)
    requires cfg.Ok()
  {
    col < width && row < height && Multiple(col, cfg.Pitch()) && Multiple(row, cfg.Pitch())
  }

  /** Whether seed s is the ink sample of a grid point. */
  predicate InkSeed(data: seq<Byte>, width: nat, height: nat, cfg: SampleConfig, s: Seed)
    requires cfg.Ok()
  {
    && OnGrid(width, height, cfg, s.col, s.row)
    && Alpha(data, width, s.col, s.row) > AlphaThreshold
    && s == SeedAt(s.col, s.row, cfg)
  }

  lemma {:induction false} RowSeedsAreInk(data: seq<Byte>, width: nat, height: nat, row: nat, col: nat, cfg: SampleConfig)
    requires cfg.Ok() && row < height && Multiple(row, cfg.Pitch()) && Multiple(col, cfg.Pitch())
    ensures forall s :: s in RowSeeds(data, width, row, col, cfg) ==>
              InkSeed(data, width, height, cfg, s) && s.row == row && s.col >= col
    decreases width - col
  {
    if col < width {
      var k := cfg.Pitch();
      RowSeedsAreInk(data, width, height, row, col + k, cfg);
    }
  }

  lemma {:induction false} GridSeedsAreInk(data: seq<Byte>, width: nat, height: nat, row: nat, cfg: SampleConfig)
    requires cfg.Ok() && Multiple(row, cfg.Pitch())
    ensures forall s :: s in GridSeeds(data, width, height, row, cfg) ==>
              InkSeed(data, width, height, cfg, s) && s.row >= row
    decreases height - row
  {
    if row < height {
      var k := cfg.Pitch();
      RowSeedsAreInk(data, width, height, row, 0, cfg);
      GridSeedsAreInk(data, width, height, row + k, cfg);
    }
  }

  /**
   * Soundness of the sampler: every seed comes from a grid point of the buffer
   * whose alpha is strictly above 128, and carries the uniform size, colour
   * and restore rate.
   */
  lemma SamplesAreInk(data: seq<Byte>, width: nat, height: nat, cfg: SampleConfig)
    requires cfg.Ok()
    ensures forall s :: s in Samples(data, width, height, cfg) ==>
              && InkSeed(data, width, height, cfg, s)
              && s.size == cfg.gridSize as real - 0.5 && s.color == cfg.color && s.ease == cfg.returnSpeed
  {
    GridSeedsAreInk(data, width, height, 0, cfg);
  }

  /** Two multiples of k that differ are at least k apart. */
  lemma {:induction false} MultiplesApart(a: nat, b: nat, k: nat)
    requires k > 0 && Multiple(a, k) && Multiple(b, k) && a < b
    ensures a + k <= b
    decreases a
  {
    if a != 0 {
      MultiplesApart(a - k, b - k, k);
    }
  }

  lemma {:induction false} RowSeedsComplete(data: seq<Byte>, width: nat, row: nat, col: nat, c: nat, cfg: SampleConfig)
    requires cfg.Ok() && Multiple(col, cfg.Pitch()) && Multiple(c, cfg.Pitch())
    requires col <= c < width && Alpha(data, width, c, row) > AlphaThreshold
    ensures SeedAt(c, row, cfg) in RowSeeds(data, width, row, col, cfg)
    decreases width - col
  {
    if col < c {
      MultiplesApart(col, c, cfg.Pitch());
      RowSeedsComplete(data, width, row, col + cfg.Pitch(), c, cfg);
    }
  }

  lemma MemberOfConcat<T>(x: T, a: seq<T>, b: seq<T>)
    requires x in a || x in b
    ensures x in a + b
  {
  }

  lemma {:induction false} GridSeedsComplete(data: seq<Byte>, width: nat, height: nat, row: nat,
                                             cfg: SampleConfig, c: nat, r: nat)
    requires cfg.Ok() && Multiple(row, cfg.Pitch()) && row <= r
    requires OnGrid(width, height, cfg, c, r) && Alpha(data, width, c, r) > AlphaThreshold
    ensures SeedAt(c, r, cfg) in GridSeeds(data, width, height, row, cfg)
    decreases height - row
  {
    var line := RowSeeds(data, width, row, 0, cfg);
    var rest := GridSeeds(data, width, height, row + cfg.Pitch(), cfg);
    GridSeedsUnfold(data, width, height, row, cfg);
    if row < r {
      MultiplesApart(row, r, cfg.Pitch());
      GridSeedsComplete(data, width, height, row + cfg.Pitch(), cfg, c, r);
      MemberOfConcat(SeedAt(c, r, cfg), line, rest);
    } else {
      RowSeedsComplete(data, width, row, 0, c, cfg);
      MemberOfConcat(SeedAt(c, r, cfg), line, rest);
    }
  }

  /**
   * The sampler keeps exactly the ink: a grid point of the buffer yields a
   * particle if and only if its alpha is strictly above 128, so an alpha of
   * exactly 128 is left out.
   */
  lemma SampledIffInk(data: seq<Byte>, width: nat, height: nat, cfg: SampleConfig, c: nat, r: nat)
    requires cfg.Ok() && OnGrid(width, height, cfg, c, r)
    ensures SeedAt(c, r, cfg) in Samples(data, width, height, cfg) <==> Alpha(data, width, c, r) > AlphaThreshold
  {
    SamplesAreInk(data, width, height, cfg);
    if Alpha(data, width, c, r) > AlphaThreshold {
      GridSeedsComplete(data, width, height, 0, cfg, c, r);
    }
  }

  /** Scan order: earlier rows first, and left to right within a row. */
  predicate Before(a: Seed, b: Seed) {
    a.row < b.row || (a.row == b.row && a.col < b.col)
  }

  predicate ScanOrdered(s: seq<Seed>) {
    forall i, j :: 0 <= i < j < |s| ==> Before(s[i], s[j])
  }

  lemma {:induction false} RowSeedsOrdered(data: seq<Byte>, width: nat, row: nat, col: nat, cfg: SampleConfig)
    requires cfg.Ok()
    ensures ScanOrdered(RowSeeds(data, width, row, col, cfg))
    ensures forall s :: s in RowSeeds(data, width, row, col, cfg) ==> s.row == row && col <= s.col < width
    decreases width - col
  {
    if col < width {
      RowSeedsOrdered(data, width, row, col + cfg.Pitch(), cfg);
    }
  }

  lemma {:induction false} GridSeedsOrdered(data: seq<Byte>, width: nat, height: nat, row: nat, cfg: SampleConfig)
    requires cfg.Ok()
    ensures ScanOrdered(GridSeeds(data, width, height, row, cfg))
    ensures forall s :: s in GridSeeds(data, width, height, row, cfg) ==> row <= s.row < height
    decreases height - row
  {
    if row < height {
      var line := RowSeeds(data, width, row, 0, cfg);
      var rest := GridSeeds(data, width, height, row + cfg.Pitch(), cfg);
      RowSeedsOrdered(data, width, row, 0, cfg);
      GridSeedsOrdered(data, width, height, row + cfg.Pitch(), cfg);
      ConcatOrdered(line, rest);
    }
  }

  lemma ConcatOrdered(a: seq<Seed>, b: seq<Seed>)
    requires ScanOrdered(a) && ScanOrdered(b)
    requires forall x, y :: x in a && y in b ==> Before(x, y)
    ensures ScanOrdered(a + b)
  {
    var all := a + b;
    forall i, j | 0 <= i < j < |all| ensures Before(all[i], all[j]) {
      if j < |a| {
        assert all[i] == a[i] && all[j] == a[j];
      } else if i >= |a| {
        assert all[i] == b[i - |a|] && all[j] == b[j - |a|];
      } else {
        assert all[i] == a[i] && all[j] == b[j - |a|];
      }
    }
  }

  /** Particles come out in row-major scan order, so no grid point is sampled twice. */
  lemma SamplesInScanOrder(data: seq<Byte>, width: nat, height: nat, cfg: SampleConfig)
    requires cfg.Ok()
    ensures ScanOrdered(Samples(data, width, height, cfg))
  {
    GridSeedsOrdered(data, width, height, 0, cfg);
  }

  /** The number of scan coordinates lo, lo + k, ... below n. */
  function GridCount(lo: nat, n: nat, k: nat): nat
    requires k > 0
    decreases n - lo
  {
    if lo >= n then 0 else 1 + GridCount(lo + k, n, k)
  }

  lemma {:induction false} RowSeedsCount(data: seq<Byte>, width: nat, row: nat, col: nat, cfg: SampleConfig)
    requires cfg.Ok()
    ensures |RowSeeds(data, width, row, col, cfg)| <= GridCount(col, width, cfg.Pitch())
    decreases width - col
  {
    if col < width {
      RowSeedsCount(data, width, row, col + cfg.Pitch(), cfg);
    }
  }

  /** The number of grid points on the scan lines row, row + k, ... below height. */
  function GridPoints(row: nat, height: nat, width: nat, k: nat): nat
    requires k > 0
    decreases height - row
  {
    if row >= height then 0 else GridCount(0, width, k) + GridPoints(row + k, height, width, k)
  }

  /** The grid has one point per scan line and scan column. */
  lemma {:induction false} GridPointsProduct(row: nat, height: nat, width: nat, k: nat)
    requires k > 0
    ensures GridPoints(row, height, width, k) == GridCount(row, height, k) * GridCount(0, width, k)
    decreases height - row
  {
    if row < height {
      GridPointsProduct(row + k, height, width, k);
      var w := GridCount(0, width, k);
      var g := GridCount(row + k, height, k);
      assert (1 + g) * w == w + g * w;
    }
  }

  lemma {:induction false} GridSeedsCount(data: seq<Byte>, width: nat, height: nat, row: nat, cfg: SampleConfig)
    requires cfg.Ok()
    ensures |GridSeeds(data, width, height, row, cfg)| <= GridPoints(row, height, width, cfg.Pitch())
    decreases height - row
  {
    if row < height {
      RowSeedsCount(data, width, row, 0, cfg);
      GridSeedsCount(data, width, height, row + cfg.Pitch(), cfg);
    }
  }

  /** There are never more particles than grid points: scan lines times scan columns. */
  lemma SampleCountBound(data: seq<Byte>, width: nat, height: nat, cfg: SampleConfig)
    requires cfg.Ok()
    ensures |Samples(data, width, height, cfg)| <= GridCount(0, height, cfg.Pitch()) * GridCount(0, width, cfg.Pitch())
  {
    GridSeedsCount(data, width, height, 0, cfg);
    GridPointsProduct(0, height, width, cfg.Pitch());
  }

  /** A single pixel at alpha 128 is not ink; at 129 it is. */
  lemma AlphaThresholdBoundary(cfg: SampleConfig)
    requires cfg.Ok()
    ensures Samples([255, 255, 255, 128], 1, 1, cfg) == []
    ensures Samples([255, 255, 255, 129], 1, 1, cfg) == [SeedAt(0, 0, cfg)]
  {
  }

  /** Every sampled particle, at rest on its seed. */
  predicate AtRest(p: Particle, s: Seed)
    reads p
  {
    && p.x == s.x && p.y == s.y && p.originX == s.x && p.originY == s.y
    && p.vx == 0.0 && p.vy == 0.0
    && p.size == s.size && p.color == s.color && p.ease == s.ease && p.friction == Friction
  }

  /** The canvas component: its particle array and the last mouse position. */
  class GlyphCanvas {
    var particles: seq<Particle>
    var mouseX: real
    var mouseY: real

    /** No particle object appears twice, so each frame updates each one once. */
    ghost predicate Valid()
      reads this
    {
      forall i, j :: 0 <= i < j < |particles| ==> particles[i] != particles[j]
    }

    constructor ()
      ensures Valid() && particles == [] && mouseX == FarAway && mouseY == FarAway
    {
      particles := [];
      mouseX := FarAway;
      mouseY := FarAway;
    }

    /**
     * Scan the raster of the text and replace the particle array wholesale
     * with one fresh particle per inked grid point, in scan order.
     */
    method InitParticles(data: seq<Byte>, width: nat, height: nat, cfg: SampleConfig)
      requires cfg.Ok()
      modifies this`particles
      ensures Valid()
      ensures |particles| == |Samples(data, width, height, cfg)|
      ensures forall i :: 0 <= i < |particles| ==>
                fresh(particles[i]) && AtRest(particles[i], Samples(data, width, height, cfg)[i])
    {
      var step := cfg.Pitch();
      var newParticles: seq<Particle> := [];
      ghost var seeds: seq<Seed> := [];
      var py := 0;
      while py < height
        invariant seeds + GridSeeds(data, width, height, py, cfg) == Samples(data, width, height, cfg)
        invariant |newParticles| == |seeds|
        invariant forall i :: 0 <= i < |newParticles| ==> fresh(newParticles[i]) && AtRest(newParticles[i], seeds[i])
        invariant forall i, j :: 0 <= i < j < |newParticles| ==> newParticles[i] != newParticles[j]
        decreases height - py
      {
        GridSeedsAdvance(data, width, height, py, cfg, seeds);
        newParticles := SampleRow(data, width, py, cfg, newParticles, seeds);
        seeds := seeds + RowSeeds(data, width, py, 0, cfg);
        py := py + step;
      }
      assert GridSeeds(data, width, height, py, cfg) == [];
      assert seeds == Samples(data, width, height, cfg);
      particles := newParticles;
    }

    /**
     * The inner scan loop over scan line py: push one fresh particle per
     * inked grid point of the line onto the particles gathered so far.
     */
    static method SampleRow(data: seq<Byte>, width: nat, py: nat, cfg: SampleConfig,
                            start: seq<Particle>, ghost startSeeds: seq<Seed>) returns (line: seq<Particle>)
      requires cfg.Ok()
      requires |start| == |startSeeds|
      requires forall i :: 0 <= i < |start| ==> AtRest(start[i], startSeeds[i])
      requires forall i, j :: 0 <= i < j < |start| ==> start[i] != start[j]
      ensures |line| == |startSeeds + RowSeeds(data, width, py, 0, cfg)|
      ensures forall i :: 0 <= i < |start| ==> line[i] == start[i]
      ensures forall i :: |start| <= i < |line| ==> fresh(line[i])
      ensures forall i :: 0 <= i < |line| ==> AtRest(line[i], (startSeeds + RowSeeds(data, width, py, 0, cfg))[i])
      ensures forall i, j :: 0 <= i < j < |line| ==> line[i] != line[j]
    {
      var step := cfg.Pitch();
      line := start;
      ghost var seeds: seq<Seed> := startSeeds;
      var px := 0;
      while px < width
        invariant seeds + RowSeeds(data, width, py, px, cfg) == startSeeds + RowSeeds(data, width, py, 0, cfg)
        invariant |line| == |seeds| && |start| <= |line|
        invariant forall i :: 0 <= i < |start| ==> line[i] == start[i]
        invariant forall i :: |start| <= i < |line| ==> fresh(line[i])
        invariant forall i :: 0 <= i < |line| ==> AtRest(line[i], seeds[i])
        invariant forall i, j :: 0 <= i < j < |line| ==> line[i] != line[j]
        decreases width - px
      {
        var alpha := Alpha(data, width, px, py);
        RowSeedsAdvance(data, width, py, px, cfg, seeds, startSeeds + RowSeeds(data, width, py, 0, cfg));
        if alpha > AlphaThreshold {
          var s := SeedAt(px, py, cfg);
          var p := new Particle(s.x, s.y, s.size, s.color, s.ease);
          assert AtRest(p, s);
          assert forall i :: 0 <= i < |line| ==> line[i] != p;
          line := line + [p];
          seeds := seeds + [s];
        }
        px := px + step;
      }
    }

    /** One animation frame: every particle takes one Step, in array order. */
    method AnimateFrame(radius: real, forceMultiplier: real, polar: (real, real) -> Polar)
      requires Valid()
      modifies particles
      ensures forall i :: 0 <= i < |particles| ==>
                && particles[i].State() == Step(old(particles[i].State()), particles[i].originX, particles[i].originY,
                                                particles[i].ease, particles[i].friction,
                                                mouseX, mouseY, radius, forceMultiplier, polar)
                && particles[i].originX == old(particles[i].originX) && particles[i].originY == old(particles[i].originY)
                && particles[i].size == old(particles[i].size) && particles[i].color == old(particles[i].color)
                && particles[i].ease == old(particles[i].ease) && particles[i].friction == old(particles[i].friction)
    {
      var i := 0;
      while i < |particles|
        invariant 0 <= i <= |particles|
        invariant forall k :: 0 <= k < i ==>
                    particles[k].State() == Step(old(particles[k].State()), particles[k].originX, particles[k].originY,
                                                 particles[k].ease, particles[k].friction,
                                                 mouseX, mouseY, radius, forceMultiplier, polar)
        invariant forall k :: i <= k < |particles| ==> particles[k].State() == old(particles[k].State())
        invariant forall k :: 0 <= k < |particles| ==>
                    && particles[k].originX == old(particles[k].originX) && particles[k].originY == old(particles[k].originY)
                    && particles[k].size == old(particles[k].size) && particles[k].color == old(particles[k].color)
                    && particles[k].ease == old(particles[k].ease) && particles[k].friction == old(particles[k].friction)
      {
        particles[i].Update(mouseX, mouseY, radius, forceMultiplier, polar);
        i := i + 1;
      }
    }

    /** The mouse moved: store its position relative to the canvas. */
    method MouseMove(clientX: real, clientY: real, left: real, top: real)
      modifies this`mouseX, this`mouseY
      ensures mouseX == clientX - left && mouseY == clientY - top
    {
      mouseX := clientX - left;
      mouseY := clientY - top;
    }

    /** The mouse left: park it at the far-away sentinel. */
    method MouseLeave()
      modifies this`mouseX, this`mouseY
      ensures mouseX == FarAway && mouseY == FarAway
    {
      mouseX := FarAway;
      mouseY := FarAway;
    }
  }
}
