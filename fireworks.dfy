/**
 * The fireworks engine of components/FireworksDisplay.tsx: particles,
 * rockets with their two shell types, and the per-frame pass (schedule,
 * rocket loop, particle loop, frame counter). Drawing is not modelled.
 *
 * JavaScript numbers are idealised as Dafny reals. Math.random, the
 * trigonometry of the peony burst and the glyph canvas are foreign to the
 * model and are supplied by a Runtime object.
 */
module Fireworks {
  import opened Wrappers
  import opened TextRaster
  import opened ShowSchedule

  const Friction: real := 0.95
  const Gravity: real := 0.035
  /** Particle fade per update is drawn from [MinDecay, MaxDecay). */
  const MinDecay: real := 0.004
  const MaxDecay: real := 0.010
  /** Vertical acceleration of a rocket per update. */
  const RocketGravity: real := 0.12
  /** A rocket explodes once its vertical velocity reaches this value. */
  const ApexVy: real := -0.5
  /** Launch speed: vy = -10 - rand(0, 2). */
  const LaunchVyMax: real := -10.0
  const LaunchVySpread: real := 2.0
  const Drift: real := 0.3
  const PeonyCount: nat := 150
  const HueJitter: real := 10.0
  const MinPower: real := 5.0
  const MaxPower: real := 9.0
  /** Default font size of the glyph rasterizer; its canvas is 1.5 times as wide and high. */
  const FontSize: nat := 180
  const GlyphSide: nat := 270
  const TextSpread: real := 0.05
  const TextJitter: real := 0.2
  /** Updates after which every particle has faded out. */
  const MaxLifetime: nat := 250
  /** Updates within which every rocket has exploded. */
  const MaxFlight: nat := 96

  predicate Distinct<T(==)>(s: seq<T>)
  {
    forall i, j :: 0 <= i < j < |s| ==> s[i] != s[j]
  }

  lemma DistinctAppend<T>(a: seq<T>, b: seq<T>)
    requires Distinct(a) && Distinct(b)
    requires forall x :: x in a ==> x !in b
    ensures Distinct(a + b)
  {
    forall i, j | 0 <= i < j < |a + b| ensures (a + b)[i] != (a + b)[j] {
      if i < |a| && j >= |a| {
        assert (a + b)[i] in a && (a + b)[j] in b;
      }
    }
  }

  lemma PositiveProduct(a: real, b: real)
    requires a > 0.0 && b > 0.0
    ensures a * b > 0.0
  {
  }

  /** A fraction u from [0, 1) of a positive width d lies in [0, d). */
  lemma ScaleBelow(u: real, d: real, s: real)
    requires 0.0 <= u < 1.0 && d > 0.0 && s == u * d
    ensures 0.0 <= s < d
  {
    PositiveProduct(1.0 - u, d);
    assert (1.0 - u) * d == d - u * d;
  }

  predicate InUnitDisk(d: (real, real))
  {
    d.0 * d.0 + d.1 * d.1 <= 1.0
  }

  /**
   * The host services the engine calls: successive results of Math.random
   * (each in [0, 1)); the peony direction map, taking the angle draw and the
   * radius draw to (cos(2 pi a) sqrt(s), sin(2 pi a) sqrt(s)), a point of the
   * unit disk; and the alpha buffer of the glyph canvas for a string (None
   * when the canvas has no 2D context).
   */
  class Runtime {
    const uniform: nat -> real
    const spark: (real, real) -> (real, real)
    const glyph: string -> Option<seq<int>>
    /** How many Math.random results have been consumed. */
    var drawn: nat

    ghost predicate Valid()
    {
      && (forall i: nat :: 0.0 <= uniform(i) < 1.0)
      && (forall a: real, b: real :: InUnitDisk(spark(a, b)))
      && (forall t: string :: glyph(t).Some? ==> |glyph(t).value| == GlyphSide * GlyphSide * 4)
    }

    constructor (uniform: nat -> real, spark: (real, real) -> (real, real), glyph: string -> Option<seq<int>>)
      requires forall i: nat :: 0.0 <= uniform(i) < 1.0
      requires forall a: real, b: real :: InUnitDisk(spark(a, b))
      requires forall t: string :: glyph(t).Some? ==> |glyph(t).value| == GlyphSide * GlyphSide * 4
      ensures Valid() && drawn == 0
      ensures this.uniform == uniform && this.spark == spark && this.glyph == glyph
    {
      this.uniform, this.spark, this.glyph := uniform, spark, glyph;
      drawn := 0;
    }

    /** Math.random(): the next value of the stream. */
    method Random() returns (u: real)
      requires Valid()
      modifies this`drawn
      ensures drawn == old(drawn) + 1 && u == uniform(old(drawn))
      ensures 0.0 <= u < 1.0
    {
      u := uniform(drawn);
      drawn := drawn + 1;
    }

    /** rand(min, max) = Math.random() * (max - min) + min, a value of [min, max). */
    method Rand(min: real, max: real) returns (r: real)
      requires Valid() && min < max
      modifies this`drawn
      ensures drawn == old(drawn) + 1 && r == uniform(old(drawn)) * (max - min) + min
      ensures min <= r < max
    {
      var u := Random();
      var offset := u * (max - min);
      ScaleBelow(u, max - min, offset);
      r := offset + min;
    }
  }

  /** The offsets of the rasterized glyph of a string, on the 270-pixel glyph canvas. */
  function GlyphPoints(rt: Runtime, text: string): seq<Point>
    requires rt.Valid()
  {
    Raster(rt.glyph(text), GlyphSide, GlyphSide)
  }

  /** Alpha of a particle after n updates: each update subtracts its decay once. */
  function AlphaAfter(decay: real, n: nat): real
  {
    if n == 0 then 1.0 else AlphaAfter(decay, n - 1) - decay
  }

  lemma {:induction false} AlphaAfterLinear(decay: real, n: nat)
    ensures AlphaAfter(decay, n) == 1.0 - (n as real) * decay
  {
    if n > 0 {
      AlphaAfterLinear(decay, n - 1);
      assert (n as real) * decay == ((n - 1) as real) * decay + decay;
    }
  }

  /**
   * Every particle is culled within 250 updates: with a decay of at least
   * 0.004, alpha is at most 0 after 250 updates.
   */
  lemma ParticleLifetime(decay: real, n: nat)
    requires MinDecay <= decay && n >= MaxLifetime
    ensures AlphaAfter(decay, n) <= 0.0
  {
    AlphaAfterLinear(decay, n);
    assert (n as real) * MinDecay <= (n as real) * decay;
  }

  /** A particle whose alpha is still positive has had fewer than 250 updates. */
  lemma AliveParticleAge(decay: real, n: nat)
    requires MinDecay <= decay && AlphaAfter(decay, n) > 0.0
    ensures n < MaxLifetime
  {
    if n >= MaxLifetime {
      ParticleLifetime(decay, n);
    }
  }

  /** Vertical velocity of a rocket after n updates. */
  function VyAfter(launchVy: real, n: nat): real
  {
    if n == 0 then launchVy else VyAfter(launchVy, n - 1) + RocketGravity
  }

  lemma {:induction false} VyAfterLinear(launchVy: real, n: nat)
    ensures VyAfter(launchVy, n) == launchVy + (n as real) * RocketGravity
  {
    if n > 0 {
      VyAfterLinear(launchVy, n - 1);
      assert (n as real) * RocketGravity == ((n - 1) as real) * RocketGravity + RocketGravity;
    }
  }

  /**
   * A rocket launched faster than -12 has reached the apex velocity after
   * 96 updates, so it explodes within 96 updates.
   */
  lemma RocketFlight(launchVy: real, n: nat)
    requires launchVy > LaunchVyMax - LaunchVySpread && n >= MaxFlight
    ensures VyAfter(launchVy, n) >= ApexVy
  {
    VyAfterLinear(launchVy, n);
  }

  /** A rocket that has not yet reached the apex velocity has had at most 95 updates. */
  lemma RisingRocketAge(launchVy: real, n: nat)
    requires launchVy > LaunchVyMax - LaunchVySpread && VyAfter(launchVy, n) < ApexVy
    ensures n < MaxFlight
  {
    if n >= MaxFlight {
      RocketFlight(launchVy, n);
    }
  }

  lemma SparkSpeed(d: (real, real), power: real)
    requires InUnitDisk(d) && power >= 0.0
    ensures (d.0 * power) * (d.0 * power) + (d.1 * power) * (d.1 * power) <= power * power
  {
    var q := d.0 * d.0 + d.1 * d.1;
    assert (d.0 * power) * (d.0 * power) + (d.1 * power) * (d.1 * power) == q * (power * power);
    assert q * (power * power) <= 1.0 * (power * power);
  }

  class Particle {
    var x: real
    var y: real
    var prevX: real
    var prevY: real
    var vx: real
    var vy: real
    var alpha: real
    const hue: real
    const sat: real
    const light: real
    const decay: real
    /** Number of updates so far. */
    ghost var age: nat

    ghost predicate Valid()
      reads this
    {
      MinDecay <= decay < MaxDecay && alpha == AlphaAfter(decay, age)
    }

    /** A particle starts opaque, with its previous position equal to its position. */
    constructor (x: real, y: real, vx: real, vy: real, hue: real, sat: real, light: real, rt: Runtime)
      requires rt.Valid()
      modifies rt`drawn
      ensures Valid() && age == 0 && alpha == 1.0
      ensures this.x == x && this.y == y && prevX == x && prevY == y
      ensures this.vx == vx && this.vy == vy
      ensures this.hue == hue && this.sat == sat && this.light == light
      ensures rt.drawn == old(rt.drawn) + 1
      ensures decay == rt.uniform(old(rt.drawn)) * (MaxDecay - MinDecay) + MinDecay
    {
      var d := rt.Rand(MinDecay, MaxDecay);
      this.x, this.y := x, y;
      this.prevX, this.prevY := x, y;
      this.vx, this.vy := vx, vy;
      this.hue, this.sat, this.light := hue, sat, light;
      this.alpha := 1.0;
      this.decay := d;
      this.age := 0;
    }

    /**
     * One physics step: remember the position, apply drag and gravity, move,
     * and fade by exactly one decay.
     */
    method Update()
      requires Valid()
      modifies this`prevX, this`prevY, this`vx, this`vy, this`x, this`y, this`alpha, this`age
      ensures Valid() && age == old(age) + 1
      ensures prevX == old(x) && prevY == old(y)
      ensures vx == old(vx) * Friction && vy == old(vy) * Friction + Gravity
      ensures x == old(x) + vx && y == old(y) + vy
      ensures alpha == old(alpha) - decay && alpha < old(alpha)
    {
      prevX := x;
      prevY := y;
      vx := vx * Friction;
      vy := vy * Friction;
      vy := vy + Gravity;
      x := x + vx;
      y := y + vy;
      alpha := alpha - decay;
      age := age + 1;
    }
  }

  class Rocket {
    var x: real
    var y: real
    var vx: real
    var vy: real
    var exploded: bool
    const targetY: real
    const hue: real
    const sat: real
    const light: real
    const shell: Shell
    const textChar: Option<string>
    /** Vertical velocity at launch. */
    ghost const launchVy: real
    /** Number of updates so far. */
    ghost var updates: nat

    ghost predicate Valid()
      reads this
    {
      && LaunchVyMax - LaunchVySpread < launchVy <= LaunchVyMax
      && vy == VyAfter(launchVy, updates)
      && (!exploded ==> vy < ApexVy)
    }

    /** A rocket that has not exploded has had at most 95 updates. */
    lemma FlightBound()
      requires Valid() && !exploded
      ensures updates < MaxFlight
    {
      RisingRocketAge(launchVy, updates);
    }

    /**
     * A rocket starts at the bottom of the canvas, unexploded, rising with
     * vy = -10 - rand(0, 2) and drifting with vx = rand(-0.3, 0.3).
     */
    constructor (x: real, targetY: real, hue: real, sat: real, light: real, shell: Shell, textChar: Option<string>,
                 canvasHeight: real, rt: Runtime)
      requires rt.Valid()
      modifies rt`drawn
      ensures Valid() && !exploded && updates == 0
      ensures this.x == x && y == canvasHeight && this.targetY == targetY
      ensures this.hue == hue && this.sat == sat && this.light == light
      ensures this.shell == shell && this.textChar == textChar
      ensures LaunchVyMax - LaunchVySpread < vy <= LaunchVyMax && -Drift <= vx < Drift
      ensures rt.drawn == old(rt.drawn) + 2
    {
      var lift := rt.Rand(0.0, LaunchVySpread);
      var drift := rt.Rand(-Drift, Drift);
      this.x, this.y, this.targetY := x, canvasHeight, targetY;
      this.hue, this.sat, this.light := hue, sat, light;
      this.shell, this.textChar := shell, textChar;
      this.exploded := false;
      this.vy := LaunchVyMax - lift;
      this.vx := drift;
      this.launchVy := LaunchVyMax - lift;
      this.updates := 0;
    }

    /** Particles an explosion of this rocket appends. */
    function BurstSize(rt: Runtime): nat
      requires rt.Valid()
    {
      if shell == Peony then PeonyCount
      else if shell == Text && textChar.Some? && textChar.value != "" then |GlyphPoints(rt, textChar.value)|
      else 0
    }

    /**
     * Random numbers an explosion of this rocket draws: for a peony the
     * power, then per spark the angle, the radius, the hue jitter and the
     * particle's decay; for a text shell per glyph point the two velocity
     * jitters and the decay; nothing otherwise.
     */
    function ExplodeDraws(rt: Runtime): nat
      requires rt.Valid()
    {
      if shell == Peony then 1 + 4 * PeonyCount else 3 * BurstSize(rt)
    }

    /**
     * A particle just created by this rocket's explosion: opaque, not yet
     * updated, at the rocket's position, with its saturation and lightness.
     */
    ghost predicate Spawned(p: Particle)
      reads this, p
    {
      && p.Valid() && p.age == 0 && p.alpha == 1.0
      && p.x == x && p.y == y && p.prevX == x && p.prevY == y
      && p.sat == sat && p.light == light
    }

    /** A peony spark: hue within 10 of the rocket's, speed at most the burst power. */
    ghost predicate PeonySpark(p: Particle, power: real)
      reads this, p
    {
      hue - HueJitter <= p.hue < hue + HueJitter && p.vx * p.vx + p.vy * p.vy <= power * power
    }

    /** A text spark: the rocket's hue, velocity 0.05 times the glyph offset give or take 0.2. */
    ghost predicate TextSpark(p: Particle, pt: Point)
      reads this, p
    {
      && p.hue == hue
      && TextSpread * pt.x - TextJitter <= p.vx < TextSpread * pt.x + TextJitter
      && TextSpread * pt.y - TextJitter <= p.vy < TextSpread * pt.y + TextJitter
    }

    /**
     * The particles of an explosion: BurstSize of them, distinct, each just
     * spawned; a peony's share one power from [5, 9); a text shell's follow
     * the glyph points in order.
     */
    ghost predicate BurstOf(burst: seq<Particle>, rt: Runtime, power: real)
      requires rt.Valid()
      reads this, burst
    {
      && |burst| == BurstSize(rt)
      && Distinct(burst)
      && (forall p :: p in burst ==> Spawned(p))
      && (shell == Peony ==>
            MinPower <= power < MaxPower && forall p :: p in burst ==> PeonySpark(p, power))
      && (shell == Text && textChar.Some? && textChar.value != "" ==>
            forall k :: 0 <= k < |burst| ==> TextSpark(burst[k], GlyphPoints(rt, textChar.value)[k]))
    }

    /**
     * One flight step: accelerate, move, and explode when the apex velocity
     * or the target height is reached.
     */
    method Update(show: Show, rt: Runtime) returns (ghost burst: seq<Particle>, ghost power: real)
      requires Valid() && rt.Valid()
      modifies this`vy, this`x, this`y, this`updates, this`exploded, show`particles, rt`drawn
      ensures Valid() && updates == old(updates) + 1
      ensures vy == old(vy) + RocketGravity && vx == old(vx)
      ensures x == old(x) + vx && y == old(y) + vy
      ensures exploded == (old(exploded) || vy >= ApexVy || y <= targetY)
      ensures fresh(burst)
      ensures rt.drawn == old(rt.drawn) + (if vy >= ApexVy || y <= targetY then ExplodeDraws(rt) else 0)
      ensures vy >= ApexVy || y <= targetY ==>
        show.particles == old(show.particles) + burst && BurstOf(burst, rt, power)
      ensures !(vy >= ApexVy || y <= targetY) ==>
        show.particles == old(show.particles) && burst == []
    {
      vy := vy + RocketGravity;
      x := x + vx;
      y := y + vy;
      updates := updates + 1;
      if vy >= ApexVy || y <= targetY {
        burst, power := Explode(show, rt);
      } else {
        burst, power := [], 0.0;
      }
    }

    /** One iteration of the peony loop: a spark in a random direction, with a jittered hue. */
    method AddPeonySpark(show: Show, rt: Runtime, power: real) returns (p: Particle)
      requires rt.Valid() && power >= 0.0
      modifies show`particles, rt`drawn
      ensures fresh(p) && show.particles == old(show.particles) + [p]
      ensures Spawned(p) && PeonySpark(p, power)
      ensures rt.drawn == old(rt.drawn) + 4
    {
      var angle := rt.Random();
      var radius := rt.Random();
      var dir := rt.spark(angle, radius);
      SparkSpeed(dir, power);
      var jitter := rt.Rand(-HueJitter, HueJitter);
      p := new Particle(x, y, dir.0 * power, dir.1 * power, hue + jitter, sat, light, rt);
      show.particles := show.particles + [p];
    }

    /** One iteration of the text loop: a spark moving towards its glyph point. */
    method AddTextSpark(show: Show, rt: Runtime, pt: Point) returns (p: Particle)
      requires rt.Valid()
      modifies show`particles, rt`drawn
      ensures fresh(p) && show.particles == old(show.particles) + [p]
      ensures Spawned(p) && TextSpark(p, pt)
      ensures rt.drawn == old(rt.drawn) + 3
    {
      var jx := rt.Rand(-TextJitter, TextJitter);
      var sx := pt.x * TextSpread + jx;
      var jy := rt.Rand(-TextJitter, TextJitter);
      var sy := pt.y * TextSpread + jy;
      p := new Particle(x, y, sx, sy, hue, sat, light, rt);
      show.particles := show.particles + [p];
    }

    /**
     * Marks the rocket exploded and appends its particles: 150 for a peony,
     * one per rasterized point of its character for a text shell, none for a
     * text shell without a character.
     */
    method Explode(show: Show, rt: Runtime) returns (ghost burst: seq<Particle>, ghost power: real)
      requires rt.Valid()
      modifies this`exploded, show`particles, rt`drawn
      ensures exploded
      ensures show.particles == old(show.particles) + burst
      ensures fresh(burst)
      ensures BurstOf(burst, rt, power)
      ensures rt.drawn == old(rt.drawn) + ExplodeDraws(rt)
    {
      exploded := true;
      burst, power := [], 0.0;
      if shell == Peony {
        var strength := rt.Rand(MinPower, MaxPower);
        power := strength;
        burst := PeonyBurst(show, rt, strength);
      } else if shell == Text && textChar.Some? && textChar.value != "" {
        var points := TextParticleCoordinates(rt.glyph(textChar.value), GlyphSide, GlyphSide);
        burst := TextBurst(show, rt, points);
      }
    }

    /** The peony loop of explode(): PeonyCount sparks sharing one power. */
    method PeonyBurst(show: Show, rt: Runtime, power: real) returns (burst: seq<Particle>)
      requires rt.Valid() && power >= 0.0
      modifies show`particles, rt`drawn
      ensures show.particles == old(show.particles) + burst
      ensures fresh(burst) && |burst| == PeonyCount && Distinct(burst)
      ensures forall p :: p in burst ==> Spawned(p) && PeonySpark(p, power)
      ensures rt.drawn == old(rt.drawn) + 4 * PeonyCount
    {
      burst := [];
      var i := 0;
      while i < PeonyCount
        invariant 0 <= i <= PeonyCount && |burst| == i
        invariant show.particles == old(show.particles) + burst
        invariant rt.drawn == old(rt.drawn) + 4 * i
        invariant Distinct(burst)
        invariant fresh(burst) && forall p :: p in burst ==> Spawned(p) && PeonySpark(p, power)
      {
        var p := AddPeonySpark(show, rt, power);
        DistinctAppend(burst, [p]);
        burst := burst + [p];
        i := i + 1;
      }
    }

    /** The text loop of explode(): one spark per glyph point, in order. */
    method TextBurst(show: Show, rt: Runtime, points: seq<Point>) returns (burst: seq<Particle>)
      requires rt.Valid()
      modifies show`particles, rt`drawn
      ensures show.particles == old(show.particles) + burst
      ensures fresh(burst) && |burst| == |points| && Distinct(burst)
      ensures forall p :: p in burst ==> Spawned(p)
      ensures forall j :: 0 <= j < |points| ==> TextSpark(burst[j], points[j])
      ensures rt.drawn == old(rt.drawn) + 3 * |points|
    {
      burst := [];
      var k := 0;
      while k < |points|
        invariant 0 <= k <= |points| && |burst| == k
        invariant show.particles == old(show.particles) + burst
        invariant rt.drawn == old(rt.drawn) + 3 * k
        invariant Distinct(burst)
        invariant fresh(burst) && forall p :: p in burst ==> Spawned(p)
        invariant forall j :: 0 <= j < k ==> TextSpark(burst[j], points[j])
      {
        var p := AddTextSpark(show, rt, points[k]);
        DistinctAppend(burst, [p]);
        burst := burst + [p];
        k := k + 1;
      }
    }
  }

  /** The ages of ps, index by index. */
  ghost function Ages(ps: seq<Particle>): (r: seq<nat>)
    reads ps`age
    ensures |r| == |ps| && forall k :: 0 <= k < |ps| ==> r[k] == ps[k].age
  {
    if ps == [] then [] else [ps[0].age] + Ages(ps[1..])
  }

  /** The alphas of ps, index by index. */
  ghost function Alphas(ps: seq<Particle>): (r: seq<real>)
    reads ps`alpha
    ensures |r| == |ps| && forall k :: 0 <= k < |ps| ==> r[k] == ps[k].alpha
  {
    if ps == [] then [] else [ps[0].alpha] + Alphas(ps[1..])
  }

  /** The update counts of rs, index by index. */
  ghost function Updates(rs: seq<Rocket>): (r: seq<nat>)
    reads rs`updates
    ensures |r| == |rs| && forall k :: 0 <= k < |rs| ==> r[k] == rs[k].updates
  {
    if rs == [] then [] else [rs[0].updates] + Updates(rs[1..])
  }

  /** Non-exploded rockets of rs, in order. */
  function Unexploded(rs: seq<Rocket>): seq<Rocket>
    reads rs`exploded
  {
    if rs == [] then []
    else (if rs[0].exploded then [] else [rs[0]]) + Unexploded(rs[1..])
  }

  /** Particles of ps whose alpha is still positive, in order. */
  function Alive(ps: seq<Particle>): seq<Particle>
    reads ps`alpha
  {
    if ps == [] then []
    else (if ps[0].alpha <= 0.0 then [] else [ps[0]]) + Alive(ps[1..])
  }

  /** Unexploded keeps only unexploded rockets of rs, and no rocket twice. */
  lemma {:induction false} UnexplodedSound(rs: seq<Rocket>)
    ensures forall q :: q in Unexploded(rs) ==> q in rs && !q.exploded
    ensures Distinct(rs) ==> Distinct(Unexploded(rs))
  {
    if rs != [] {
      UnexplodedSound(rs[1..]);
      assert rs == [rs[0]] + rs[1..];
    }
  }

  /** Unexploded drops no unexploded rocket of rs. */
  lemma {:induction false} UnexplodedComplete(rs: seq<Rocket>)
    ensures forall q :: q in rs && !q.exploded ==> q in Unexploded(rs)
  {
    if rs != [] {
      UnexplodedComplete(rs[1..]);
      assert rs == [rs[0]] + rs[1..];
    }
  }

  /** Alive keeps only particles of ps with positive alpha, and no particle twice. */
  lemma {:induction false} AliveSound(ps: seq<Particle>)
    ensures forall q :: q in Alive(ps) ==> q in ps && q.alpha > 0.0
    ensures Distinct(ps) ==> Distinct(Alive(ps))
  {
    if ps != [] {
      AliveSound(ps[1..]);
      assert ps == [ps[0]] + ps[1..];
    }
  }

  /** Alive drops no particle of ps whose alpha is positive. */
  lemma {:induction false} AliveComplete(ps: seq<Particle>)
    ensures forall q :: q in ps && q.alpha > 0.0 ==> q in Alive(ps)
  {
    if ps != [] {
      AliveComplete(ps[1..]);
      assert ps == [ps[0]] + ps[1..];
    }
  }

  /** The elements of s[j..] whose flag in keep is set, in order. */
  function SelectFrom<T>(s: seq<T>, keep: seq<bool>, j: nat): seq<T>
    requires |s| == |keep| && j <= |s|
    decreases |s| - j
  {
    if j == |s| then [] else (if keep[j] then [s[j]] else []) + SelectFrom(s, keep, j + 1)
  }

  /** SelectFrom(s, keep, j) depends on the flags from j on only. */
  lemma {:induction false} SelectFromFlags<T>(s: seq<T>, keep: seq<bool>, keep': seq<bool>, j: nat)
    requires |s| == |keep| == |keep'| && j <= |s|
    requires forall k :: j <= k < |s| ==> keep[k] == keep'[k]
    ensures SelectFrom(s, keep, j) == SelectFrom(s, keep', j)
    decreases |s| - j
  {
    if j < |s| {
      SelectFromFlags(s, keep, keep', j + 1);
    }
  }

  lemma {:induction false} AliveSelect(ps: seq<Particle>, keep: seq<bool>, j: nat)
    requires |ps| == |keep| && j <= |ps|
    requires forall k :: j <= k < |ps| ==> keep[k] == (ps[k].alpha > 0.0)
    ensures Alive(ps[j..]) == SelectFrom(ps, keep, j)
    decreases |ps| - j
  {
    if j < |ps| {
      AliveSelect(ps, keep, j + 1);
      assert ps[j..][1..] == ps[j + 1..];
    }
  }

  lemma {:induction false} UnexplodedSelect(rs: seq<Rocket>, keep: seq<bool>, j: nat)
    requires |rs| == |keep| && j <= |rs|
    requires forall k :: j <= k < |rs| ==> keep[k] == !rs[k].exploded
    ensures Unexploded(rs[j..]) == SelectFrom(rs, keep, j)
    decreases |rs| - j
  {
    if j < |rs| {
      UnexplodedSelect(rs, keep, j + 1);
      assert rs[j..][1..] == rs[j + 1..];
    }
  }

  /**
   * Removing index i from s[..i + 1] + tail (Array.prototype.splice(i, 1))
   * leaves s[..i] + tail; keeping it leaves s[..i] + [s[i]] + tail.
   */
  lemma Splice<T>(s: seq<T>, i: nat, tail: seq<T>)
    requires i < |s|
    ensures (s[..i + 1] + tail)[..i] + (s[..i + 1] + tail)[i + 1..] == s[..i] + tail
    ensures s[..i + 1] + tail == s[..i] + ([s[i]] + tail)
  {
    assert (s[..i + 1] + tail)[..i] == s[..i];
    assert (s[..i + 1] + tail)[i + 1..] == tail;
  }

  /** After a full backward pass, the kept particles are the live ones, all valid. */
  lemma Culled(ps: seq<Particle>, keep: seq<bool>)
    requires |ps| == |keep| && Distinct(ps)
    requires forall k :: 0 <= k < |ps| ==> ps[k].Valid() && keep[k] == (ps[k].alpha > 0.0)
    ensures SelectFrom(ps, keep, 0) == Alive(ps) && Distinct(Alive(ps))
    ensures forall p :: p in Alive(ps) ==> p.Valid() && p.alpha > 0.0
  {
    assert ps[0..] == ps;
    AliveSelect(ps, keep, 0);
    AliveSound(ps);
    forall p | p in Alive(ps) ensures p.Valid() && p.alpha > 0.0 {
      var k :| 0 <= k < |ps| && ps[k] == p;
    }
  }

  /** After a full backward pass, the kept rockets are the unexploded ones, all valid. */
  lemma Landed(rs: seq<Rocket>, keep: seq<bool>)
    requires |rs| == |keep| && Distinct(rs)
    requires forall k :: 0 <= k < |rs| ==> rs[k].Valid() && keep[k] == !rs[k].exploded
    ensures SelectFrom(rs, keep, 0) == Unexploded(rs) && Distinct(Unexploded(rs))
    ensures forall r :: r in Unexploded(rs) ==> r.Valid() && !r.exploded
  {
    assert rs[0..] == rs;
    UnexplodedSelect(rs, keep, 0);
    UnexplodedSound(rs);
    forall r | r in Unexploded(rs) ensures r.Valid() && !r.exploded {
      var k :| 0 <= k < |rs| && rs[k] == r;
    }
  }

  /** The constant parameters of a rocket are those of a launch on a canvas of the given size. */
  ghost predicate Carries(r: Rocket, l: Launch, width: nat, height: nat)
  {
    && r.targetY == height as real * l.targetFrac
    && r.hue == l.colour.hue && r.sat == l.colour.sat && r.light == l.colour.light
    && r.shell == l.shell && r.textChar == l.textChar
  }

  /**
   * What one update of r appended to the particles: its burst when the
   * update made it explode, nothing when it is still rising.
   */
  ghost predicate Fired(r: Rocket, burst: seq<Particle>, power: real, rt: Runtime)
    requires rt.Valid()
    reads r, burst
  {
    if r.exploded then r.BurstOf(burst, rt, power) else burst == []
  }

  /**
   * The burst sizes of a rocket pass: rocket k appended BurstSize particles
   * if it exploded and none if it is still rising.
   */
  ghost predicate BurstSizes(rs: seq<Rocket>, bs: seq<seq<Particle>>, rt: Runtime)
    requires rt.Valid()
    reads rs
  {
    |rs| == |bs| && forall k :: 0 <= k < |rs| ==> |bs[k]| == if rs[k].exploded then rs[k].BurstSize(rt) else 0
  }

  /**
   * The bursts of the rockets at indices j and above, in the order the
   * backward rocket loop appends them: the last rocket's first.
   */
  ghost function Bursts(bs: seq<seq<Particle>>, j: nat): seq<Particle>
    decreases |bs| - j
  {
    if j >= |bs| then [] else Bursts(bs, j + 1) + bs[j]
  }

  /** Replacing the burst at index i leaves the bursts above i as they were. */
  lemma {:induction false} BurstsAbove(bs: seq<seq<Particle>>, i: nat, b: seq<Particle>, j: nat)
    requires i < |bs| && i < j
    ensures Bursts(bs[i := b], j) == Bursts(bs, j)
    decreases |bs| - j
  {
    if j < |bs| {
      BurstsAbove(bs, i, b, j + 1);
    }
  }

  /** The state of a running show: the two entity lists and the frame counter. */
  class Show {
    const width: nat
    const height: nat
    var rockets: seq<Rocket>
    var particles: seq<Particle>
    var frame: nat

    /**
     * Between frames no exploded rocket and no faded particle is kept, and no
     * entity is listed twice.
     */
    ghost predicate Valid()
      reads this`rockets, this`particles, rockets, particles
    {
      && Distinct(rockets) && Distinct(particles)
      && (forall r :: r in rockets ==> r.Valid() && !r.exploded)
      && (forall p :: p in particles ==> p.Valid() && p.alpha > 0.0)
    }

    constructor (width: nat, height: nat)
      ensures Valid() && this.width == width && this.height == height
      ensures rockets == [] && particles == [] && frame == 0
    {
      this.width, this.height := width, height;
      rockets, particles, frame := [], [], 0;
    }

    /**
     * One animate() call: launch this frame's rockets, update every rocket
     * once (dropping exploded ones), update every particle once (dropping
     * faded ones, including those born in this frame), advance the frame.
     */
    method Animate(rt: Runtime)
      returns (ghost spawned: seq<Rocket>, ghost born: seq<Particle>, ghost bursts: seq<seq<Particle>>)
      requires Valid() && rt.Valid()
      modifies this, rockets, particles, rt`drawn
      ensures Valid()
      ensures frame == old(frame) + 1
      ensures |spawned| == |Schedule(old(frame))|
      ensures forall k :: 0 <= k < |spawned| ==>
        fresh(spawned[k]) && Carries(spawned[k], Schedule(old(frame))[k], width, height) &&
        spawned[k].updates == 1
      ensures rockets == Unexploded(old(rockets) + spawned)
      ensures forall r :: r in old(rockets) ==> r.updates == old(r.updates) + 1
      ensures particles == Alive(old(particles) + born)
      ensures forall p :: p in old(particles) ==> p.age == old(p.age) + 1 && p.alpha == old(p.alpha) - p.decay
      ensures fresh(born) && forall p :: p in born ==> p.age == 1 && p.alpha == 1.0 - p.decay
      ensures |bursts| == |old(rockets) + spawned| && born == Bursts(bursts, 0)
      ensures BurstSizes(old(rockets) + spawned, bursts, rt)
    {
      spawned, born, bursts := RocketPhase(rt);
      ParticlePhase(old(rockets) + spawned, bursts, rt);
    }

    /**
     * The second half of animate(): the particle pass, then the frame
     * counter. No rocket is touched.
     */
    method ParticlePhase(ghost rs: seq<Rocket>, ghost bs: seq<seq<Particle>>, rt: Runtime)
      requires Valid() && rt.Valid() && BurstSizes(rs, bs, rt)
      modifies this`particles, this`frame, particles
      ensures Valid() && frame == old(frame) + 1
      ensures particles == Alive(old(particles))
      ensures forall p :: p in old(particles) ==> p.age == old(p.age) + 1 && p.alpha == old(p.alpha) - p.decay
      ensures Unexploded(rs) == old(Unexploded(rs))
      ensures forall r :: r in rs ==> r.updates == old(r.updates)
      ensures BurstSizes(rs, bs, rt)
    {
      UpdateParticles(rs);
      frame := frame + 1;
    }

    /**
     * The first half of animate(): this frame's launches, then the rocket
     * pass. Particles that existed before are not touched; those born in
     * bursts are appended.
     */
    method RocketPhase(rt: Runtime)
      returns (ghost spawned: seq<Rocket>, ghost born: seq<Particle>, ghost bursts: seq<seq<Particle>>)
      requires Valid() && rt.Valid()
      modifies this`rockets, this`particles, rockets, rt`drawn
      ensures Valid()
      ensures |spawned| == |Schedule(frame)|
      ensures forall k :: 0 <= k < |spawned| ==>
        fresh(spawned[k]) && Carries(spawned[k], Schedule(frame)[k], width, height) &&
        spawned[k].updates == 1
      ensures rockets == Unexploded(old(rockets) + spawned)
      ensures forall r :: r in old(rockets) ==> r.updates == old(r.updates) + 1
      ensures particles == old(particles) + born
      ensures forall p :: p in old(particles) ==> p.age == old(p.age) && p.alpha == old(p.alpha)
      ensures fresh(born) && forall p :: p in born ==> p.age == 0 && p.alpha == 1.0
      ensures born == Bursts(bursts, 0) && BurstSizes(old(rockets) + spawned, bursts, rt)
    {
      spawned := Spawn(Schedule(frame), rt);
      ghost var pre := rockets;
      born, bursts := FlyRockets(rt);
      forall k | 0 <= k < |spawned| ensures spawned[k].updates == 1 {
        assert spawned[k] in pre;
      }
    }

    /**
     * The rocket pass in filter form: the list becomes the unexploded
     * rockets, each updated once; the bursts are appended to the particles.
     */
    method FlyRockets(rt: Runtime) returns (ghost born: seq<Particle>, ghost bursts: seq<seq<Particle>>)
      requires Valid() && rt.Valid()
      modifies this`rockets, this`particles, rockets, rt`drawn
      ensures Valid()
      ensures rockets == Unexploded(old(rockets))
      ensures forall r :: r in old(rockets) ==> r.updates == old(r.updates) + 1
      ensures particles == old(particles) + born
      ensures fresh(born) && forall p :: p in born ==> p.age == 0 && p.alpha == 1.0
      ensures born == Bursts(bursts, 0) && BurstSizes(old(rockets), bursts, rt)
    {
      ghost var keep;
      keep, born, bursts := UpdateRockets(rt);
      Landed(old(rockets), keep);
      forall r | r in old(rockets) ensures r.updates == old(r.updates) + 1 {
        var k :| 0 <= k < |old(rockets)| && old(rockets)[k] == r;
      }
    }

    /** The frame tests of the script: push this frame's launches, in order. */
    method Spawn(launches: seq<Launch>, rt: Runtime) returns (ghost spawned: seq<Rocket>)
      requires Valid() && rt.Valid()
      modifies this`rockets, rt`drawn
      ensures Valid()
      ensures rockets == old(rockets) + spawned
      ensures |spawned| == |launches|
      ensures forall k :: 0 <= k < |spawned| ==>
        fresh(spawned[k]) && Carries(spawned[k], launches[k], width, height) &&
        spawned[k].updates == 0 && spawned[k].y == height as real &&
        spawned[k].x == width as real * launches[k].xFrac
    {
      spawned := [];
      var k := 0;
      while k < |launches|
        invariant 0 <= k <= |launches| && |spawned| == k
        invariant rockets == old(rockets) + spawned
        invariant Valid()
        invariant forall j :: 0 <= j < k ==>
          fresh(spawned[j]) && Carries(spawned[j], launches[j], width, height) &&
          spawned[j].updates == 0 && spawned[j].y == height as real &&
          spawned[j].x == width as real * launches[j].xFrac
      {
        var r := LaunchRocket(launches[k], rt);
        assert old(rockets) + (spawned + [r]) == old(rockets) + spawned + [r];
        spawned := spawned + [r];
        k := k + 1;
      }
    }

    /** One launch of the script: a new rocket from the bottom edge, pushed last. */
    method LaunchRocket(l: Launch, rt: Runtime) returns (r: Rocket)
      requires Valid() && rt.Valid()
      modifies this`rockets, rt`drawn
      ensures Valid() && rockets == old(rockets) + [r]
      ensures fresh(r) && Carries(r, l, width, height) && r.updates == 0
      ensures r.y == height as real && r.x == width as real * l.xFrac
    {
      r := new Rocket(width as real * l.xFrac, height as real * l.targetFrac,
                      l.colour.hue, l.colour.sat, l.colour.light, l.shell, l.textChar,
                      height as real, rt);
      DistinctAppend(rockets, [r]);
      rockets := rockets + [r];
    }

    /**
     * The rocket loop's state once the rockets at indices above i have been
     * updated (ups holds every rocket's update count before the loop, base
     * the particles before it, born the sparks appended since).
     */
    ghost predicate RocketPass(i: int, pre: seq<Rocket>, keep: seq<bool>, ups: seq<nat>,
                               base: seq<Particle>, born: seq<Particle>)
      reads this, pre, particles, born
    {
      && -1 <= i < |pre| && |keep| == |pre| && |ups| == |pre| && Distinct(pre)
      && rockets == pre[..i + 1] + SelectFrom(pre, keep, i + 1)
      && particles == base + born
      && Distinct(particles) && (forall p :: p in particles ==> p.Valid() && p.alpha > 0.0)
      && (forall p :: p in born ==> p.age == 0 && p.alpha == 1.0)
      && (forall k :: 0 <= k < |pre| ==>
            pre[k].Valid() &&
            (k <= i ==> pre[k].updates == ups[k] && !pre[k].exploded) &&
            (k > i ==> pre[k].updates == ups[k] + 1 && keep[k] == !pre[k].exploded))
    }

    /**
     * The body of the rocket loop at index i: update the rocket, which may
     * explode and append its burst, and splice it out if it exploded.
     */
    method UpdateRocketAt(i: nat, r: Rocket, ghost pre: seq<Rocket>, ghost keep: seq<bool>, ghost ups: seq<nat>,
                          ghost base: seq<Particle>, ghost born: seq<Particle>, rt: Runtime)
      returns (ghost keep': seq<bool>, ghost burst: seq<Particle>, ghost power: real)
      requires RocketPass(i, pre, keep, ups, base, born) && i < |pre| && r == pre[i] && rt.Valid()
      modifies this`rockets, this`particles, rt`drawn
      modifies r`vy, r`x, r`y, r`updates, r`exploded
      ensures RocketPass(i - 1, pre, keep', ups, base, born + burst)
      ensures fresh(burst) && Fired(r, burst, power, rt)
      ensures |burst| == if r.exploded then r.BurstSize(rt) else 0
    {
      burst, power := Advance(r, base, born, rt);
      keep' := SpliceAt(i, pre, keep);
    }

    /**
     * Update one rising rocket: its burst is appended to the particles if
     * and only if this update makes it explode.
     */
    method Advance(r: Rocket, ghost base: seq<Particle>, ghost born: seq<Particle>, rt: Runtime)
      returns (ghost burst: seq<Particle>, ghost power: real)
      requires r.Valid() && !r.exploded && rt.Valid() && particles == base + born
      requires Distinct(particles) && forall p :: p in particles ==> p.Valid() && p.alpha > 0.0
      requires forall p :: p in born ==> p.age == 0 && p.alpha == 1.0
      modifies this`particles, rt`drawn
      modifies r`vy, r`x, r`y, r`updates, r`exploded
      ensures r.Valid() && r.updates == old(r.updates) + 1
      ensures particles == base + (born + burst)
      ensures Distinct(particles) && forall p :: p in particles ==> p.Valid() && p.alpha > 0.0
      ensures forall p :: p in born + burst ==> p.age == 0 && p.alpha == 1.0
      ensures fresh(burst) && Fired(r, burst, power, rt)
      ensures |burst| == if r.exploded then r.BurstSize(rt) else 0
    {
      ghost var before := particles;
      burst, power := r.Update(this, rt);
      DistinctAppend(before, burst);
    }

    /** Splice pre[i] out of the rocket list if it has exploded. */
    method SpliceAt(i: nat, ghost pre: seq<Rocket>, ghost keep: seq<bool>) returns (ghost keep': seq<bool>)
      requires i < |pre| == |keep| && rockets == pre[..i + 1] + SelectFrom(pre, keep, i + 1)
      modifies this`rockets
      ensures keep' == keep[i := !pre[i].exploded]
      ensures rockets == pre[..i] + SelectFrom(pre, keep', i)
    {
      ghost var tail := SelectFrom(pre, keep, i + 1);
      keep' := keep[i := !pre[i].exploded];
      SelectFromFlags(pre, keep, keep', i + 1);
      Splice(pre, i, tail);
      if rockets[i].exploded {
        rockets := rockets[..i] + rockets[i + 1..];
      }
    }

    /** The rocket loop: backward over the rockets, update each, splice out the exploded. */
    method UpdateRockets(rt: Runtime)
      returns (ghost keep: seq<bool>, ghost born: seq<Particle>, ghost bursts: seq<seq<Particle>>)
      requires Valid() && rt.Valid()
      modifies this`rockets, this`particles, rockets, rt`drawn
      ensures |keep| == |old(rockets)| && rockets == SelectFrom(old(rockets), keep, 0)
      ensures forall k :: 0 <= k < |keep| ==>
        old(rockets)[k].Valid() && keep[k] == !old(rockets)[k].exploded &&
        old(rockets)[k].updates == old(rockets[k].updates) + 1
      ensures particles == old(particles) + born
      ensures Distinct(particles) && forall p :: p in particles ==> p.Valid() && p.alpha > 0.0
      ensures fresh(born) && forall p :: p in born ==> p.age == 0 && p.alpha == 1.0
      ensures born == Bursts(bursts, 0) && BurstSizes(old(rockets), bursts, rt)
    {
      ghost var pre := rockets;
      ghost var ups := Updates(pre);
      assert particles == particles + [];
      keep, born, bursts := RocketLoop(pre, ups, particles, rt);
      assert pre[..0] == [];
    }

    /** The loop itself, from the untouched list to the finished pass. */
    method RocketLoop(ghost pre: seq<Rocket>, ghost ups: seq<nat>, ghost base: seq<Particle>, rt: Runtime)
      returns (ghost keep: seq<bool>, ghost born: seq<Particle>, ghost bursts: seq<seq<Particle>>)
      requires RocketPass(|pre| - 1, pre, seq(|pre|, _ => false), ups, base, []) && rt.Valid()
      modifies this`rockets, this`particles, pre, rt`drawn
      ensures RocketPass(-1, pre, keep, ups, base, born) && fresh(born)
      ensures born == Bursts(bursts, 0) && BurstSizes(pre, bursts, rt)
    {
      keep := seq(|pre|, _ => false);
      born := [];
      bursts := seq(|pre|, _ => []);
      var i := |rockets| - 1;
      while i >= 0
        invariant RocketPass(i, pre, keep, ups, base, born) && fresh(born)
        invariant |bursts| == |pre| && born == Bursts(bursts, i + 1)
        invariant forall k :: i < k < |pre| ==> |bursts[k]| == if pre[k].exploded then pre[k].BurstSize(rt) else 0
        decreases i + 1
      {
        ghost var burst;
        ghost var power;
        keep, burst, power := UpdateRocketAt(i, rockets[i], pre, keep, ups, base, born, rt);
        BurstsAbove(bursts, i, burst, i + 1);
        bursts := bursts[i := burst];
        born := born + burst;
        i := i - 1;
      }
    }

    /**
     * The particle loop's state once the particles at indices above i have
     * been updated (ages and alphas hold every particle's values before the
     * loop).
     */
    ghost predicate ParticlePass(i: int, pre: seq<Particle>, keep: seq<bool>, ages: seq<nat>, alphas: seq<real>)
      reads this, pre
    {
      && -1 <= i < |pre| && |keep| == |pre| && |ages| == |pre| && |alphas| == |pre| && Distinct(pre)
      && particles == pre[..i + 1] + SelectFrom(pre, keep, i + 1)
      && (forall k :: 0 <= k < |pre| ==>
            pre[k].Valid() &&
            (k <= i ==> pre[k].age == ages[k] && pre[k].alpha == alphas[k]) &&
            (k > i ==> pre[k].age == ages[k] + 1 && pre[k].alpha == alphas[k] - pre[k].decay &&
                       keep[k] == (pre[k].alpha > 0.0)))
    }

    /** The body of the particle loop at index i: update, then splice out if faded. */
    method UpdateParticleAt(i: nat, p: Particle, ghost pre: seq<Particle>, ghost keep: seq<bool>,
                            ghost ages: seq<nat>, ghost alphas: seq<real>)
      returns (ghost keep': seq<bool>)
      requires ParticlePass(i, pre, keep, ages, alphas) && i < |pre| && p == pre[i]
      modifies this`particles
      modifies p`prevX, p`prevY, p`vx, p`vy, p`x, p`y, p`alpha, p`age
      ensures ParticlePass(i - 1, pre, keep', ages, alphas)
    {
      p.Update();
      keep' := FadeAt(i, pre, keep);
    }

    /** Splice pre[i] out of the particle list if it has faded. */
    method FadeAt(i: nat, ghost pre: seq<Particle>, ghost keep: seq<bool>) returns (ghost keep': seq<bool>)
      requires i < |pre| == |keep| && particles == pre[..i + 1] + SelectFrom(pre, keep, i + 1)
      modifies this`particles
      ensures keep' == keep[i := pre[i].alpha > 0.0]
      ensures particles == pre[..i] + SelectFrom(pre, keep', i)
    {
      ghost var tail := SelectFrom(pre, keep, i + 1);
      keep' := keep[i := pre[i].alpha > 0.0];
      SelectFromFlags(pre, keep, keep', i + 1);
      Splice(pre, i, tail);
      if particles[i].alpha <= 0.0 {
        particles := particles[..i] + particles[i + 1..];
      }
    }

    /** The particle loop: backward over the particles, update each, splice out the faded. */
    method UpdateParticles(ghost rs: seq<Rocket>)
      requires Valid()
      modifies this`particles, particles
      ensures Valid()
      ensures particles == Alive(old(particles))
      ensures forall p :: p in old(particles) ==> p.age == old(p.age) + 1 && p.alpha == old(p.alpha) - p.decay
      ensures Unexploded(rs) == old(Unexploded(rs))
      ensures forall r :: r in rs ==> r.updates == old(r.updates) && r.exploded == old(r.exploded)
    {
      ghost var pre := particles;
      ghost var keep := SweepParticles(rs);
      Culled(pre, keep);
      forall p | p in pre ensures p.age == old(p.age) + 1 && p.alpha == old(p.alpha) - p.decay {
        var k :| 0 <= k < |pre| && pre[k] == p;
      }
    }

    /** The particle pass in index form; no rocket is touched. */
    method SweepParticles(ghost rs: seq<Rocket>) returns (ghost keep: seq<bool>)
      requires Valid()
      modifies this`particles, particles
      ensures |keep| == |old(particles)| && particles == SelectFrom(old(particles), keep, 0)
      ensures forall k :: 0 <= k < |keep| ==>
        old(particles)[k].Valid() && keep[k] == (old(particles)[k].alpha > 0.0) &&
        old(particles)[k].age == old(particles[k].age) + 1 &&
        old(particles)[k].alpha == old(particles[k].alpha) - old(particles)[k].decay
      ensures forall r :: r in rockets ==> r.Valid() && !r.exploded
      ensures forall r :: r in rs ==> r.exploded == old(r.exploded) && r.updates == old(r.updates)
    {
      ghost var pre := particles;
      ghost var ages, alphas := Ages(pre), Alphas(pre);
      keep := ParticleLoop(pre, ages, alphas, rs);
      assert pre[..0] == [];
    }

    /** The loop itself, from the untouched list to the finished pass. */
    method ParticleLoop(ghost pre: seq<Particle>, ghost ages: seq<nat>, ghost alphas: seq<real>, ghost rs: seq<Rocket>)
      returns (ghost keep: seq<bool>)
      requires ParticlePass(|pre| - 1, pre, seq(|pre|, _ => false), ages, alphas)
      requires forall r :: r in rockets ==> r.Valid() && !r.exploded
      modifies this`particles, pre
      ensures ParticlePass(-1, pre, keep, ages, alphas)
      ensures forall r :: r in rockets ==> r.Valid() && !r.exploded
      ensures forall r :: r in rs ==> r.exploded == old(r.exploded) && r.updates == old(r.updates)
    {
      keep := seq(|pre|, _ => false);
      var i := |particles| - 1;
      while i >= 0
        invariant ParticlePass(i, pre, keep, ages, alphas)
        invariant forall r :: r in rockets ==> r.Valid() && !r.exploded
        invariant forall r :: r in rs ==> r.exploded == old(r.exploded) && r.updates == old(r.updates)
        decreases i + 1
      {
        keep := UpdateParticleAt(i, particles[i], pre, keep, ages, alphas);
        i := i - 1;
      }
    }
  }
}
