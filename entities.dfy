/**
  Value views of the two entities of the fireworks effect, and the pure
  specification of what one `update` does to each. The classes in module
  `Show` keep these fields as mutable object state; their methods are proved
  to change an entity exactly as `FireworkStep` and `ParticleStep` say.

  Distances are kept squared (see `Helpers.DistanceSquared`); cosines and
  sines of the fixed launch angles are stored instead of the angles.
*/
module Entities {
  import opened Trail
  import opened Helpers
  import Fade

  const FireworkTrailLength: nat := 3
  const ParticleTrailLength: nat := 5
  const ParticlesPerExplosion: nat := 30

  /** A firework: flies from its launch point (sx, sy) towards its target (tx, ty). */
  datatype FireworkState = FireworkState(
    x: real, y: real,
    sx: real, sy: real,
    tx: real, ty: real,
    distanceToTarget: real,   // squared distance from launch point to target
    distanceTraveled: real,   // squared distance from launch point, as last tested
    coordinates: seq<Point>,
    cos: real, sin: real,     // of the launch angle
    speed: real,
    acceleration: real,
    brightness: real,
    targetRadius: real)

  predicate FireworkInv(f: FireworkState)
  {
    |f.coordinates| == FireworkTrailLength &&
    Direction(f.cos, f.sin) &&
    f.speed > 0.0 && f.acceleration == 1.05 &&
    50.0 <= f.brightness < 70.0 &&
    1.0 <= f.targetRadius < 8.3 &&
    f.distanceToTarget == DistanceSquared(f.sx, f.sy, f.tx, f.ty)
  }

  /** The state the `Firework` constructor creates for a launch from (sx, sy) to (tx, ty). */
  predicate Launched(f: FireworkState, sx: real, sy: real, tx: real, ty: real)
  {
    f.x == sx && f.y == sy && f.sx == sx && f.sy == sy && f.tx == tx && f.ty == ty &&
    f.distanceToTarget == DistanceSquared(sx, sy, tx, ty) && f.distanceTraveled == 0.0 &&
    f.coordinates == Repeat(Point(sx, sy), FireworkTrailLength) &&
    Direction(f.cos, f.sin) &&
    f.speed == 2.0 && f.acceleration == 1.05 &&
    50.0 <= f.brightness < 70.0 &&
    f.targetRadius == 1.0
  }

  /**
    The state of an automatic launch on a `cw` by `ch` canvas: from the
    bottom middle (cw/2, ch) to a target anywhere across the width and in
    the top half.
  */
  predicate AutoLaunched(f: FireworkState, cw: real, ch: real)
  {
    0.0 <= f.tx <= cw && 0.0 <= f.ty <= ch / 2.0 &&
    Launched(f, cw / 2.0, ch, f.tx, f.ty)
  }

  lemma LaunchedIsValid(f: FireworkState, sx: real, sy: real, tx: real, ty: real)
    requires Launched(f, sx, sy, tx, ty)
    ensures FireworkInv(f)
  {
  }

  /** The pulse of the target circle: grow by 0.3 while below 8, then restart at 1. */
  function NextRadius(r: real): (next: real)
    ensures 1.0 <= r < 8.3 ==> 1.0 <= next < 8.3
    ensures next == 1.0 || next == r + 0.3
  {
    if r < 8.0 then r + 0.3 else 1.0
  }

  /**
    The arrival test of `update`: after speeding up, would the next move
    take the firework at least as far from its launch point as its target is?
  */
  predicate Arrives(f: FireworkState)
  {
    var speed := Product(f.speed, f.acceleration);
    DistanceSquared(f.sx, f.sy, f.x + Product(f.cos, speed), f.y + Product(f.sin, speed)) >= f.distanceToTarget
  }

  /**
    One `update` of a firework: the trail shifts in the position held before
    the update, the target pulse advances, the speed grows by the
    acceleration, the distance the move would reach is recorded, and the
    position advances only if the target is not reached. (On arrival the
    update also explodes the firework and removes it; see `Show`.)
  */
  function FireworkStep(f: FireworkState): (r: FireworkState)
    requires |f.coordinates| > 0
    ensures FireworkInv(f) ==> FireworkInv(r)
    ensures Arrives(f) <==> r.distanceTraveled >= r.distanceToTarget
  {
    var speed := Product(f.speed, f.acceleration);
    var vx := Product(f.cos, speed);
    var vy := Product(f.sin, speed);
    var arrived := Arrives(f);
    f.(coordinates := Shift(f.coordinates, Point(f.x, f.y)),
       targetRadius := NextRadius(f.targetRadius),
       speed := speed,
       distanceTraveled := DistanceSquared(f.sx, f.sy, f.x + vx, f.y + vy),
       x := if arrived then f.x else f.x + vx,
       y := if arrived then f.y else f.y + vy)
  }

  /**
    The arrival test as `update` writes it, with `sqrt` standing for
    `Math.sqrt`: comparing the two `calculateDistance` results gives the
    same answer as `Arrives`, which compares the squared distances.
  */
  lemma ArrivalAsWritten(f: FireworkState, sqrt: real -> real)
    requires forall a :: a >= 0.0 ==> sqrt(a) >= 0.0 && sqrt(a) * sqrt(a) == a
    requires f.distanceToTarget == DistanceSquared(f.sx, f.sy, f.tx, f.ty)
    ensures var speed := Product(f.speed, f.acceleration);
            var traveled := sqrt(DistanceSquared(f.sx, f.sy, f.x + Product(f.cos, speed), f.y + Product(f.sin, speed)));
            var toTarget := sqrt(DistanceSquared(f.sx, f.sy, f.tx, f.ty));
            Arrives(f) <==> traveled >= toTarget
  {
    var speed := Product(f.speed, f.acceleration);
    var a := DistanceSquared(f.sx, f.sy, f.x + Product(f.cos, speed), f.y + Product(f.sin, speed));
    var b := DistanceSquared(f.sx, f.sy, f.tx, f.ty);
    SquaresPreserveOrder(sqrt(a), sqrt(b));
  }

  /** The target pulse after `n` updates, starting from `r`. */
  function RadiusAfter(r: real, n: nat): real
  {
    if n == 0 then r else NextRadius(RadiusAfter(r, n - 1))
  }

  /**
    Starting from 1, the pulse runs 1, 1.3, ..., 8.2 and restarts: after n
    updates it is 1 + 0.3 * (n mod 25), so it never leaves [1, 8.2].
  */
  lemma {:induction false} RadiusCycle(n: nat)
    ensures RadiusAfter(1.0, n) == 1.0 + 0.3 * ((n % 25) as real)
    ensures 1.0 <= RadiusAfter(1.0, n) <= 8.2
  {
    if n > 0 {
      RadiusCycle(n - 1);
    }
  }

  /** An explosion particle. */
  datatype ParticleState = ParticleState(
    x: real, y: real,
    coordinates: seq<Point>,
    cos: real, sin: real,     // of the random launch angle
    speed: real,
    friction: real,
    gravity: real,
    hue: real,
    brightness: real,
    alpha: real,
    decay: real)

  predicate ParticleInv(p: ParticleState)
  {
    |p.coordinates| == ParticleTrailLength &&
    Direction(p.cos, p.sin) &&
    p.speed > 0.0 && p.friction == 0.95 && p.gravity == 1.0 &&
    50.0 <= p.brightness < 80.0 &&
    0.015 <= p.decay < 0.03
  }

  /** The state the `Particle` constructor creates at `at` while the global hue is `hue`. */
  predicate Spawned(p: ParticleState, at: Point, hue: real)
  {
    ParticleInv(p) &&
    p.x == at.x && p.y == at.y &&
    p.coordinates == Repeat(at, ParticleTrailLength) &&
    1.0 <= p.speed < 10.0 &&
    hue - 20.0 <= p.hue < hue + 20.0 &&
    p.alpha == 1.0
  }

  /** The removal test of `update`: the decremented alpha is at most `decay`. */
  predicate Fades(p: ParticleState)
  {
    p.alpha - p.decay <= p.decay
  }

  /**
    One `update` of a particle: the trail shifts in the position held before
    the update, friction slows it, it moves along its angle and falls by
    gravity, and its alpha drops by exactly its decay.
  */
  function ParticleStep(p: ParticleState): (r: ParticleState)
    requires |p.coordinates| > 0
    ensures ParticleInv(p) ==> ParticleInv(r)
    ensures Fades(p) <==> r.alpha <= r.decay
  {
    var speed := Product(p.speed, p.friction);
    p.(coordinates := Shift(p.coordinates, Point(p.x, p.y)),
       speed := speed,
       x := p.x + Product(p.cos, speed),
       y := p.y + Product(p.sin, speed) + p.gravity,
       alpha := p.alpha - p.decay)
  }

  /** A particle after `n` updates. */
  function ParticleSteps(p: ParticleState, n: nat): (r: ParticleState)
    requires ParticleInv(p)
    ensures ParticleInv(r)
  {
    if n == 0 then p else ParticleStep(ParticleSteps(p, n - 1))
  }

  /**
    A spawned particle fades exactly as `Fade` describes: after n updates its
    alpha is 1 - n*decay, and update n removes it exactly when
    `Fade.RemovedOnUpdate` says so, which by `Fade.FirstRemoval` is first
    the case on update `Fade.Lifetime(decay)`.
  */
  lemma {:induction false} SpawnedFade(p: ParticleState, at: Point, hue: real, n: nat)
    requires Spawned(p, at, hue)
    ensures ParticleSteps(p, n).alpha == Fade.AlphaAfter(p.decay, n)
    ensures ParticleSteps(p, n).decay == p.decay
    ensures n >= 1 ==> (Fades(ParticleSteps(p, n - 1)) <==> Fade.RemovedOnUpdate(p.decay, n))
  {
    if n > 0 {
      SpawnedFade(p, at, hue, n - 1);
    }
  }

  /** A particle never fades on its first update: 1 - decay > decay since decay < 0.5. */
  lemma SpawnedSurvivesFirstUpdate(p: ParticleState, at: Point, hue: real)
    requires Spawned(p, at, hue)
    ensures !Fades(p)
    ensures ParticleStep(p).alpha > ParticleStep(p).decay
  {
  }

  /** The elements of `s` whose `drop` flag is false, in their original order. */
  function Keep<T>(s: seq<T>, drop: seq<bool>): (r: seq<T>)
    requires |s| == |drop|
    ensures |r| <= |s|
  {
    if s == [] then []
    else (if drop[0] then [] else [s[0]]) + Keep(s[1..], drop[1..])
  }

  /** `Keep` keeps exactly the unflagged elements. */
  lemma {:induction false} KeepMembers<T>(s: seq<T>, drop: seq<bool>, x: T)
    requires |s| == |drop|
    ensures x in Keep(s, drop) <==> exists k :: 0 <= k < |s| && !drop[k] && s[k] == x
  {
    if s != [] {
      KeepMembers(s[1..], drop[1..], x);
      if x in Keep(s[1..], drop[1..]) {
        var k :| 0 <= k < |s| - 1 && !drop[1..][k] && s[1..][k] == x;
        assert !drop[k + 1] && s[k + 1] == x;
      }
      if exists k :: 0 <= k < |s| && !drop[k] && s[k] == x {
        var k :| 0 <= k < |s| && !drop[k] && s[k] == x;
        if k > 0 {
          assert !drop[1..][k - 1] && s[1..][k - 1] == x;
        }
      }
    }
  }

  /** With nothing flagged, `Keep` keeps everything. */
  lemma {:induction false} KeepAll<T>(s: seq<T>, drop: seq<bool>)
    requires |s| == |drop| && forall k :: 0 <= k < |drop| ==> !drop[k]
    ensures Keep(s, drop) == s
  {
    if s != [] {
      KeepAll(s[1..], drop[1..]);
    }
  }

  /** `Keep` of a concatenation is the concatenation of the two `Keep`s. */
  lemma {:induction false} KeepConcat<T>(a: seq<T>, b: seq<T>, da: seq<bool>, db: seq<bool>)
    requires |a| == |da| && |b| == |db|
    ensures Keep(a + b, da + db) == Keep(a, da) + Keep(b, db)
  {
    if a != [] {
      assert (a + b)[1..] == a[1..] + b;
      assert (da + db)[1..] == da[1..] + db;
      KeepConcat(a[1..], b, da[1..], db);
    } else {
      assert a + b == b && da + db == db;
    }
  }

  predicate Distinct<T(==)>(s: seq<T>)
  {
    forall i, j :: 0 <= i < j < |s| ==> s[i] != s[j]
  }

  /** The arrival flag of each firework, in collection order. */
  function ArrivalFlags(fs: seq<FireworkState>): (r: seq<bool>)
    ensures |r| == |fs|
    ensures forall k :: 0 <= k < |fs| ==> r[k] == Arrives(fs[k])
  {
    seq(|fs|, k requires 0 <= k < |fs| => Arrives(fs[k]))
  }

  /** The removal flag of each particle, in collection order. */
  function FadeFlags(ps: seq<ParticleState>): (r: seq<bool>)
    ensures |r| == |ps|
    ensures forall k :: 0 <= k < |ps| ==> r[k] == Fades(ps[k])
  {
    seq(|ps|, k requires 0 <= k < |ps| => Fades(ps[k]))
  }

  /**
    Where explosions happen when the fireworks `fs` are updated from the last
    index down to the first: the targets of the arriving ones, in that order.
  */
  function ExplosionTargets(fs: seq<FireworkState>): (r: seq<Point>)
    ensures |r| <= |fs|
  {
    if fs == [] then []
    else ExplosionTargets(fs[1..]) + (if Arrives(fs[0]) then [Point(fs[0].tx, fs[0].ty)] else [])
  }

  /** One explosion per arriving firework, at its target. */
  lemma {:induction false} ExplosionTargetsMembers(fs: seq<FireworkState>, t: Point)
    ensures t in ExplosionTargets(fs) <==>
      exists k :: 0 <= k < |fs| && Arrives(fs[k]) && t == Point(fs[k].tx, fs[k].ty)
  {
    if fs != [] {
      ExplosionTargetsMembers(fs[1..], t);
      if exists k :: 0 <= k < |fs| && Arrives(fs[k]) && t == Point(fs[k].tx, fs[k].ty) {
        var k :| 0 <= k < |fs| && Arrives(fs[k]) && t == Point(fs[k].tx, fs[k].ty);
        if k > 0 {
          assert Arrives(fs[1..][k - 1]) && t == Point(fs[1..][k - 1].tx, fs[1..][k - 1].ty);
        }
      }
      if t in ExplosionTargets(fs[1..]) {
        var k :| 0 <= k < |fs| - 1 && Arrives(fs[1..][k]) && t == Point(fs[1..][k].tx, fs[1..][k].ty);
        assert fs[1..][k] == fs[k + 1];
      }
    }
  }

  /**
    The particles of a run of explosions, in creation order: one block of 30
    states per target, each spawned at that target while the global hue was
    `hue`.
  */
  ghost predicate SpawnedAt(states: seq<ParticleState>, targets: seq<Point>, hue: real)
    decreases |targets|
  {
    if targets == [] then states == []
    else
      var n := |states| - ParticlesPerExplosion;
      n >= 0 &&
      SpawnedAt(states[..n], targets[..|targets| - 1], hue) &&
      forall k :: n <= k < |states| ==> Spawned(states[k], targets[|targets| - 1], hue)
  }

  /** Two runs of explosions one after the other form a run over both target lists. */
  lemma {:induction false} SpawnedAtConcat(a: seq<ParticleState>, ta: seq<Point>,
                                           b: seq<ParticleState>, tb: seq<Point>, hue: real)
    requires SpawnedAt(a, ta, hue) && SpawnedAt(b, tb, hue)
    ensures SpawnedAt(a + b, ta + tb, hue)
    decreases |tb|
  {
    if tb == [] {
      assert a + b == a && ta + tb == ta;
    } else {
      var n := |b| - ParticlesPerExplosion;
      var last := |tb| - 1;
      SpawnedAtConcat(a, ta, b[..n], tb[..last], hue);
      var all := a + b;
      assert all[..|all| - ParticlesPerExplosion] == a + b[..n];
      assert (ta + tb)[..|ta + tb| - 1] == ta + tb[..last];
      forall k | |all| - ParticlesPerExplosion <= k < |all|
        ensures Spawned(all[k], (ta + tb)[|ta + tb| - 1], hue)
      {
        assert all[k] == b[k - |a|];
      }
    }
  }

  /**
    Block by block: particle k of the run was spawned at target k / 30, and
    the run holds exactly 30 particles per target.
  */
  lemma {:induction false} SpawnedAtIndex(states: seq<ParticleState>, targets: seq<Point>, hue: real)
    requires SpawnedAt(states, targets, hue)
    ensures |states| == ParticlesPerExplosion * |targets|
    ensures forall k :: 0 <= k < |states| ==> Spawned(states[k], targets[k / ParticlesPerExplosion], hue)
    decreases |targets|
  {
    if targets != [] {
      var n := |states| - ParticlesPerExplosion;
      var last := |targets| - 1;
      SpawnedAtIndex(states[..n], targets[..last], hue);
      forall k | 0 <= k < |states|
        ensures Spawned(states[k], targets[k / ParticlesPerExplosion], hue)
      {
        if k < n {
          assert k / ParticlesPerExplosion < last;
          assert states[k] == states[..n][k] && targets[k / ParticlesPerExplosion] == targets[..last][k / ParticlesPerExplosion];
        } else {
          assert k / ParticlesPerExplosion == last;
        }
      }
    }
  }

  /**
    One visit of a reverse splicing pass: when everything after index `i` has
    been filtered (`cur`), removing `cur[i]` if it is flagged leaves
    everything from index `i` on filtered.
  */
  lemma SpliceKeep<T>(s: seq<T>, drop: seq<bool>, i: nat, cur: seq<T>, next: seq<T>)
    requires |s| == |drop| && i < |s|
    requires cur == s[..i + 1] + Keep(s[i + 1..], drop[i + 1..])
    requires next == if drop[i] then cur[..i] + cur[i + 1..] else cur
    ensures next == s[..i] + Keep(s[i..], drop[i..])
  {
    KeepAt(s, drop, i);
    var kept := Keep(s[i + 1..], drop[i + 1..]);
    assert cur[..i] == s[..i] && cur[i + 1..] == kept;
    if !drop[i] {
      assert s[..i + 1] == s[..i] + [s[i]];
      ConcatAssociates(s[..i], [s[i]], kept);
    }
  }

  lemma ConcatAssociates<T>(a: seq<T>, b: seq<T>, c: seq<T>)
    ensures (a + b) + c == a + (b + c)
  {
  }

  /** Keep on a suffix starting at index `i` unfolds at `s[i]`. */
  lemma KeepAt<T>(s: seq<T>, drop: seq<bool>, i: nat)
    requires |s| == |drop| && i < |s|
    ensures Keep(s[i..], drop[i..]) == (if drop[i] then [] else [s[i]]) + Keep(s[i + 1..], drop[i + 1..])
  {
    assert s[i..][1..] == s[i + 1..] && drop[i..][1..] == drop[i + 1..];
  }

  /** ExplosionTargets on a suffix starting at index `i` unfolds at `fs[i]`. */
  lemma ExplosionTargetsAt(fs: seq<FireworkState>, i: nat)
    requires i < |fs|
    ensures ExplosionTargets(fs[i..]) ==
            ExplosionTargets(fs[i + 1..]) + (if Arrives(fs[i]) then [Point(fs[i].tx, fs[i].ty)] else [])
  {
    assert fs[i..][1..] == fs[i + 1..];
  }
}
