/**
  The fireworks effect as mutable objects: `Firework` and `Particle` objects
  whose `Update` changes their own fields and splices them out of the
  world's collections, and the `World` that owns the two collections, the
  global hue and the two launch counters and runs one frame per `Tick`.

  Each entity's fields are viewed as a value by `Snapshot()`; the methods
  are proved against the pure steps of module `Entities`.
*/
module Show {
  import opened Trail
  import opened Helpers
  import opened Entities
  import Counters

  class Firework {
    var x: real
    var y: real
    const sx: real
    const sy: real
    const tx: real
    const ty: real
    const distanceToTarget: real
    var distanceTraveled: real
    var coordinates: seq<Point>
    const cos: real
    const sin: real
    var speed: real
    const acceleration: real
    const brightness: real
    var targetRadius: real

    ghost function Snapshot(): FireworkState
      reads this
    {
      FireworkState(x, y, sx, sy, tx, ty, distanceToTarget, distanceTraveled, coordinates,
                    cos, sin, speed, acceleration, brightness, targetRadius)
    }

    ghost predicate Valid()
      reads this
    {
      FireworkInv(Snapshot())
    }

    /** A firework launched from (startX, startY) towards (targetX, targetY). */
    constructor (startX: real, startY: real, targetX: real, targetY: real)
      ensures Launched(Snapshot(), startX, startY, targetX, targetY)
      ensures Valid()
    {
      var trail: seq<Point> := [];
      var coordinateCount := FireworkTrailLength;
      while coordinateCount > 0
        invariant 0 <= coordinateCount <= FireworkTrailLength
        invariant trail == Repeat(Point(startX, startY), FireworkTrailLength - coordinateCount)
      {
        coordinateCount := coordinateCount - 1;
        trail := trail + [Point(startX, startY)];
      }
      var c, s := Heading();
      var u := MathRandom();
      x, y := startX, startY;
      sx, sy := startX, startY;
      tx, ty := targetX, targetY;
      distanceToTarget := DistanceSquared(startX, startY, targetX, targetY);
      distanceTraveled := 0.0;
      coordinates := trail;
      cos, sin := c, s;
      speed := 2.0;
      acceleration := 1.05;
      brightness := Random(u, 50.0, 70.0);
      targetRadius := 1.0;
    }

    /**
      The motion part of `update(index)`: shift the trail, pulse the target
      circle, accelerate, record the distance the next move reaches, and
      move unless that reaches the target. `arrived` is the arrival test.
    */
    method Advance() returns (arrived: bool)
      requires Valid()
      modifies this
      ensures Valid()
      ensures Snapshot() == FireworkStep(old(Snapshot()))
      ensures arrived == Arrives(old(Snapshot()))
    {
      ghost var before := Snapshot();
      coordinates := coordinates[..|coordinates| - 1];
      coordinates := [Point(x, y)] + coordinates;
      if targetRadius < 8.0 {
        targetRadius := targetRadius + 0.3;
      } else {
        targetRadius := 1.0;
      }
      speed := speed * acceleration;
      var vx := cos * speed;
      var vy := sin * speed;
      distanceTraveled := DistanceSquared(sx, sy, x + vx, y + vy);
      assert speed == Product(before.speed, before.acceleration);
      assert vx == Product(before.cos, speed) && vy == Product(before.sin, speed);
      arrived := distanceTraveled >= distanceToTarget;
      assert arrived == Arrives(before);
      assert coordinates == Shift(before.coordinates, Point(before.x, before.y));
      assert targetRadius == NextRadius(before.targetRadius);
      ghost var stepped := FireworkStep(before);
      assert stepped.coordinates == coordinates && stepped.targetRadius == targetRadius;
      assert stepped.speed == speed && stepped.distanceTraveled == distanceTraveled;
      if !arrived {
        x := x + vx;
        y := y + vy;
      }
      assert stepped.x == x && stepped.y == y;
    }

    /**
      `update(index)`: step this firework as `FireworkStep` says; if it
      arrives, explode 30 particles at its target and splice it out of
      `world.fireworks` at `index`.
    */
    method Update(world: World, index: nat)
      requires Valid()
      requires index < |world.fireworks| && world.fireworks[index] == this
      requires world.ParticlesValid()
      modifies this, world`fireworks, world`particles
      ensures Valid()
      ensures Snapshot() == FireworkStep(old(Snapshot()))
      ensures world.fireworks == if Arrives(old(Snapshot()))
                                 then old(world.fireworks[..index] + world.fireworks[index + 1..])
                                 else old(world.fireworks)
      ensures world.ParticlesValid()
      ensures |world.particles| == |old(world.particles)| + (if Arrives(old(Snapshot())) then ParticlesPerExplosion else 0)
      ensures world.particles[..|old(world.particles)|] == old(world.particles)
      ensures forall k :: |old(world.particles)| <= k < |world.particles| ==>
                fresh(world.particles[k]) &&
                Spawned(world.particles[k].Snapshot(), Point(tx, ty), world.hue)
    {
      var arrived := Advance();
      if arrived {
        world.CreateParticles(tx, ty);
        world.fireworks := world.fireworks[..index] + world.fireworks[index + 1..];
      }
    }
  }

  class Particle {
    var x: real
    var y: real
    var coordinates: seq<Point>
    const cos: real
    const sin: real
    var speed: real
    const friction: real
    const gravity: real
    const hue: real
    const brightness: real
    var alpha: real
    const decay: real

    ghost function Snapshot(): ParticleState
      reads this
    {
      ParticleState(x, y, coordinates, cos, sin, speed, friction, gravity, hue, brightness, alpha, decay)
    }

    ghost predicate Valid()
      reads this
    {
      ParticleInv(Snapshot())
    }

    /** A particle at (startX, startY), its hue drawn around the global hue `globalHue`. */
    constructor (startX: real, startY: real, globalHue: real)
      ensures Spawned(Snapshot(), Point(startX, startY), globalHue)
      ensures Valid()
    {
      var trail: seq<Point> := [];
      var coordinateCount := ParticleTrailLength;
      while coordinateCount > 0
        invariant 0 <= coordinateCount <= ParticleTrailLength
        invariant trail == Repeat(Point(startX, startY), ParticleTrailLength - coordinateCount)
      {
        coordinateCount := coordinateCount - 1;
        trail := trail + [Point(startX, startY)];
      }
      var c, s := Heading();
      var u1 := MathRandom();
      var u2 := MathRandom();
      var u3 := MathRandom();
      var u4 := MathRandom();
      x, y := startX, startY;
      coordinates := trail;
      cos, sin := c, s;
      speed := Random(u1, 1.0, 10.0);
      friction := 0.95;
      gravity := 1.0;
      hue := Random(u2, globalHue - 20.0, globalHue + 20.0);
      brightness := Random(u3, 50.0, 80.0);
      alpha := 1.0;
      decay := Random(u4, 0.015, 0.03);
    }

    /**
      `update(index)`: step this particle as `ParticleStep` says, and splice
      it out of `world.particles` at `index` once its alpha is at most its decay.
    */
    method Update(world: World, index: nat)
      requires Valid()
      requires index < |world.particles| && world.particles[index] == this
      modifies this, world`particles
      ensures Valid()
      ensures Snapshot() == ParticleStep(old(Snapshot()))
      ensures world.particles == if Fades(old(Snapshot()))
                                 then old(world.particles[..index] + world.particles[index + 1..])
                                 else old(world.particles)
    {
      coordinates := coordinates[..|coordinates| - 1];
      coordinates := [Point(x, y)] + coordinates;
      speed := speed * friction;
      x := x + cos * speed;
      y := y + sin * speed + gravity;
      alpha := alpha - decay;
      if alpha <= decay {
        world.particles := world.particles[..index] + world.particles[index + 1..];
      }
    }
  }

  ghost function FireworkSnapshots(fs: seq<Firework>): (r: seq<FireworkState>)
    reads set f | f in fs
    ensures |r| == |fs|
    ensures forall k :: 0 <= k < |fs| ==> r[k] == fs[k].Snapshot()
  {
    if fs == [] then [] else [fs[0].Snapshot()] + FireworkSnapshots(fs[1..])
  }

  ghost function ParticleSnapshots(ps: seq<Particle>): (r: seq<ParticleState>)
    reads set p | p in ps
    ensures |r| == |ps|
    ensures forall k :: 0 <= k < |ps| ==> r[k] == ps[k].Snapshot()
  {
    if ps == [] then [] else [ps[0].Snapshot()] + ParticleSnapshots(ps[1..])
  }

  /** Each firework of `fs` now holds the step of the state `states` gives it. */
  ghost predicate FireworksStepped(fs: seq<Firework>, states: seq<FireworkState>)
    reads set f | f in fs
  {
    |fs| == |states| &&
    forall k :: 0 <= k < |fs| ==> FireworkInv(states[k]) && fs[k].Snapshot() == FireworkStep(states[k])
  }

  /** Each particle of `ps` now holds the step of the state `states` gives it. */
  ghost predicate ParticlesStepped(ps: seq<Particle>, states: seq<ParticleState>)
    reads set p | p in ps
  {
    |ps| == |states| &&
    forall k :: 0 <= k < |ps| ==> ParticleInv(states[k]) && ps[k].Snapshot() == ParticleStep(states[k])
  }

  lemma ParticleSnapshotsConcat(a: seq<Particle>, b: seq<Particle>)
    ensures ParticleSnapshots(a + b) == ParticleSnapshots(a) + ParticleSnapshots(b)
  {
    assert |ParticleSnapshots(a + b)| == |ParticleSnapshots(a) + ParticleSnapshots(b)|;
    forall k | 0 <= k < |a + b|
      ensures ParticleSnapshots(a + b)[k] == (ParticleSnapshots(a) + ParticleSnapshots(b))[k]
    {
      if k >= |a| {
        assert (a + b)[k] == b[k - |a|];
      }
    }
  }

  lemma RemoveAtDistinct<T>(s: seq<T>, i: nat)
    requires Distinct(s) && i < |s|
    ensures Distinct(s[..i] + s[i + 1..])
  {
    var r := s[..i] + s[i + 1..];
    forall a, b | 0 <= a < b < |r|
      ensures r[a] != r[b]
    {
      var a' := if a < i then a else a + 1;
      var b' := if b < i then b else b + 1;
      assert r[a] == s[a'] && r[b] == s[b'];
    }
  }

  /** The canvas, the two live collections, the global hue and the launch counters. */
  class World {
    const cw: real
    const ch: real
    var fireworks: seq<Firework>
    var particles: seq<Particle>
    var hue: real
    var limiterTick: int
    var timerTick: int
    var mousedown: bool
    var mx: real
    var my: real

    ghost predicate FireworksValid()
      reads this`fireworks, set f | f in fireworks
    {
      Distinct(fireworks) && forall k :: 0 <= k < |fireworks| ==> fireworks[k].Valid()
    }

    /** Every live particle is well formed and still visible: alpha > decay. */
    ghost predicate ParticlesValid()
      reads this`particles, set p | p in particles
    {
      Distinct(particles) &&
      forall k :: 0 <= k < |particles| ==> particles[k].Valid() && particles[k].alpha > particles[k].decay
    }

    ghost predicate Valid()
      reads this, set f | f in fireworks, set p | p in particles
    {
      0.0 <= cw && 0.0 <= ch &&
      FireworksValid() && ParticlesValid() &&
      0 <= timerTick <= Counters.TimerTotal &&
      0 <= limiterTick <= Counters.LimiterTotal
    }

    constructor (width: real, height: real)
      requires 0.0 <= width && 0.0 <= height
      ensures Valid()
      ensures cw == width && ch == height
      ensures fireworks == [] && particles == []
      ensures hue == 120.0 && limiterTick == 0 && timerTick == 0 && !mousedown
    {
      cw, ch := width, height;
      fireworks, particles := [], [];
      hue := 120.0;
      limiterTick, timerTick := 0, 0;
      mousedown := false;
      mx, my := 0.0, 0.0;
    }

    /** `createParticles(x, y)`: append 30 fresh particles at (x, y). */
    method CreateParticles(x: real, y: real)
      requires ParticlesValid()
      modifies this`particles
      ensures ParticlesValid()
      ensures |particles| == |old(particles)| + ParticlesPerExplosion
      ensures particles[..|old(particles)|] == old(particles)
      ensures forall k :: |old(particles)| <= k < |particles| ==>
                fresh(particles[k]) && Spawned(particles[k].Snapshot(), Point(x, y), hue)
    {
      var particleCount := ParticlesPerExplosion;
      while particleCount > 0
        invariant 0 <= particleCount <= ParticlesPerExplosion
        invariant |particles| == |old(particles)| + (ParticlesPerExplosion - particleCount)
        invariant particles[..|old(particles)|] == old(particles)
        invariant forall k :: |old(particles)| <= k < |particles| ==>
                    fresh(particles[k]) && Spawned(particles[k].Snapshot(), Point(x, y), hue)
        invariant ParticlesValid()
      {
        particleCount := particleCount - 1;
        var p := new Particle(x, y, hue);
        SpawnedSurvivesFirstUpdate(p.Snapshot(), Point(x, y), hue);
        particles := particles + [p];
      }
    }

    /**
      One visit of the firework pass: `fireworks[i].update(i)`. The visited
      firework is stepped; when it arrives it is spliced out and its
      explosion appends 30 fresh particles, returned as `born`. Every other
      firework keeps its state.
    */
    method VisitFirework(i: nat) returns (ghost born: seq<Particle>)
      requires Valid() && i < |fireworks|
      modifies this`fireworks, this`particles, fireworks[i]
      ensures Valid()
      ensures old(fireworks[i]).Snapshot() == FireworkStep(old(fireworks[i].Snapshot()))
      ensures fireworks == if Arrives(old(fireworks[i].Snapshot()))
                           then old(fireworks[..i] + fireworks[i + 1..])
                           else old(fireworks)
      ensures particles == old(particles) + born
      ensures |born| == if Arrives(old(fireworks[i].Snapshot())) then ParticlesPerExplosion else 0
      ensures forall k :: 0 <= k < |born| ==>
                Spawned(born[k].Snapshot(), Point(old(fireworks[i]).tx, old(fireworks[i]).ty), hue)
      ensures forall p :: p in born ==> fresh(p)
    {
      ghost var before := fireworks;
      ghost var oldParticles := particles;
      RemoveAtDistinct(fireworks, i);
      label Visit:
      fireworks[i].Update(this, i);
      born := particles[|oldParticles|..];
      assert particles == oldParticles + born;
      if Arrives(old@Visit(before[i].Snapshot())) {
        assert fireworks == before[..i] + before[i + 1..];
        forall k | 0 <= k < |fireworks|
          ensures fireworks[k].Valid()
        {
          var j := if k < i then k else k + 1;
          if k < i {
            assert fireworks[k] == before[..i][k];
          } else {
            assert fireworks[k] == before[i + 1..][k - i];
          }
          assert fireworks[k] == before[j] && before[j] != before[i];
          assert old@Visit(before[j].Valid());
        }
      } else {
        forall k | 0 <= k < |fireworks|
          ensures fireworks[k].Valid()
        {
          if k != i {
            assert before[k] != before[i];
            assert old@Visit(before[k].Valid());
          }
        }
      }
    }

    /**
      The state of the firework pass once the entries from index `i` on have
      been visited: `F0` is the collection at the start, `S0` the states its
      fireworks had then and `A0` their arrival flags.
    */
    ghost predicate FireworkPass(F0: seq<Firework>, S0: seq<FireworkState>, A0: seq<bool>, i: nat)
      reads this, set f | f in F0, set f | f in fireworks, set p | p in particles
    {
      |S0| == |F0| == |A0| && i <= |F0| && Distinct(F0) &&
      (forall k :: 0 <= k < |F0| ==> FireworkInv(S0[k]) && A0[k] == Arrives(S0[k])) &&
      fireworks == F0[..i] + Keep(F0[i..], A0[i..]) &&
      (forall k :: 0 <= k < i ==> F0[k].Snapshot() == S0[k]) &&
      (forall k :: i <= k < |F0| ==> F0[k].Snapshot() == FireworkStep(S0[k])) &&
      Valid()
    }

    /**
      One iteration of the firework pass: visit index `i`. The particles the
      visit creates are returned as `born`.
    */
    method FireworkPassStep(ghost F0: seq<Firework>, ghost S0: seq<FireworkState>, ghost A0: seq<bool>, i: nat)
      returns (ghost born: seq<Particle>)
      requires FireworkPass(F0, S0, A0, i + 1)
      modifies this`fireworks, this`particles, F0[i]
      ensures FireworkPass(F0, S0, A0, i)
      ensures particles == old(particles) + born
      ensures |born| == if A0[i] then ParticlesPerExplosion else 0
      ensures forall k :: 0 <= k < |born| ==> Spawned(born[k].Snapshot(), Point(S0[i].tx, S0[i].ty), hue)
      ensures forall p :: p in born ==> fresh(p)
    {
      assert A0[i] == Arrives(F0[i].Snapshot()) && S0[i] == F0[i].Snapshot();
      assert fireworks[i] == F0[i];
      ghost var before := fireworks;
      label Visit:
      born := VisitFirework(i);
      SpliceKeep(F0, A0, i, before, fireworks);
      forall k | i < k < |F0|
        ensures F0[k].Snapshot() == FireworkStep(S0[k])
      {
        assert F0[k] != F0[i];
        assert old@Visit(F0[k].Snapshot()) == FireworkStep(S0[k]);
      }
      forall k | 0 <= k < i
        ensures F0[k].Snapshot() == S0[k]
      {
        assert F0[k] != F0[i];
        assert old@Visit(F0[k].Snapshot()) == S0[k];
      }
    }

    /**
      The particles the firework pass has added so far: `spawned`, after the
      particles `P0` present at the start, one block of 30 per target reached
      by the fireworks from index `i` on, in visit order.
    */
    ghost predicate SpawnPass(S0: seq<FireworkState>, P0: seq<Particle>, spawned: seq<Particle>, i: nat)
      reads this`particles, this`hue, set p | p in spawned
    {
      i <= |S0| &&
      particles == P0 + spawned &&
      SpawnedAt(ParticleSnapshots(spawned), ExplosionTargets(S0[i..]), hue)
    }

    /** One iteration of the firework pass with its explosions: visit index `i`. */
    method FireworkPassVisit(ghost F0: seq<Firework>, ghost S0: seq<FireworkState>, ghost A0: seq<bool>,
                             ghost P0: seq<Particle>, ghost spawned: seq<Particle>, i: nat)
      returns (ghost spawned': seq<Particle>)
      requires FireworkPass(F0, S0, A0, i + 1) && SpawnPass(S0, P0, spawned, i + 1)
      modifies this`fireworks, this`particles, F0[i]
      ensures FireworkPass(F0, S0, A0, i) && SpawnPass(S0, P0, spawned', i)
      ensures forall p :: p in spawned' ==> p in spawned || fresh(p)
    {
      ghost var targetsBefore := ExplosionTargets(S0[i + 1..]);
      ghost var statesBefore := ParticleSnapshots(spawned);
      label Visit:
      var born := FireworkPassStep(F0, S0, A0, i);
      ConcatAssociates(P0, spawned, born);
      assert ParticleSnapshots(spawned) == statesBefore;
      ghost var bornStates := ParticleSnapshots(born);
      if A0[i] {
        assert bornStates[..0] == [];
        assert SpawnedAt(bornStates, [Point(S0[i].tx, S0[i].ty)], hue);
      } else {
        assert bornStates == [];
      }
      spawned' := spawned + born;
      ParticleSnapshotsConcat(spawned, born);
      ExplosionTargetsAt(S0, i);
      SpawnedAtConcat(statesBefore, targetsBefore, ParticleSnapshots(born),
                      if A0[i] then [Point(S0[i].tx, S0[i].ty)] else [], hue);
    }

    /**
      The firework pass of `loop`: walk `fireworks` from the last index down
      to 0, updating each entry. Every firework present at the start is
      stepped exactly once, the arriving ones are spliced out and the others
      keep their order, and the explosions append their particles in visit
      order, 30 for each target reached. The particles spawned here are
      returned as `spawned`.
    */
    method UpdateFireworks() returns (ghost spawned: seq<Particle>)
      requires Valid()
      modifies this`fireworks, this`particles, set f | f in fireworks
      ensures Valid()
      ensures fireworks == Keep(old(fireworks), ArrivalFlags(old(FireworkSnapshots(fireworks))))
      ensures FireworksStepped(old(fireworks), old(FireworkSnapshots(fireworks)))
      ensures particles == old(particles) + spawned
      ensures SpawnedAt(ParticleSnapshots(spawned), ExplosionTargets(old(FireworkSnapshots(fireworks))), hue)
      ensures forall p :: p in spawned ==> fresh(p)
    {
      ghost var F0 := fireworks;
      ghost var S0 := FireworkSnapshots(fireworks);
      ghost var A0 := ArrivalFlags(S0);
      ghost var P0 := particles;
      spawned := [];
      var i: nat := |fireworks|;
      assert F0[..i] == F0 && F0[i..] == [] && A0[i..] == [] && S0[i..] == [] && P0 + [] == P0;
      while i > 0
        invariant FireworkPass(F0, S0, A0, i) && SpawnPass(S0, P0, spawned, i)
        invariant forall p :: p in spawned ==> fresh(p)
      {
        i := i - 1;
        spawned := FireworkPassVisit(F0, S0, A0, P0, spawned, i);
      }
      assert F0[0..] == F0 && A0[0..] == A0 && S0[0..] == S0;
    }

    /**
      One visit of the particle pass: `particles[i].update(i)`. The visited
      particle is stepped, and spliced out when it fades; every other
      particle keeps its state.
    */
    method VisitParticle(i: nat)
      requires ParticlesValid() && i < |particles|
      modifies this`particles, particles[i]
      ensures ParticlesValid()
      ensures old(particles[i]).Snapshot() == ParticleStep(old(particles[i].Snapshot()))
      ensures particles == if Fades(old(particles[i].Snapshot()))
                           then old(particles[..i] + particles[i + 1..])
                           else old(particles)
    {
      ghost var before := particles;
      RemoveAtDistinct(particles, i);
      label Visit:
      particles[i].Update(this, i);
      if Fades(old@Visit(before[i].Snapshot())) {
        assert particles == before[..i] + before[i + 1..];
        forall k | 0 <= k < |particles|
          ensures particles[k].Valid() && particles[k].alpha > particles[k].decay
        {
          var j := if k < i then k else k + 1;
          if k < i {
            assert particles[k] == before[..i][k];
          } else {
            assert particles[k] == before[i + 1..][k - i];
          }
          assert particles[k] == before[j] && before[j] != before[i];
          assert old@Visit(before[j].Valid() && before[j].alpha > before[j].decay);
        }
      } else {
        forall k | 0 <= k < |particles|
          ensures particles[k].Valid() && particles[k].alpha > particles[k].decay
        {
          if k != i {
            assert before[k] != before[i];
            assert old@Visit(before[k].Valid() && before[k].alpha > before[k].decay);
          }
        }
      }
    }

    /**
      The state of the particle pass once the entries from index `i` on have
      been visited: `P0` is the collection at the start, `S0` the states its
      particles had then and `D0` their fade flags.
    */
    ghost predicate ParticlePass(P0: seq<Particle>, S0: seq<ParticleState>, D0: seq<bool>, i: nat)
      reads this`particles, set p | p in P0, set p | p in particles
    {
      |S0| == |P0| == |D0| && i <= |P0| && Distinct(P0) &&
      (forall k :: 0 <= k < |P0| ==> ParticleInv(S0[k]) && D0[k] == Fades(S0[k])) &&
      particles == P0[..i] + Keep(P0[i..], D0[i..]) &&
      (forall k :: 0 <= k < i ==> P0[k].Snapshot() == S0[k]) &&
      (forall k :: i <= k < |P0| ==> P0[k].Snapshot() == ParticleStep(S0[k])) &&
      ParticlesValid()
    }

    /** One iteration of the particle pass: visit index `i`. */
    method ParticlePassStep(ghost P0: seq<Particle>, ghost S0: seq<ParticleState>, ghost D0: seq<bool>, i: nat)
      requires ParticlePass(P0, S0, D0, i + 1)
      modifies this`particles, P0[i]
      ensures ParticlePass(P0, S0, D0, i)
    {
      assert particles[i] == P0[i];
      assert D0[i] == Fades(P0[i].Snapshot());
      ghost var before := particles;
      label Visit:
      VisitParticle(i);
      SpliceKeep(P0, D0, i, before, particles);
      forall k | i < k < |P0|
        ensures P0[k].Snapshot() == ParticleStep(S0[k])
      {
        assert P0[k] != P0[i];
        assert old@Visit(P0[k].Snapshot()) == ParticleStep(S0[k]);
      }
      forall k | 0 <= k < i
        ensures P0[k].Snapshot() == S0[k]
      {
        assert P0[k] != P0[i];
        assert old@Visit(P0[k].Snapshot()) == S0[k];
      }
    }

    /**
      The particle pass of `loop`: walk `particles` from the last index down
      to 0, updating each entry. Every particle present at the start is
      stepped exactly once, the fading ones are spliced out and the others
      keep their order.
    */
    method UpdateParticles()
      requires Valid()
      modifies this`particles, set p | p in particles
      ensures Valid()
      ensures particles == Keep(old(particles), FadeFlags(old(ParticleSnapshots(particles))))
      ensures ParticlesStepped(old(particles), old(ParticleSnapshots(particles)))
    {
      ghost var P0 := particles;
      ghost var S0 := ParticleSnapshots(particles);
      ghost var D0 := FadeFlags(S0);
      var i: nat := |particles|;
      ParticlePassStarts();
      while i > 0
        invariant ParticlePass(P0, S0, D0, i)
      {
        i := i - 1;
        ParticlePassStep(P0, S0, D0, i);
      }
      ParticlePassEnds(P0, S0, D0);
    }

    /** Before any visit, the particle pass has its whole collection still to walk. */
    lemma ParticlePassStarts()
      requires ParticlesValid()
      ensures ParticlePass(particles, ParticleSnapshots(particles), FadeFlags(ParticleSnapshots(particles)), |particles|)
    {
      var n := |particles|;
      assert particles[..n] == particles && particles[n..] == [];
      assert FadeFlags(ParticleSnapshots(particles))[n..] == [];
    }

    /** After the visit of index 0, the particle pass has filtered the whole collection. */
    lemma ParticlePassEnds(P0: seq<Particle>, S0: seq<ParticleState>, D0: seq<bool>)
      requires ParticlePass(P0, S0, D0, 0)
      ensures particles == Keep(P0, D0)
      ensures ParticlesStepped(P0, S0)
    {
      assert P0[..0] == [] && P0[0..] == P0 && D0[0..] == D0;
    }

    /** `fireworks.push(f)` of a well-formed firework not yet in the collection. */
    method PushFirework(f: Firework)
      requires Valid() && f.Valid() && f !in fireworks
      modifies this`fireworks
      ensures Valid()
      ensures fireworks == old(fireworks) + [f]
    {
      fireworks := fireworks + [f];
      assert fireworks[|fireworks| - 1] == f;
    }

    /**
      The automatic launcher of `loop`: `timerTick` follows
      `Counters.Advance` towards 80 with the gate `!mousedown`, and a launch
      pushes a firework from the bottom middle to a random target in the
      top half.
    */
    method AutoLaunch() returns (ghost launched: seq<Firework>)
      requires Valid()
      modifies this`fireworks, this`timerTick
      ensures Valid()
      ensures var t := Counters.Advance(old(timerTick), Counters.TimerTotal, !mousedown);
              timerTick == t.tick && |launched| == (if t.launch then 1 else 0)
      ensures fireworks == old(fireworks) + launched
      ensures forall f :: f in launched ==> fresh(f) && AutoLaunched(f.Snapshot(), cw, ch)
    {
      launched := [];
      if timerTick >= Counters.TimerTotal {
        if !mousedown {
          var u := MathRandom();
          var v := MathRandom();
          var f := new Firework(cw / 2.0, ch, Random(u, 0.0, cw), Random(v, 0.0, ch / 2.0));
          PushFirework(f);
          launched := [f];
          timerTick := 0;
        }
      } else {
        timerTick := timerTick + 1;
      }
    }

    /**
      The pointer launcher of `loop`: `limiterTick` follows
      `Counters.Advance` towards 5 with the gate `mousedown`, and a launch
      pushes a firework from the bottom middle to the pointer (mx, my).
    */
    method PointerLaunch() returns (ghost launched: seq<Firework>)
      requires Valid()
      modifies this`fireworks, this`limiterTick
      ensures Valid()
      ensures var l := Counters.Advance(old(limiterTick), Counters.LimiterTotal, mousedown);
              limiterTick == l.tick && |launched| == (if l.launch then 1 else 0)
      ensures fireworks == old(fireworks) + launched
      ensures forall f :: f in launched ==> fresh(f) && Launched(f.Snapshot(), cw / 2.0, ch, mx, my)
    {
      launched := [];
      if limiterTick >= Counters.LimiterTotal {
        if mousedown {
          var f := new Firework(cw / 2.0, ch, mx, my);
          PushFirework(f);
          launched := [f];
          limiterTick := 0;
        }
      } else {
        limiterTick := limiterTick + 1;
      }
    }

    /**
      The launch part of `loop`: the automatic launcher, then the pointer
      launcher. Their gates are opposite, so a tick pushes at most one
      firework.
    */
    method LaunchFireworks() returns (ghost launched: seq<Firework>)
      requires Valid()
      modifies this`fireworks, this`timerTick, this`limiterTick
      ensures Valid()
      ensures var t := Counters.Advance(old(timerTick), Counters.TimerTotal, !mousedown);
              var l := Counters.Advance(old(limiterTick), Counters.LimiterTotal, mousedown);
              timerTick == t.tick && limiterTick == l.tick &&
              !(t.launch && l.launch) &&
              |launched| == (if t.launch || l.launch then 1 else 0) &&
              (forall f :: f in launched ==> fresh(f)) &&
              (t.launch ==> AutoLaunched(launched[0].Snapshot(), cw, ch)) &&
              (l.launch ==> Launched(launched[0].Snapshot(), cw / 2.0, ch, mx, my))
      ensures fireworks == old(fireworks) + launched
    {
      var auto := AutoLaunch();
      var pointer := PointerLaunch();
      launched := auto + pointer;
    }

    /**
      The first half of a frame of `loop`: the hue moves on by 0.5 and the
      firework pass runs, so the explosions use the new hue.
    */
    method FireworkPhase() returns (ghost spawned: seq<Particle>)
      requires Valid()
      modifies this`hue, this`fireworks, this`particles, set f | f in fireworks
      ensures Valid()
      ensures hue == old(hue) + 0.5
      ensures fireworks == Keep(old(fireworks), ArrivalFlags(old(FireworkSnapshots(fireworks))))
      ensures FireworksStepped(old(fireworks), old(FireworkSnapshots(fireworks)))
      ensures forall p :: p in spawned ==> fresh(p)
      ensures particles == old(particles) + spawned
      ensures ParticleSnapshots(old(particles)) == old(ParticleSnapshots(particles))
      ensures SpawnedAt(ParticleSnapshots(spawned), ExplosionTargets(old(FireworkSnapshots(fireworks))), hue)
    {
      ghost var S0 := FireworkSnapshots(fireworks);
      hue := hue + 0.5;
      assert FireworkSnapshots(fireworks) == S0;
      spawned := UpdateFireworks();
    }

    /**
      One frame of `loop`, drawing aside: the hue moves on by 0.5; the
      firework pass steps every firework once, splices out the arrived ones
      and explodes them with the new hue into `spawned`, whose states are
      `spawnedStates`; the particle pass then steps every particle once,
      the old ones and the ones just spawned, and splices out the faded
      ones; and the launchers may push one new firework after the
      surviving ones.
    */
    method Tick() returns (ghost spawned: seq<Particle>, ghost spawnedStates: seq<ParticleState>,
                           ghost launched: seq<Firework>)
      requires Valid()
      modifies this`hue, this`fireworks, this`particles, this`timerTick, this`limiterTick,
               set f | f in fireworks, set p | p in particles
      ensures Valid()
      ensures hue == old(hue) + 0.5
      ensures FireworksStepped(old(fireworks), old(FireworkSnapshots(fireworks)))
      ensures var t := Counters.Advance(old(timerTick), Counters.TimerTotal, !mousedown);
              var l := Counters.Advance(old(limiterTick), Counters.LimiterTotal, mousedown);
              timerTick == t.tick && limiterTick == l.tick &&
              !(t.launch && l.launch) &&
              |launched| == (if t.launch || l.launch then 1 else 0) &&
              (forall f :: f in launched ==> fresh(f)) &&
              (t.launch ==> AutoLaunched(launched[0].Snapshot(), cw, ch)) &&
              (l.launch ==> Launched(launched[0].Snapshot(), cw / 2.0, ch, mx, my))
      ensures fireworks == Keep(old(fireworks), ArrivalFlags(old(FireworkSnapshots(fireworks)))) + launched
      ensures SpawnedAt(spawnedStates, ExplosionTargets(old(FireworkSnapshots(fireworks))), hue)
      ensures ParticlesStepped(old(particles) + spawned, old(ParticleSnapshots(particles)) + spawnedStates)
      ensures particles == Keep(old(particles) + spawned, FadeFlags(old(ParticleSnapshots(particles)) + spawnedStates))
    {
      ghost var F0 := fireworks;
      ghost var S0 := FireworkSnapshots(fireworks);
      ghost var P0 := particles;
      ghost var before := ParticleSnapshots(particles);
      spawned := FireworkPhase();
      spawnedStates, launched := ParticleAndLaunchPhase(P0, before, spawned, F0, S0);
    }

    /**
      The rest of a frame of `loop` after the firework pass: the particle
      pass over the particles `P0` that were there before the frame, whose
      states were `before`, followed by the ones the explosions just
      appended, `spawned`, whose states are returned as `spawnedStates`;
      then the launchers, which push `launched` after the fireworks left.
      The hue and the fireworks `F0` the firework pass stepped from the
      states `S0` are left as they are.
    */
    method ParticleAndLaunchPhase(ghost P0: seq<Particle>, ghost before: seq<ParticleState>, ghost spawned: seq<Particle>,
                                  ghost F0: seq<Firework>, ghost S0: seq<FireworkState>)
      returns (ghost spawnedStates: seq<ParticleState>, ghost launched: seq<Firework>)
      requires Valid() && particles == P0 + spawned && ParticleSnapshots(P0) == before
      requires FireworksStepped(F0, S0)
      modifies this`particles, this`fireworks, this`timerTick, this`limiterTick, set p | p in particles
      ensures Valid() && hue == old(hue) && FireworksStepped(F0, S0)
      ensures spawnedStates == old(ParticleSnapshots(spawned))
      ensures ParticlesStepped(P0 + spawned, before + spawnedStates)
      ensures particles == Keep(P0 + spawned, FadeFlags(before + spawnedStates))
      ensures var t := Counters.Advance(old(timerTick), Counters.TimerTotal, !mousedown);
              var l := Counters.Advance(old(limiterTick), Counters.LimiterTotal, mousedown);
              timerTick == t.tick && limiterTick == l.tick &&
              !(t.launch && l.launch) &&
              |launched| == (if t.launch || l.launch then 1 else 0) &&
              (forall f :: f in launched ==> fresh(f)) &&
              (t.launch ==> AutoLaunched(launched[0].Snapshot(), cw, ch)) &&
              (l.launch ==> Launched(launched[0].Snapshot(), cw / 2.0, ch, mx, my))
      ensures fireworks == old(fireworks) + launched
    {
      spawnedStates := ParticlePhase(P0, before, spawned, F0, S0);
      launched := LaunchPhase(F0, S0, P0 + spawned, before + spawnedStates);
    }

    /**
      The particle pass of a frame: over the particles `P0` that were there
      before the frame, whose states were `before`, followed by the ones
      the explosions just appended, `spawned`, whose states are returned as
      `spawnedStates`. The hue and the fireworks `F0` the firework pass
      stepped from the states `S0` are left as they are.
    */
    method ParticlePhase(ghost P0: seq<Particle>, ghost before: seq<ParticleState>, ghost spawned: seq<Particle>,
                         ghost F0: seq<Firework>, ghost S0: seq<FireworkState>)
      returns (ghost spawnedStates: seq<ParticleState>)
      requires Valid() && particles == P0 + spawned && ParticleSnapshots(P0) == before
      requires FireworksStepped(F0, S0)
      modifies this`particles, set p | p in particles
      ensures Valid() && hue == old(hue) && FireworksStepped(F0, S0)
      ensures spawnedStates == old(ParticleSnapshots(spawned))
      ensures ParticlesStepped(P0 + spawned, before + spawnedStates)
      ensures particles == Keep(P0 + spawned, FadeFlags(before + spawnedStates))
    {
      spawnedStates := ParticleSnapshots(spawned);
      ParticleSnapshotsConcat(P0, spawned);
      assert ParticleSnapshots(particles) == before + spawnedStates;
      UpdateParticles();
      assert FireworksStepped(F0, S0);
    }

    /**
      The launchers, with the facts the two passes established about the
      fireworks `F0` and the particles `visited` carried through, as
      launching changes neither.
    */
    method LaunchPhase(ghost F0: seq<Firework>, ghost S0: seq<FireworkState>,
                       ghost visited: seq<Particle>, ghost visitedStates: seq<ParticleState>)
      returns (ghost launched: seq<Firework>)
      requires Valid() && FireworksStepped(F0, S0) && ParticlesStepped(visited, visitedStates)
      modifies this`fireworks, this`timerTick, this`limiterTick
      ensures Valid() && FireworksStepped(F0, S0) && ParticlesStepped(visited, visitedStates)
      ensures particles == old(particles)
      ensures var t := Counters.Advance(old(timerTick), Counters.TimerTotal, !mousedown);
              var l := Counters.Advance(old(limiterTick), Counters.LimiterTotal, mousedown);
              timerTick == t.tick && limiterTick == l.tick &&
              !(t.launch && l.launch) &&
              |launched| == (if t.launch || l.launch then 1 else 0) &&
              (forall f :: f in launched ==> fresh(f)) &&
              (t.launch ==> AutoLaunched(launched[0].Snapshot(), cw, ch)) &&
              (l.launch ==> Launched(launched[0].Snapshot(), cw / 2.0, ch, mx, my))
      ensures fireworks == old(fireworks) + launched
    {
      launched := LaunchFireworks();
    }
  }
}
