/**
  The fade-out of an explosion particle. A particle starts with `alpha` = 1;
  every update subtracts its `decay` (drawn from [0.015, 0.03)), and the
  update whose new `alpha` is at most `decay` removes the particle. Opacity
  is modelled with exact reals.
*/
module Fade {

  /** The particle's `alpha` after `n` updates. */
  function AlphaAfter(decay: real, n: nat): real
  {
    if n == 0 then 1.0 else AlphaAfter(decay, n - 1) - decay
  }

  /** The removal test of update `n`: the decremented `alpha` is at most `decay`. */
  predicate RemovedOnUpdate(decay: real, n: nat)
  {
    AlphaAfter(decay, n) <= decay
  }

  /**
    The number of updates a particle lives through: the least n >= 1 with
    1 - n*decay <= decay, that is the ceiling of (1 - decay) / decay, and at least 1.
  */
  function Lifetime(decay: real): nat
    requires decay > 0.0
  {
    var ceiling := -(((decay - 1.0) / decay).Floor);
    if ceiling < 1 then 1 else ceiling
  }

  lemma {:induction false} AlphaClosedForm(decay: real, n: nat)
    ensures AlphaAfter(decay, n) == 1.0 - (n as real) * decay
  {
    if n > 0 {
      AlphaClosedForm(decay, n - 1);
      assert (n as real) * decay == ((n - 1) as real) * decay + decay;
    }
  }

  lemma ScaleKeepsOrder(a: real, b: real, d: real)
    requires d > 0.0
    ensures a * d >= b * d <==> a >= b
  {
    assert a * d - b * d == (a - b) * d;
    if a < b {
      assert (b - a) * d > 0.0;
    }
  }

  /** An update removes the particle exactly when it is update Lifetime(decay) or a later one. */
  lemma RemovedFromLifetimeOn(decay: real, n: nat)
    requires decay > 0.0 && n >= 1
    ensures RemovedOnUpdate(decay, n) <==> n >= Lifetime(decay)
  {
    AlphaClosedForm(decay, n);
    var q := (1.0 - decay) / decay;
    assert q * decay == 1.0 - decay;
    ScaleKeepsOrder(n as real, q, decay);
    assert (decay - 1.0) / decay == -q;
  }

  /**
    Starting from `alpha` = 1, the particle is removed on update
    Lifetime(decay) and on no earlier update: that update is the first
    whose decremented alpha is at most `decay`.
  */
  lemma FirstRemoval(decay: real, n: nat)
    requires decay > 0.0 && n >= 1
    ensures (RemovedOnUpdate(decay, n) && forall j :: 1 <= j < n ==> !RemovedOnUpdate(decay, j))
            <==> n == Lifetime(decay)
  {
    var life := Lifetime(decay);
    RemovedFromLifetimeOn(decay, n);
    if n == life {
      forall j | 1 <= j < n
        ensures !RemovedOnUpdate(decay, j)
      {
        RemovedFromLifetimeOn(decay, j);
      }
    } else if RemovedOnUpdate(decay, n) {
      RemovedFromLifetimeOn(decay, life);
      assert 1 <= life < n && RemovedOnUpdate(decay, life);
    }
  }

  /** With `decay` drawn from [0.015, 0.03), a particle lives through 33 to 66 updates. */
  lemma LifetimeRange(decay: real)
    requires 0.015 <= decay < 0.03
    ensures 33 <= Lifetime(decay) <= 66
  {
    RemovedFromLifetimeOn(decay, 66);
    AlphaClosedForm(decay, 66);
    RemovedFromLifetimeOn(decay, 32);
    AlphaClosedForm(decay, 32);
  }
}
