/**
  The two launch counters of the frame loop. `timerTick` counts towards
  `timerTotal` = 80 and launches a firework to a random target when the
  mouse is up; `limiterTick` counts towards `limiterTotal` = 5 and launches
  a firework at the pointer when the mouse is down. Both follow the same
  rule, with opposite gates: a counter below its total is incremented; a
  counter at (or above) its total launches and resets to 0 if its gate is
  open, and otherwise holds.
*/
module Counters {

  const TimerTotal: int := 80
  const LimiterTotal: int := 5

  datatype Step = Step(tick: int, launch: bool)

  /** One tick of a launch counter whose gate is `gate`. */
  function Advance(tick: int, total: int, gate: bool): (r: Step)
    ensures r.launch <==> tick >= total && gate
    ensures r.launch ==> r.tick == 0
    ensures tick < total ==> r.tick == tick + 1
    ensures tick >= total && !gate ==> r.tick == tick
    ensures 0 <= tick <= total ==> 0 <= r.tick <= total
  {
    if tick >= total then
      if gate then Step(0, true) else Step(tick, false)
    else
      Step(tick + 1, false)
  }

  /** The counter after each of a run of ticks, given the gate on each tick. */
  function Run(tick: int, total: int, gates: seq<bool>): (r: seq<Step>)
    ensures |r| == |gates|
    decreases |gates|
  {
    if gates == [] then []
    else
      var s := Advance(tick, total, gates[0]);
      [s] + Run(s.tick, total, gates[1..])
  }

  predicate Constant(gates: seq<bool>, g: bool)
  {
    forall k :: 0 <= k < |gates| ==> gates[k] == g
  }

  /**
    With its gate open on every tick, either counter launches on every
    (total + 1)-th tick and otherwise counts up.
  */
  lemma {:induction false} OpenSchedule(t: int, total: int, gates: seq<bool>, j: nat)
    requires total == TimerTotal || total == LimiterTotal
    requires 0 <= t <= total && Constant(gates, true) && j < |gates|
    ensures Run(t, total, gates)[j] == Step((t + j + 1) % (total + 1), (t + j + 1) % (total + 1) == 0)
    decreases j
  {
    if j > 0 {
      var next := Advance(t, total, true).tick;
      OpenSchedule(next, total, gates[1..], j - 1);
      if t == total {
        // one whole period has passed: `next + j` and `t + j + 1` differ by total + 1
        if total == TimerTotal {
          assert (j + 81) % 81 == j % 81;
        } else {
          assert (j + 6) % 6 == j % 6;
        }
      }
    }
  }

  /** With its gate closed on every tick, a counter climbs to its total, stays there and never launches. */
  lemma {:induction false} ClosedSaturates(t: int, total: int, gates: seq<bool>, j: nat)
    requires 0 <= t <= total && Constant(gates, false) && j < |gates|
    ensures Run(t, total, gates)[j] == Step(if t + j + 1 <= total then t + j + 1 else total, false)
    decreases j
  {
    if j > 0 {
      ClosedSaturates(Advance(t, total, false).tick, total, gates[1..], j - 1);
    }
  }

  /**
    After at least `total - t` ticks with its gate closed, the first tick with
    the gate open launches at once.
  */
  lemma {:induction false} LaunchOnReopen(t: int, total: int, closed: nat)
    requires 0 <= t <= total && t + closed >= total
    ensures Run(t, total, seq(closed, _ => false) + [true])[closed] == Step(0, true)
    decreases closed
  {
    var gates := seq(closed, _ => false) + [true];
    if closed > 0 {
      var next := Advance(t, total, false).tick;
      assert gates[1..] == seq(closed - 1, _ => false) + [true];
      LaunchOnReopen(next, total, closed - 1);
    }
  }

  /**
    Auto-launch: with the mouse never down (the timer's gate `!mousedown`
    open throughout) and `timerTick` starting at 0, a firework is launched
    on tick 81, 162, ... and on no other tick; `timerTick` never leaves [0, 80].
  */
  lemma AutoLaunchSchedule(n: nat, j: nat)
    requires j < n
    ensures Run(0, TimerTotal, seq(n, _ => true))[j].launch <==> (j + 1) % 81 == 0
    ensures 0 <= Run(0, TimerTotal, seq(n, _ => true))[j].tick <= TimerTotal
  {
    OpenSchedule(0, TimerTotal, seq(n, _ => true), j);
  }

  /**
    Auto-launch held back: while the mouse is down the timer sits at 80
    and launches nothing.
  */
  lemma AutoLaunchHeld(n: nat, j: nat)
    requires j < n
    ensures Run(TimerTotal, TimerTotal, seq(n, _ => false))[j] == Step(TimerTotal, false)
  {
    ClosedSaturates(TimerTotal, TimerTotal, seq(n, _ => false), j);
  }

  /**
    Pointer launches: with the mouse held from the start (the limiter's
    gate `mousedown` open throughout), a firework goes to the pointer on
    tick 6, 12, ... and on no other tick.
  */
  lemma PointerLaunchSchedule(n: nat, j: nat)
    requires j < n
    ensures Run(0, LimiterTotal, seq(n, _ => true))[j].launch <==> (j + 1) % 6 == 0
    ensures 0 <= Run(0, LimiterTotal, seq(n, _ => true))[j].tick <= LimiterTotal
  {
    OpenSchedule(0, LimiterTotal, seq(n, _ => true), j);
  }

  /**
    Pointer launches after a pause: once the mouse has been up for five
    ticks or more, the limiter has saturated at 5 and the first tick with
    the mouse down launches immediately.
  */
  lemma PointerLaunchAfterRelease(t: int, up: nat)
    requires 0 <= t <= LimiterTotal && t + up >= LimiterTotal
    ensures Run(t, LimiterTotal, seq(up, _ => false) + [true])[up].launch
  {
    LaunchOnReopen(t, LimiterTotal, up);
  }
}
