/**
  The fixed-length position trails (`coordinates`) that fireworks and
  particles keep for drawing their streaks. Each update drops the oldest
  entry (`pop`) and puts the position held before the update in front
  (`unshift`), so a trail is a sliding window over past positions, newest
  first. `draw` strokes from the oldest (last) entry to the current position.
*/
module Trail {

  datatype Point = Point(x: real, y: real)

  /** The trail as a constructor fills it: `count` copies of the spawn point. */
  function Repeat(p: Point, count: nat): (r: seq<Point>)
    ensures |r| == count
    ensures forall k :: 0 <= k < count ==> r[k] == p
  {
    if count == 0 then [] else Repeat(p, count - 1) + [p]
  }

  /** One update of a trail: drop the last entry, put `p` in front. */
  function Shift(trail: seq<Point>, p: Point): (r: seq<Point>)
    requires |trail| > 0
    ensures |r| == |trail|
    ensures r[0] == p
    ensures forall k :: 1 <= k < |r| ==> r[k] == trail[k - 1]
  {
    [p] + trail[..|trail| - 1]
  }

  /** The trail after one update per position of `ps`, the first position first. */
  function ShiftAll(trail: seq<Point>, ps: seq<Point>): (r: seq<Point>)
    requires |trail| > 0
    ensures |r| == |trail|
    decreases |ps|
  {
    if ps == [] then trail else ShiftAll(Shift(trail, ps[0]), ps[1..])
  }

  function Reverse<T>(s: seq<T>): (r: seq<T>)
    ensures |r| == |s|
  {
    if s == [] then [] else Reverse(s[1..]) + [s[0]]
  }

  lemma {:induction false} ReverseAt<T>(s: seq<T>, k: nat)
    requires k < |s|
    ensures Reverse(s)[k] == s[|s| - 1 - k]
  {
    if k < |s| - 1 {
      ReverseAt(s[1..], k);
    }
  }

  /**
    The sliding-window property: after the updates recorded in `ps`, the
    trail holds the most recent positions newest first, followed by the
    entries that were already there, and keeps its length.
  */
  lemma {:induction false} ShiftAllWindow(trail: seq<Point>, ps: seq<Point>)
    requires |trail| > 0
    ensures ShiftAll(trail, ps) == (Reverse(ps) + trail)[..|trail|]
    decreases |ps|
  {
    if ps != [] {
      var n := |trail|;
      var rest := ps[1..];
      var shifted := Shift(trail, ps[0]);
      ShiftAllWindow(shifted, rest);
      assert Reverse(ps) == Reverse(rest) + [ps[0]];
      var lhs := (Reverse(rest) + shifted)[..n];
      var rhs := (Reverse(ps) + trail)[..n];
      forall k | 0 <= k < n
        ensures lhs[k] == rhs[k]
      {
        if k < |rest| {
        } else if k == |rest| {
        } else {
          assert lhs[k] == shifted[k - |rest|] == trail[k - |rest| - 1];
        }
      }
      assert lhs == rhs;
    }
  }

  /**
    What `draw` reads: after the updates in `ps`, the oldest entry of a
    trail of length n is the position held n updates ago, or, while fewer
    than n updates have happened, an entry of the initial trail.
  */
  lemma {:induction false} OldestEntry(trail: seq<Point>, ps: seq<Point>)
    requires |trail| > 0
    ensures ShiftAll(trail, ps)[|trail| - 1] ==
      if |ps| >= |trail| then ps[|ps| - |trail|] else trail[|trail| - 1 - |ps|]
  {
    var n := |trail|;
    ShiftAllWindow(trail, ps);
    var window := Reverse(ps) + trail;
    assert ShiftAll(trail, ps)[n - 1] == window[n - 1];
    if |ps| >= n {
      ReverseAt(ps, n - 1);
    } else {
      assert window[n - 1] == trail[n - 1 - |ps|];
    }
  }

  /** A trail that starts as copies of the spawn point keeps showing it until it has been shifted out. */
  lemma SpawnPointLingers(p: Point, count: nat, ps: seq<Point>)
    requires 0 < count && |ps| < count
    ensures ShiftAll(Repeat(p, count), ps)[count - 1] == p
  {
    OldestEntry(Repeat(p, count), ps);
  }
}
