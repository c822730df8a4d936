/** The loading screen's displayed percentage. Every 50 ms an interval moves
    the displayed value towards the real loading progress, by a fifth of the
    gap but by at least one point, never past 100; the screen finishes once
    the displayed value is exactly 100. Values are exact reals. */
module Loader {

  const Full: real := 100.0

  function Min(a: real, b: real): (m: real) { if a <= b then a else b }

  function Max(a: real, b: real): (m: real) { if a >= b then a else b }

  /** The smallest integer not below `x`. */
  function Ceil(x: real): (c: int)
    ensures (c - 1) as real < x <= c as real
  {
    -((-x).Floor)
  }

  /** One interval tick: the updater applied to the displayed value `prev`
      with the real progress `progress` of that moment. */
  function Tick(prev: real, progress: real): (r: real)
    ensures r <= Full
    ensures prev >= Full ==> r == Full
    ensures prev < Full ==> r >= Min(Full, prev + 1.0)
    ensures prev < Full && progress - prev <= 5.0 ==> r == Min(Full, prev + 1.0)
    ensures prev < Full && progress - prev >= 5.0 && progress <= Full ==>
              r == prev + (progress - prev) / 5.0 && r <= progress
  {
    if prev >= Full then
      Full
    else
      var diff := progress - prev;
      var step := Max(1.0, diff / 5.0);
      Min(Full, prev + step)
  }

  /** The displayed value after `k` ticks from `start`, where `progress(j)`
      is the real progress seen by tick `j`. */
  function Iterate(start: real, progress: nat -> real, k: nat): (r: real)
    ensures k > 0 ==> r <= Full
    ensures k == 0 ==> r == start
    decreases k
  {
    if k == 0 then start else Tick(Iterate(start, progress, k - 1), progress(k - 1))
  }

  /** From a start of at most 100 the display never falls, never exceeds 100
      and gains a point per tick until it is full. */
  lemma {:induction false} IterateBounds(start: real, progress: nat -> real, k: nat)
    requires start <= Full
    ensures start <= Iterate(start, progress, k) <= Full
    ensures Iterate(start, progress, k) >= Min(Full, start + k as real)
    decreases k
  {
    if k > 0 {
      IterateBounds(start, progress, k - 1);
    }
  }

  /** Whatever the real progress does, the display is exactly 100 after
      `Ceil(100 - start)` ticks. */
  lemma ReachesFull(start: real, progress: nat -> real)
    requires start <= Full
    ensures Ceil(Full - start) >= 0
    ensures Iterate(start, progress, Ceil(Full - start)) == Full
  {
    IterateBounds(start, progress, Ceil(Full - start));
  }

  /** Once full, the display stays full: 100 is a fixed point of the tick. */
  lemma {:induction false} StaysFull(start: real, progress: nat -> real, j: nat, k: nat)
    requires j <= k && Iterate(start, progress, j) == Full
    ensures Iterate(start, progress, k) == Full
    decreases k
  {
    if k > j {
      StaysFull(start, progress, j, k - 1);
    }
  }

  /** The number shown on screen, `Math.floor(displayProgress)`. */
  function Percent(display: real): (r: int)
    ensures r as real <= display < r as real + 1.0
    ensures 0.0 <= display <= Full ==> 0 <= r <= 100
    ensures display == Full ==> r == 100
  {
    display.Floor
  }

  /** Runs the interval from `start` until the display is exactly 100, the
      point at which the finish effect fires. Returns the final display and
      the number of ticks taken. The interval itself ticks once more: that
      tick sees a display of 100, keeps it (`StaysFull`) and clears the
      interval. */
  method RunUntilFinished(start: real, progress: nat -> real) returns (display: real, ticks: nat)
    ensures display == Full && display == Iterate(start, progress, ticks)
    ensures forall j :: 0 <= j < ticks ==> Iterate(start, progress, j) != Full
    ensures start <= Full ==> ticks <= Ceil(Full - start)
    ensures start > Full ==> ticks == 1
  {
    display, ticks := start, 0;
    while display != Full
      invariant display == Iterate(start, progress, ticks)
      invariant forall j :: 0 <= j < ticks ==> Iterate(start, progress, j) != Full
      invariant start <= Full ==> display <= Full
      invariant start <= Full && display != Full ==> display >= start + ticks as real
      invariant start <= Full && ticks > 0 ==> (ticks - 1) as real < Full - start
      invariant start > Full ==> ticks <= 1 && (ticks == 1 <==> display == Full)
      invariant ticks > 0 ==> display <= Full
      decreases if display == Full then 0 else if display < Full then (Full - display).Floor + 2 else 1
    {
      display := Tick(display, progress(ticks));
      ticks := ticks + 1;
    }
  }
}
