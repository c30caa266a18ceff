/**
 * The boundary time axis: instants from a start to an end (inclusive) in steps of
 * `dt` seconds, and their encoding as seconds since 1990-01-01 00:00:00, the time
 * coordinate of the boundary file.  Instants are whole seconds since
 * 1970-01-01 00:00:00; parsing the 'yyyymmdd.HHMMSS' strings is not modelled.
 */
module TimeAxis {

  /** 1990-01-01 00:00:00 in seconds since 1970-01-01 00:00:00 (7305 days). */
  const Epoch1990: int := 631152000

  /** The first `n` instants of the regular axis that starts at `start` with step `dt`. */
  function Axis(start: int, dt: int, n: nat): (time: seq<int>)
    ensures |time| == n
    ensures forall i | 0 <= i < n :: time[i] == start + i * dt
  {
    seq(n, i => start + i * dt)
  }

  /**
   * Number of instants `start + k*dt` that do not exceed `end`.  A step that is
   * not positive is allowed only when the axis is empty (`start` after `end`).
   */
  function AxisLength(start: int, end: int, dt: int): nat
    requires dt > 0 || start > end
  {
    if end >= start then (end - start) / dt + 1 else 0
  }

  /** Multiplying by a non-negative factor preserves order. */
  lemma MulMonotone(x: int, y: int, d: int)
    requires x <= y && d >= 0
    ensures x * d <= y * d
  {
    assert y * d - x * d == (y - x) * d;
  }

  /** An axis of `n > 0` instants whose last one is within `end` and whose next one is past it has the length AxisLength gives. */
  lemma AxisLengthExact(start: int, end: int, dt: int, n: nat)
    requires dt > 0 && n > 0
    requires start + (n - 1) * dt <= end < start + n * dt
    ensures AxisLength(start, end, dt) == n
  {
    var a := end - start;
    MulMonotone(0, n - 1, dt);
    var q := a / dt;
    assert q * dt <= a < q * dt + dt;
    if q < n - 1 {
      MulMonotone(q + 1, n - 1, dt);
      assert false;
    }
    if q > n - 1 {
      MulMonotone(n, q, dt);
      assert false;
    }
  }

  /**
   * `getTime`: step from `start` by `dt` while not past `end`.  The axis starts at
   * `start`, is regular, stays within `end`, and the next step would pass `end`.
   */
  method BuildTimeAxis(start: int, end: int, dt: int) returns (time: seq<int>)
    requires dt > 0 || start > end
    ensures time == Axis(start, dt, AxisLength(start, end, dt))
    ensures |time| > 0 ==> time[0] == start
    ensures forall i | 0 <= i < |time| :: time[i] <= end
    ensures |time| > 0 ==> time[|time| - 1] + dt > end
  {
    time := [];
    var t0 := start;
    while t0 <= end
      invariant t0 == start + |time| * dt
      invariant forall i | 0 <= i < |time| :: time[i] == start + i * dt
      invariant forall i | 0 <= i < |time| :: time[i] <= end
      invariant |time| > 0 ==> time[|time| - 1] == t0 - dt
      invariant dt > 0 || t0 > end
      decreases end - t0
    {
      ghost var n := |time|;
      time := time + [t0];
      assert (n + 1) * dt == n * dt + dt;
      t0 := t0 + dt;
    }
    var n := |time|;
    if n > 0 {
      assert (n - 1) * dt == n * dt - dt;
      AxisLengthExact(start, end, dt, n);
    }
    assert time == Axis(start, dt, n);
  }

  /** Seconds since 1990-01-01 of every instant. */
  function SecondsSince1990(time: seq<int>): (tsec: seq<int>)
    ensures |tsec| == |time|
  {
    seq(|time|, i requires 0 <= i < |time| => time[i] - Epoch1990)
  }

  /** `ncTime`: the on-disk time coordinate, built one instant at a time. */
  method NcTime(time: seq<int>) returns (tsec: seq<int>)
    ensures |tsec| == |time|
    ensures forall i | 0 <= i < |time| :: tsec[i] == time[i] - Epoch1990
    ensures tsec == SecondsSince1990(time)
  {
    tsec := [];
    for i := 0 to |time|
      invariant |tsec| == i
      invariant forall j | 0 <= j < i :: tsec[j] == time[j] - Epoch1990
    {
      tsec := tsec + [time[i] - Epoch1990];
    }
  }

  /** Consecutive instants of the axis are exactly `dt` apart and never pass `end`. */
  lemma {:induction false} AxisSpacing(start: int, end: int, dt: int)
    requires dt > 0
    ensures var time := Axis(start, dt, AxisLength(start, end, dt));
      && (forall i | 0 <= i < |time| - 1 :: time[i + 1] - time[i] == dt)
      && (forall i | 0 <= i < |time| :: time[i] <= end)
      && (|time| > 0 ==> time[0] == start && time[|time| - 1] + dt > end)
  {
    var n := AxisLength(start, end, dt);
    var time := Axis(start, dt, n);
    forall i | 0 <= i < n - 1 ensures time[i + 1] - time[i] == dt {
      assert time[i + 1] == start + i * dt + dt;
    }
    if n > 0 {
      var q := (end - start) / dt;
      assert n == q + 1;
      assert q * dt <= end - start < q * dt + dt;
      forall i | 0 <= i < n ensures time[i] <= end {
        MulMonotone(i, q, dt);
      }
      assert time[n - 1] + dt == start + q * dt + dt;
    }
  }

  /** The time coordinate of an axis with a positive step is strictly increasing. */
  lemma {:induction false} EncodedAxisIncreasing(start: int, dt: int, n: nat)
    requires dt > 0
    ensures var tsec := SecondsSince1990(Axis(start, dt, n));
      forall i, j | 0 <= i < j < n :: tsec[i] < tsec[j]
  {
    var tsec := SecondsSince1990(Axis(start, dt, n));
    forall i, j | 0 <= i < j < n ensures tsec[i] < tsec[j] {
      assert i * dt < j * dt;
    }
  }
}
