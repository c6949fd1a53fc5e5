/**
 * Timestamps (Dml/DmlTimestamp.cs): when the code of a timeline entry runs.
 * Every kind has a `Start`, by which the timeline orders its entries, an
 * `End`, after which the timeline drops the entry, and an `Active` test.
 *
 * Times are whole milliseconds here; the C# times are `double` values and
 * can be fractional. `deltaTime`, the frame length the C# code
 * reads from a global, is a parameter of `Active`.
 */
module DmlTimestamps {
  import opened Arithmetic

  /** A `double` end time: a number of milliseconds, or positive infinity. */
  datatype Time = Ms(ms: int) | Infinite {
    /** `t < this`. */
    predicate Exceeds(t: int) {
      Infinite? || t < ms
    }

    /** `this < t`. */
    predicate Precedes(t: int) {
      Ms? && ms < t
    }
  }

  /**
   * The timestamp classes. The interval kinds built from an interval alone
   * start at 0 and never end (`EveryInterval`, `DuringEveryInterval`).
   */
  datatype Timestamp =
    | At(time: int)
    | Before(time: int)
    | After(time: int)
    | From(start: int, end: Time)
    | Outside(start: int, end: Time)
    | AtIntervals(interval: int, start: int, end: Time)
    | DuringIntervals(interval: int, start: int, end: Time)
  {
    /** The `Start` property each constructor sets. */
    function Start(): int {
      match this
      case At(time) => time
      case Before(_) => 0
      case After(time) => time
      case From(start, _) => start
      case Outside(start, _) => start
      case AtIntervals(_, start, _) => start
      case DuringIntervals(_, start, _) => start
    }

    /** The `End` property each constructor sets. */
    function End(): Time {
      match this
      case At(time) => Ms(time + 50)
      case Before(time) => Ms(time)
      case After(_) => Infinite
      case From(_, end) => end
      case Outside(_, end) => end
      case AtIntervals(_, _, end) => end
      case DuringIntervals(_, _, end) => end
    }

    /**
     * `Active(time)`. `%` on doubles keeps the sign of the dividend, which is
     * never negative where it is taken, so it agrees with `%` here; a zero
     * divisor gives NaN, and every comparison with NaN is false.
     */
    predicate Active(t: int, deltaTime: int) {
      match this
      case At(time) => time <= t < time + deltaTime
      case Before(time) => t < time
      case After(time) => time <= t
      case From(start, end) => start <= t && end.Exceeds(t)
      case Outside(start, end) => start >= t || end.Precedes(t)
      case AtIntervals(interval, start, end) =>
        t - start >= 0 && end.Exceeds(t) && interval != 0 && (t - start) % interval <= deltaTime
      case DuringIntervals(interval, start, end) =>
        t - start >= 0 && end.Exceeds(t) && 2 * interval != 0 && (t - start) % (2 * interval) < interval
    }

    /** The length of one cycle of a periodic timestamp. */
    function Period(): int
      requires AtIntervals? || DuringIntervals?
    {
      if AtIntervals? then interval else 2 * interval
    }
  }

  /** `new TimestampAtIntervals(interval)`. */
  function EveryInterval(interval: int): (ts: Timestamp)
    ensures ts.Start() == 0 && ts.End() == Infinite
    ensures forall t :: t >= 0 && interval != 0 ==> (ts.Active(t, 0) <==> t % interval == 0)
  {
    AtIntervals(interval, 0, Infinite)
  }

  /** `new TimestampDuringIntervals(interval)`. */
  function DuringEveryInterval(interval: int): (ts: Timestamp)
    ensures ts.Start() == 0 && ts.End() == Infinite
    ensures forall t :: t < 0 ==> !ts.Active(t, 0)
  {
    DuringIntervals(interval, 0, Infinite)
  }

  lemma {:induction false} ShiftByMultiple(x: int, k: nat, p: int)
    requires p > 0 && x >= 0
    ensures (x + k * p) % p == x % p
    decreases k
  {
    if k > 0 {
      ShiftByMultiple(x, k - 1, p);
      var y := x + (k - 1) * p;
      assert x + k * p == y + p by {
        assert k * p == (k - 1) * p + p;
      }
      AddPeriod(y, p);
    }
  }

  lemma AddPeriod(y: int, p: int)
    requires p > 0
    ensures (y + p) % p == y % p
  {
    DivisionUnique(y + p, p, y / p + 1, y % p);
    DivisionUnique(y, p, y / p, y % p);
  }

  /**
   * A periodic timestamp repeats: from its start on, and as long as it has
   * not ended, it is active at `t` exactly when it is active a whole number of
   * periods later. In particular it is active on every beat
   * `start + k * period`.
   */
  lemma PeriodicRepeats(ts: Timestamp, t: int, k: nat, deltaTime: int)
    requires ts.AtIntervals? || ts.DuringIntervals?
    requires ts.interval > 0 && ts.start <= t
    requires ts.end.Exceeds(t + k * ts.Period())
    ensures ts.Active(t, deltaTime) <==> ts.Active(t + k * ts.Period(), deltaTime)
  {
    var p := ts.Period();
    assert k * p >= 0;
    ShiftByMultiple(t - ts.start, k, p);
    assert t + k * p - ts.start == (t - ts.start) + k * p;
  }

  lemma PeriodicActiveOnTheBeat(ts: Timestamp, k: nat, deltaTime: int)
    requires ts.AtIntervals? || ts.DuringIntervals?
    requires ts.interval > 0 && deltaTime >= 0
    requires ts.end.Exceeds(ts.start + k * ts.Period())
    ensures ts.Active(ts.start + k * ts.Period(), deltaTime)
  {
    var p := ts.Period();
    assert k * p >= 0;
    ShiftByMultiple(0, k, p);
    assert ts.start + k * p - ts.start == 0 + k * p;
  }

  /**
   * The timestamps whose activity stays inside [Start, End] at times from 0
   * on: all but `Outside`, and an `At` whose frame outlasts its 50 ms.
   */
  predicate StaysInWindow(ts: Timestamp, deltaTime: int) {
    match ts
    case At(_) => deltaTime <= 51
    case Outside(_, _) => false
    case _ => true
  }

  /**
   * A timestamp that stays in its window is active only between its start and
   * its end, so the timeline, which holds entries back until their start and
   * drops them once their end has passed, never skips one of its active
   * moments.
   */
  lemma ActiveInsideWindow(ts: Timestamp, t: int, deltaTime: int)
    requires t >= 0 && StaysInWindow(ts, deltaTime) && ts.Active(t, deltaTime)
    ensures ts.Start() <= t && !ts.End().Precedes(t)
  {
  }

  /**
   * `Outside` is the exception: it is active up to its start and past its end,
   * and inactive strictly between them.
   */
  lemma OutsideActiveBeyondItsWindow(start: int, end: int, t: int, deltaTime: int)
    ensures Outside(start, Ms(end)).Active(t, deltaTime) <==> t <= start || end < t
    ensures Outside(start, Ms(end)).Active(start, deltaTime)
    ensures start + 1 < end ==> !Outside(start, Ms(end)).Active(start + 1, deltaTime)
  {
  }
}
