/**
 * The timeline (Dml/DmlTimeline.cs): the timestamps that are still to come,
 * which `Begin` sorts by start time, and the ones currently in play. Each
 * update admits every waiting timestamp whose start has come, runs the code
 * of the ones in play that are active now, drops those whose end has passed,
 * and moves the local time on by one frame.
 *
 * What running a timestamp's code does to the system is not modelled here:
 * `Update` reports which timestamps ran, in order.
 */
module DmlTimelines {
  import opened Exceptions
  import opened DmlTimestamps

  /**
   * `Timestamps` (waiting), `currentlyActive` (in play), `Begun` and
   * `LocalTime`.
   */
  datatype Timeline = Timeline(waiting: seq<Timestamp>, inPlay: seq<Timestamp>, begun: bool, localTime: int)

  /** `new DmlTimeline()`. */
  function NewTimeline(): (tl: Timeline)
    ensures |tl.waiting| == 0 && |tl.inPlay| == 0 && !tl.begun && tl.localTime == 0
  {
    Timeline([], [], false, 0)
  }

  // ---------------------------------------------------------------------------
  // Sorting by start time
  // ---------------------------------------------------------------------------

  predicate SortedByStart(s: seq<Timestamp>) {
    forall i, j :: 0 <= i < j < |s| ==> s[i].Start() <= s[j].Start()
  }

  /** Every timestamp of `s` starts at `b` or later. */
  predicate StartsFrom(s: seq<Timestamp>, b: int) {
    forall y :: y in s ==> b <= y.Start()
  }

  /** `x` placed after every element of `s`'s sorted prefix whose start is not later. */
  function InsertByStart(x: Timestamp, s: seq<Timestamp>): (r: seq<Timestamp>)
    ensures multiset(r) == multiset(s) + multiset{x}
  {
    if |s| == 0 then [x]
    else if x.Start() < s[0].Start() then [x] + s
    else
      assert s == [s[0]] + s[1..];
      [s[0]] + InsertByStart(x, s[1..])
  }

  /** Inserting into a sorted list keeps it sorted. */
  lemma {:induction false} InsertKeepsSorted(x: Timestamp, s: seq<Timestamp>)
    requires SortedByStart(s)
    ensures SortedByStart(InsertByStart(x, s))
  {
    if |s| == 0 {
    } else if x.Start() < s[0].Start() {
      assert StartsFrom(s, s[0].Start());
    } else {
      var rest := InsertByStart(x, s[1..]);
      InsertKeepsSorted(x, s[1..]);
      assert StartsFrom(rest, s[0].Start()) by {
        assert StartsFrom(s[1..], s[0].Start());
        forall y | y in rest
          ensures s[0].Start() <= y.Start()
        {
          assert y in multiset(rest);
          assert y == x || y in multiset(s[1..]);
        }
      }
    }
  }

  /**
   * The comparison sort of `Begin`. `List.Sort` is not stable; the model sorts
   * stably, and claims only what any sort by start time gives: the order and
   * the same timestamps.
   */
  function SortByStart(s: seq<Timestamp>): (r: seq<Timestamp>)
    ensures SortedByStart(r)
    ensures multiset(r) == multiset(s)
  {
    if |s| == 0 then []
    else
      assert s == [s[0]] + s[1..];
      InsertKeepsSorted(s[0], SortByStart(s[1..]));
      InsertByStart(s[0], SortByStart(s[1..]))
  }

  // ---------------------------------------------------------------------------
  // The operations
  // ---------------------------------------------------------------------------

  /**
   * `Begin`: the timeline is running and its waiting timestamps are ordered by
   * start time; nothing is added or lost.
   */
  function Begin(tl: Timeline): (r: Timeline)
    ensures r.begun && SortedByStart(r.waiting)
    ensures multiset(r.waiting) == multiset(tl.waiting)
    ensures r.inPlay == tl.inPlay && r.localTime == tl.localTime
  {
    tl.(begun := true, waiting := SortByStart(tl.waiting))
  }

  /**
   * `AddTimestamp`: a running timeline refuses new timestamps; otherwise the
   * timestamp joins the end of the waiting list.
   */
  function AddTimestamp(tl: Timeline, ts: Timestamp): (r: Result<Timeline>)
    ensures r.Throw? <==> tl.begun
    ensures r.Throw? ==> r.exception == TimelineError
    ensures r.Ok? ==>
      multiset(r.value.waiting) == multiset(tl.waiting) + multiset{ts} &&
      |r.value.waiting| == |tl.waiting| + 1 && r.value.waiting[..|tl.waiting|] == tl.waiting &&
      r.value.inPlay == tl.inPlay && r.value.localTime == tl.localTime && !r.value.begun
  {
    if tl.begun then Throw(TimelineError)
    else Ok(tl.(waiting := tl.waiting + [ts]))
  }

  /**
   * The `while` loop of `Update`: while the first waiting timestamp has
   * started, it moves to the end of the timestamps in play. The moved ones are
   * a prefix of the waiting list, all started; the first one left, if any, has
   * not.
   */
  function Admit(waiting: seq<Timestamp>, inPlay: seq<Timestamp>, t: int): (r: (seq<Timestamp>, seq<Timestamp>))
    ensures |r.0| <= |waiting| && r.0 == waiting[|waiting| - |r.0|..]
    ensures r.1 == inPlay + waiting[..|waiting| - |r.0|]
    ensures forall i :: 0 <= i < |waiting| - |r.0| ==> waiting[i].Start() <= t
    ensures |r.0| > 0 ==> r.0[0].Start() > t
    decreases |waiting|
  {
    if |waiting| > 0 && waiting[0].Start() <= t then
      var r := Admit(waiting[1..], inPlay + [waiting[0]], t);
      assert waiting[..|waiting| - |r.0|] == [waiting[0]] + waiting[1..][..|waiting| - 1 - |r.0|];
      r
    else (waiting, inPlay)
  }

  /** `List.RemoveAll` and the `foreach ... if` of `Update`: the elements that pass, in order. */
  function Filter(s: seq<Timestamp>, keep: Timestamp -> bool): (r: seq<Timestamp>)
    ensures |r| <= |s|
    ensures forall x :: multiset(r)[x] == if keep(x) then multiset(s)[x] else 0
  {
    if |s| == 0 then []
    else
      assert s == [s[0]] + s[1..];
      (if keep(s[0]) then [s[0]] else []) + Filter(s[1..], keep)
  }

  /** The outcome of an update: the timeline after it and the timestamps whose code ran. */
  datatype Updated = Updated(timeline: Timeline, ran: seq<Timestamp>)

  /**
   * `Update`: the waiting timestamps that have started join those in play;
   * of these, the ones active at the local time run, in order, and the ones
   * whose end is before it leave play; the local time advances by
   * `deltaTime`. `Begun` is not consulted. What is left waiting is a suffix
   * of the waiting list.
   */
  function Update(tl: Timeline, deltaTime: int): (r: Updated)
    ensures r.timeline.localTime == tl.localTime + deltaTime && r.timeline.begun == tl.begun
    ensures |r.timeline.waiting| <= |tl.waiting|
    ensures r.timeline.waiting == tl.waiting[|tl.waiting| - |r.timeline.waiting|..]
  {
    var (waiting, admitted) := Admit(tl.waiting, tl.inPlay, tl.localTime);
    var t := tl.localTime;
    var ran := Filter(admitted, (x: Timestamp) => x.Active(t, deltaTime));
    var kept := Filter(admitted, (x: Timestamp) => !x.End().Precedes(t));
    Updated(Timeline(waiting, kept, tl.begun, t + deltaTime), ran)
  }

  /** The number of waiting timestamps an update admits. */
  function AdmittedCount(tl: Timeline, deltaTime: int): (n: nat)
    ensures n <= |tl.waiting|
  {
    |tl.waiting| - |Update(tl, deltaTime).timeline.waiting|
  }

  /** The timestamps an update considers: those in play and those it admits. */
  predicate Considered(tl: Timeline, deltaTime: int, x: Timestamp) {
    x in tl.inPlay || x in tl.waiting[..AdmittedCount(tl, deltaTime)]
  }

  /**
   * The update admits exactly the longest prefix of the waiting list whose
   * timestamps have started.
   */
  lemma UpdateAdmitsStartedPrefix(tl: Timeline, deltaTime: int)
    ensures var n := AdmittedCount(tl, deltaTime);
      (forall i :: 0 <= i < n ==> tl.waiting[i].Start() <= tl.localTime) &&
      (n < |tl.waiting| ==> tl.waiting[n].Start() > tl.localTime)
  {
    var _ := Admit(tl.waiting, tl.inPlay, tl.localTime);
  }

  /** The code that runs is that of the considered timestamps active at the local time. */
  lemma UpdateRunsTheActive(tl: Timeline, deltaTime: int, x: Timestamp)
    ensures x in Update(tl, deltaTime).ran <==> Considered(tl, deltaTime, x) && x.Active(tl.localTime, deltaTime)
  {
    var a := Admit(tl.waiting, tl.inPlay, tl.localTime);
    var t := tl.localTime;
    var ran := Filter(a.1, (y: Timestamp) => y.Active(t, deltaTime));
    assert multiset(ran)[x] == if x.Active(t, deltaTime) then multiset(a.1)[x] else 0;
    assert x in a.1 <==> Considered(tl, deltaTime, x);
  }

  /** What stays in play is the considered timestamps whose end is not before the local time. */
  lemma UpdateDropsTheEnded(tl: Timeline, deltaTime: int, x: Timestamp)
    ensures x in Update(tl, deltaTime).timeline.inPlay <==> Considered(tl, deltaTime, x) && !x.End().Precedes(tl.localTime)
  {
    var a := Admit(tl.waiting, tl.inPlay, tl.localTime);
    var t := tl.localTime;
    var kept := Filter(a.1, (y: Timestamp) => !y.End().Precedes(t));
    assert multiset(kept)[x] == if !x.End().Precedes(t) then multiset(a.1)[x] else 0;
    assert x in a.1 <==> Considered(tl, deltaTime, x);
  }

  // ---------------------------------------------------------------------------
  // Properties
  // ---------------------------------------------------------------------------

  /**
   * On a sorted waiting list an update admits every timestamp that has
   * started: the ones left still wait for a later time, in order. This is
   * what `Begin`'s sort is for: unsorted, one late start would hold back
   * every timestamp behind it.
   */
  lemma UpdateAdmitsEveryStarted(tl: Timeline, deltaTime: int)
    requires SortedByStart(tl.waiting)
    ensures var w := Update(tl, deltaTime).timeline.waiting;
      SortedByStart(w) && forall x :: x in w ==> x.Start() > tl.localTime
  {
    var w := Update(tl, deltaTime).timeline.waiting;
    var n := AdmittedCount(tl, deltaTime);
    assert w == tl.waiting[n..];
    SortedSuffix(tl.waiting, n);
    if n < |tl.waiting| {
      assert tl.waiting[n].Start() > tl.localTime by {
        UpdateAdmitsStartedPrefix(tl, deltaTime);
      }
      assert StartsFrom(w, tl.waiting[n].Start());
    }
  }

  /** A suffix of a sorted list is sorted, and starts no earlier than its first element. */
  lemma SortedSuffix(s: seq<Timestamp>, n: nat)
    requires SortedByStart(s) && n <= |s|
    ensures SortedByStart(s[n..])
    ensures n < |s| ==> StartsFrom(s[n..], s[n].Start())
  {
    if n < |s| {
      forall y | y in s[n..]
        ensures s[n].Start() <= y.Start()
      {
        var j :| 0 <= j < |s| - n && s[n..][j] == y;
        assert s[n + j] == y;
      }
    }
  }

  /**
   * An unsorted waiting list: a late first timestamp holds back an earlier
   * second one, which neither enters play nor runs.
   */
  lemma UnsortedHoldsBack(tl: Timeline, deltaTime: int)
    requires tl.waiting == [At(tl.localTime + 1), At(tl.localTime)] && At(tl.localTime) !in tl.inPlay
    ensures Update(tl, deltaTime).timeline.waiting == tl.waiting
    ensures At(tl.localTime) !in Update(tl, deltaTime).ran
  {
    UpdateAdmitsStartedPrefix(tl, deltaTime);
    assert AdmittedCount(tl, deltaTime) == 0;
    UpdateRunsTheActive(tl, deltaTime, At(tl.localTime));
  }

  /** Every timestamp in play has started. */
  predicate AllStarted(tl: Timeline) {
    forall x :: x in tl.inPlay ==> x.Start() <= tl.localTime
  }

  /** A considered timestamp has started, when every timestamp in play has. */
  lemma ConsideredHaveStarted(tl: Timeline, deltaTime: int, x: Timestamp)
    requires AllStarted(tl) && Considered(tl, deltaTime, x)
    ensures x.Start() <= tl.localTime
  {
    var n := AdmittedCount(tl, deltaTime);
    UpdateAdmitsStartedPrefix(tl, deltaTime);
    if x !in tl.inPlay {
      var j :| 0 <= j < n && tl.waiting[..n][j] == x;
      assert tl.waiting[j] == x;
    }
  }

  /** Time running forward keeps every timestamp in play started. */
  lemma UpdateKeepsAllStarted(tl: Timeline, deltaTime: int)
    requires AllStarted(tl) && deltaTime >= 0
    ensures AllStarted(Update(tl, deltaTime).timeline)
  {
    var r := Update(tl, deltaTime);
    forall x | x in r.timeline.inPlay
      ensures x.Start() <= r.timeline.localTime
    {
      UpdateDropsTheEnded(tl, deltaTime, x);
      ConsideredHaveStarted(tl, deltaTime, x);
    }
  }

  /**
   * `TimestampOutside` under the timeline: it is active before its start
   * and after its end, but it is in play only from its start, and it leaves
   * play at the first update after its end. So on a running timeline its code
   * runs only when the local time is exactly its start, or once, at the
   * update that also drops it.
   */
  lemma OutsideRunsOnlyAtItsEdges(tl: Timeline, deltaTime: int, x: Timestamp)
    requires AllStarted(tl) && x.Outside?
    requires x in Update(tl, deltaTime).ran
    ensures x.start == tl.localTime || (x.end.Precedes(tl.localTime) && x !in Update(tl, deltaTime).timeline.inPlay)
  {
    UpdateRunsTheActive(tl, deltaTime, x);
    ConsideredHaveStarted(tl, deltaTime, x);
    UpdateDropsTheEnded(tl, deltaTime, x);
  }

  /**
   * A timestamp that stays in its window and has left play is never active
   * again: the timeline loses none of its active moments by dropping it.
   */
  lemma DroppedNeverActiveAgain(tl: Timeline, deltaTime: int, x: Timestamp, later: int)
    requires x in tl.inPlay && x !in Update(tl, deltaTime).timeline.inPlay
    requires StaysInWindow(x, deltaTime) && 0 <= tl.localTime <= later
    ensures !x.Active(later, deltaTime)
  {
    UpdateDropsTheEnded(tl, deltaTime, x);
    if x.Active(later, deltaTime) {
      ActiveInsideWindow(x, later, deltaTime);
    }
  }
}
