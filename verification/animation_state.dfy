/**
 * One animation state (Animation/AnimationState.cs): a cursor over a list of
 * cells, each shown for its wait time plus one update, then moved on in the
 * direction of play. At the end of the list a REPEAT state starts over, a
 * REVERSE state turns around, and a ONCE state stops on the last cell.
 */
module AnimationStates {
  import opened Exceptions

  /** `RepeatTypes`. */
  datatype RepeatType = Repeat | Reverse | Once

  /**
   * `currentIndex`, `current_wait`, `num_cells`, `direction`, `cell_indices`,
   * `wait_times`, `done` and `repeat_type`.
   */
  datatype AnimationState = AnimationState(
    currentIndex: int,
    currentWait: int,
    numCells: int,
    direction: int,
    cells: seq<int>,
    waits: seq<int>,
    done: bool,
    repeat: RepeatType)

  function Zeros(n: nat): (r: seq<int>)
    ensures |r| == n && forall i :: 0 <= i < n ==> r[i] == 0
  {
    seq(n, _ => 0)
  }

  /**
   * The constructor as written: when there are more cells than wait times,
   * the wait times are copied over the caller's cell array and the state
   * keeps a fresh array of zeros as its cells, while the wait times stay
   * short.
   */
  function NewState(cells: seq<int>, waits: seq<int>, repeat: RepeatType): (s: AnimationState)
    ensures s.currentIndex == 0 && s.currentWait == 0 && s.direction == 1 && !s.done
    ensures s.numCells == |cells| == |s.cells| && s.waits == waits && s.repeat == repeat
    ensures |cells| <= |waits| ==> s.cells == cells
    ensures |cells| > |waits| ==> forall i :: 0 <= i < |s.cells| ==> s.cells[i] == 0
  {
    var kept := if |cells| > |waits| then Zeros(|cells|) else cells;
    AnimationState(0, 0, |kept|, 1, kept, waits, false, repeat)
  }

  /**
   * The constructor as its comment describes it: the missing wait times are
   * filled in with zeros and the cells are kept.
   */
  function NewStatePadded(cells: seq<int>, waits: seq<int>, repeat: RepeatType): (s: AnimationState)
    ensures s.cells == cells && |s.waits| >= |cells|
    ensures |s.waits| >= |waits| && s.waits[..|waits|] == waits
    ensures forall i :: |waits| <= i < |s.waits| ==> s.waits[i] == 0
    ensures |cells| >= 1 ==> Valid(s)
  {
    var padded := if |cells| > |waits| then waits + Zeros(|cells| - |waits|) else waits;
    AnimationState(0, 0, |cells|, 1, cells, padded, false, repeat)
  }

  /**
   * The states `Update` can run on for ever: at least one cell, a wait time
   * for every cell, the index on a cell, and a direction of one step, which
   * only a REVERSE state turns backwards.
   */
  predicate Valid(s: AnimationState) {
    s.numCells == |s.cells| && 1 <= s.numCells <= |s.waits| &&
    0 <= s.currentIndex < s.numCells && s.currentWait >= 0 &&
    (s.direction == 1 || s.direction == -1) && (s.repeat != Reverse ==> s.direction == 1)
  }

  /**
   * `Update`: nothing once done. Otherwise the wait grows by one; reading the
   * wait time of the current index fails when there is none; once the wait
   * passes it, the index moves one step and the wait starts over, and a step
   * off either end is handled by the repeat type.
   */
  function Update(s: AnimationState): (r: Result<AnimationState>)
    ensures s.done ==> r == Ok(s)
    ensures !s.done ==> (r.Throw? <==> !(0 <= s.currentIndex < |s.waits|))
    ensures r.Throw? ==> r.exception == IndexOutOfRange
    ensures r.Ok? && !s.done && s.currentWait + 1 <= s.waits[s.currentIndex] ==>
      r.value == s.(currentWait := s.currentWait + 1)
    ensures r.Ok? && !s.done && s.currentWait + 1 > s.waits[s.currentIndex] ==>
      r.value.currentWait == 0 && r.value.cells == s.cells && r.value.waits == s.waits
  {
    if s.done then Ok(s)
    else if !(0 <= s.currentIndex < |s.waits|) then Throw(IndexOutOfRange)
    else
      var wait := s.currentWait + 1;
      if wait > s.waits[s.currentIndex] then
        var index := s.currentIndex + s.direction;
        var moved := s.(currentIndex := index, currentWait := 0);
        if index == s.numCells || index == -1 then
          match s.repeat
          case Once => Ok(moved.(currentIndex := index - 1, done := true))
          case Reverse => Ok(moved.(currentIndex := index - s.direction, direction := -s.direction))
          case Repeat => Ok(moved.(currentIndex := 0))
        else Ok(moved)
      else Ok(s.(currentWait := wait))
  }

  /**
   * On a valid state `Update` never fails and the state stays valid, so the
   * animation can run for ever.
   */
  lemma UpdateKeepsValid(s: AnimationState)
    requires Valid(s)
    ensures Update(s).Ok? && Valid(Update(s).value)
  {
  }

  /**
   * Where the index goes when a valid state's wait is over: REPEAT moves to
   * the next cell, wrapping round to the first; ONCE moves to the next cell
   * and, past the last, stays on it and is done; REVERSE moves one step in its
   * direction and, past either end, stays on the cell it was on and turns
   * round.
   */
  lemma UpdateStepsTheIndex(s: AnimationState)
    requires Valid(s) && !s.done && s.currentWait + 1 > s.waits[s.currentIndex]
    ensures var r := Update(s).value;
      (s.repeat == Repeat ==> r.currentIndex == (s.currentIndex + 1) % s.numCells && !r.done) &&
      (s.repeat == Once ==>
        r.done == (s.currentIndex == s.numCells - 1) &&
        r.currentIndex == if r.done then s.numCells - 1 else s.currentIndex + 1) &&
      (s.repeat == Reverse ==>
        var next := s.currentIndex + s.direction;
        if 0 <= next < s.numCells then r.currentIndex == next && r.direction == s.direction
        else r.currentIndex == s.currentIndex && r.direction == -s.direction)
  {
    if s.repeat == Repeat {
      if s.currentIndex + 1 < s.numCells {
        assert (s.currentIndex + 1) % s.numCells == s.currentIndex + 1;
      }
    }
  }

  /**
   * Each cell is shown for its wait time plus one update: from a fresh wait,
   * `k` updates with `k` at most the wait time leave the index where it is.
   */
  lemma {:induction false} WaitHoldsTheCell(s: AnimationState, k: nat)
    requires Valid(s) && !s.done && s.currentWait + k <= s.waits[s.currentIndex]
    ensures Updates(s, k) == Ok(s.(currentWait := s.currentWait + k))
    decreases k
  {
    if k > 0 {
      var next := s.(currentWait := s.currentWait + 1);
      assert Update(s) == Ok(next);
      WaitHoldsTheCell(next, k - 1);
    }
  }

  /** `k` updates in a row, stopping at the first failure. */
  function Updates(s: AnimationState, k: nat): (r: Result<AnimationState>)
    ensures k == 0 ==> r == Ok(s)
    decreases k
  {
    if k == 0 then Ok(s)
    else
      match Update(s)
      case Throw(e) => Throw(e)
      case Ok(next) => Updates(next, k - 1)
  }

  /** Any number of updates of a valid state succeed and leave it valid. */
  lemma {:induction false} UpdatesKeepValid(s: AnimationState, k: nat)
    requires Valid(s)
    ensures Updates(s, k).Ok? && Valid(Updates(s, k).value)
    decreases k
  {
    if k > 0 {
      UpdateKeepsValid(s);
      UpdatesKeepValid(Update(s).value, k - 1);
    }
  }

  /**
   * The constructor as written, on two cells and one wait time: the cells
   * become zeros, and the second update reads a wait time that is not
   * there.
   */
  lemma ShortWaitsThrow()
    ensures NewState([7, 8], [0], Repeat).cells == [0, 0]
    ensures Updates(NewState([7, 8], [0], Repeat), 2) == Throw(IndexOutOfRange)
  {
    var s := NewState([7, 8], [0], Repeat);
    var s1 := s.(currentIndex := 1, currentWait := 0);
    assert Update(s) == Ok(s1);
    assert Update(s1) == Throw(IndexOutOfRange);
    assert Updates(s1, 1) == Throw(IndexOutOfRange);
  }

  /** With padded wait times the same state runs for ever. */
  lemma PaddedWaitsRun(cells: seq<int>, waits: seq<int>, repeat: RepeatType, k: nat)
    requires |cells| >= 1
    ensures Updates(NewStatePadded(cells, waits, repeat), k).Ok?
  {
    UpdatesKeepValid(NewStatePadded(cells, waits, repeat), k);
  }

  /** When every cell has a wait time, the constructor as written keeps the cells and is valid. */
  lemma EnoughWaitsAgree(cells: seq<int>, waits: seq<int>, repeat: RepeatType)
    requires 1 <= |cells| <= |waits|
    ensures NewState(cells, waits, repeat) == NewStatePadded(cells, waits, repeat)
    ensures Valid(NewState(cells, waits, repeat))
  {
  }
}
