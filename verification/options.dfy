/**
 * The game options (Options.cs) that guard their values: the background dim
 * and the three volumes are levels between 0 and 1 inclusive, each 0.5 at
 * start, and an assignment outside that range is ignored.
 *
 * `float` values are reals here.
 */
module GameOptions {

  /** `_bgdim`, `_gbvol`, `_sfxvol` and `_mscvol`. */
  datatype Options = Options(backgroundDim: real, globalVolume: real, soundFXVolume: real, musicVolume: real)

  /** A level between 0 and 1 inclusive. */
  predicate InUnit(x: real) {
    0.0 <= x <= 1.0
  }

  /** Every guarded option is a level. */
  predicate Valid(o: Options) {
    InUnit(o.backgroundDim) && InUnit(o.globalVolume) && InUnit(o.soundFXVolume) && InUnit(o.musicVolume)
  }

  /** The values the options start with. */
  function Defaults(): (o: Options)
    ensures Valid(o)
    ensures o.backgroundDim == o.globalVolume == o.soundFXVolume == o.musicVolume == 0.5
  {
    Options(0.5, 0.5, 0.5, 0.5)
  }

  /**
   * The body of each guarded setter: the new value when it is a level, the
   * old one otherwise. A level stays a level whatever is assigned.
   */
  function Guarded(current: real, value: real): (r: real)
    ensures InUnit(value) ==> r == value
    ensures !InUnit(value) ==> r == current
    ensures InUnit(current) ==> InUnit(r)
  {
    if 0.0 <= value && value <= 1.0 then value else current
  }

  /** One assignment to a guarded option. */
  datatype Assignment =
    | SetBackgroundDim(value: real)
    | SetGlobalVolume(value: real)
    | SetSoundFXVolume(value: real)
    | SetMusicVolume(value: real)

  /** The setter of the assigned option; the other options are untouched. */
  function Assign(o: Options, a: Assignment): (r: Options)
    ensures Valid(o) ==> Valid(r)
    ensures !InUnit(a.value) ==> r == o
    ensures a.SetBackgroundDim? ==> r == o.(backgroundDim := Guarded(o.backgroundDim, a.value))
    ensures a.SetGlobalVolume? ==> r == o.(globalVolume := Guarded(o.globalVolume, a.value))
    ensures a.SetSoundFXVolume? ==> r == o.(soundFXVolume := Guarded(o.soundFXVolume, a.value))
    ensures a.SetMusicVolume? ==> r == o.(musicVolume := Guarded(o.musicVolume, a.value))
  {
    match a
    case SetBackgroundDim(v) => o.(backgroundDim := Guarded(o.backgroundDim, v))
    case SetGlobalVolume(v) => o.(globalVolume := Guarded(o.globalVolume, v))
    case SetSoundFXVolume(v) => o.(soundFXVolume := Guarded(o.soundFXVolume, v))
    case SetMusicVolume(v) => o.(musicVolume := Guarded(o.musicVolume, v))
  }

  /** A run of assignments, in order. */
  function AssignAll(o: Options, assignments: seq<Assignment>): (r: Options)
    decreases |assignments|
  {
    if |assignments| == 0 then o else AssignAll(Assign(o, assignments[0]), assignments[1..])
  }

  /**
   * Whatever is assigned, and however often, the options that start at their
   * defaults stay levels between 0 and 1.
   */
  lemma {:induction false} AlwaysInRange(o: Options, assignments: seq<Assignment>)
    requires Valid(o)
    ensures Valid(AssignAll(o, assignments))
    decreases |assignments|
  {
    if |assignments| > 0 {
      AlwaysInRange(Assign(o, assignments[0]), assignments[1..]);
    }
  }

  /**
   * Assignments that are all out of range change nothing: the setters ignore
   * them rather than clamping.
   */
  lemma {:induction false} OutOfRangeIgnored(o: Options, assignments: seq<Assignment>)
    requires forall i :: 0 <= i < |assignments| ==> !InUnit(assignments[i].value)
    ensures AssignAll(o, assignments) == o
    decreases |assignments|
  {
    if |assignments| > 0 {
      OutOfRangeIgnored(o, assignments[1..]);
    }
  }

  /** The background dim after the defaults and any single assignment to it. */
  lemma BackgroundDimSetting(v: real)
    ensures AssignAll(Defaults(), [SetBackgroundDim(v)]).backgroundDim == if InUnit(v) then v else 0.5
  {
    assert [SetBackgroundDim(v)][1..] == [];
  }
}
