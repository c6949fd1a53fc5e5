/**
 * The cursor every DML parser is built on (Dml/Parse/AbstractParser.cs).
 *
 * The linked-list node the C# parser walks is a position into the token
 * sequence: position |tokens| is the null node, reached only by advancing
 * past the last token. The stack of expected tokens is a sequence whose
 * first element is the top. Members that mutate the parser return the new
 * cursor, or the exception that ended them.
 */
module ParserCursor {
  import opened Exceptions
  import opened DmlTokens
  import opened Sequences

  datatype Cursor = Cursor(tokens: seq<string>, pos: nat, line: int, expecting: seq<string>, skipNext: int)

  predicate Valid(c: Cursor) {
    c.pos <= |c.tokens|
  }

  /** `Done`: the cursor has moved past the last token. */
  predicate Done(c: Cursor)
    requires Valid(c)
  {
    c.pos == |c.tokens|
  }

  /** The constructor: the cursor starts on the first token, nothing expected or skipped. */
  function New(tokens: seq<string>, line: int): (c: Cursor)
    ensures Valid(c) && c.tokens == tokens && c.line == line
    ensures c.pos == 0 && c.expecting == [] && c.skipNext == 0
    ensures Done(c) <==> |tokens| == 0
  {
    Cursor(tokens, 0, line, [], 0)
  }

  /** `CurrentToken`: None is null. */
  function CurrentToken(c: Cursor): (r: Option<string>)
    requires Valid(c)
    ensures r.None? <==> Done(c)
    ensures r.Some? ==> r.value == c.tokens[c.pos]
  {
    if c.pos < |c.tokens| then Some(c.tokens[c.pos]) else None
  }

  /** `NextToken`: null on the last token and past it. */
  function NextToken(c: Cursor): (r: Option<string>)
    requires Valid(c)
    ensures r.Some? <==> c.pos + 1 < |c.tokens|
    ensures r.Some? ==> r.value == c.tokens[c.pos + 1]
  {
    if c.pos + 1 < |c.tokens| then Some(c.tokens[c.pos + 1]) else None
  }

  /**
   * `HasNext`: true on any token, whatever `notNull` says; past the end it
   * dereferences the null node when `notNull` is set.
   */
  function HasNext(c: Cursor, notNull: bool): (r: Result<bool>)
    requires Valid(c)
    ensures r.Throw? <==> Done(c) && notNull
    ensures r.Throw? ==> r.exception == NullReference
    ensures r.Ok? ==> (r.value <==> !Done(c))
  {
    if !Done(c) then Ok(true)
    else if notNull then Throw(NullReference)
    else Ok(false)
  }

  /** The exception a strict move throws when it falls short. */
  function ShortMove(exception: Option<Exception>, message: string): Exception {
    exception.GetOr(ParserError(message))
  }

  const CannotAdvance := "Cannot advance the desired amount of steps."
  const CannotReverse := "Cannot reverse the desired amount of steps."

  /**
   * One iteration of `Advance`'s loop from a token: move to the next node,
   * over one newline token (counting the line), then pop the expected token,
   * if any, and check the new current token against it.
   */
  function AdvanceStep(c: Cursor): (r: Result<Cursor>)
    requires Valid(c) && !Done(c)
    ensures r.Ok? ==> Valid(r.value) && r.value.tokens == c.tokens && r.value.skipNext == c.skipNext
    ensures r.Ok? ==> c.pos < r.value.pos <= c.pos + 2
    ensures r.Ok? ==> r.value.line - c.line == r.value.pos - c.pos - 1
  {
    var p := c.pos + 1;
    var moved :=
      if p < |c.tokens| && c.tokens[p] == NEWLINE then c.(pos := p + 1, line := c.line + 1)
      else c.(pos := p);
    if |moved.expecting| == 0 then Ok(moved)
    else
      var top := moved.expecting[0];
      var ok :- IsMatchNullable(CurrentToken(moved), top);
      if ok then Ok(moved.(expecting := moved.expecting[1..]))
      else Throw(DmlSyntax(UnexpectedToken(top)))
  }

  /** `Advance`'s loop: the cursor it stops at and the final value of `steps`. */
  function AdvanceLoop(c: Cursor, steps: int, notNull: bool): (r: Result<(Cursor, int)>)
    requires Valid(c)
    ensures r.Ok? ==> Valid(r.value.0) && r.value.0.tokens == c.tokens && r.value.0.skipNext == c.skipNext
    ensures r.Ok? ==> c.pos <= r.value.0.pos && c.line <= r.value.0.line
    ensures r.Ok? && r.value.1 == -1 ==> c.pos + steps <= r.value.0.pos
    decreases if steps > 0 then steps else 0
  {
    if !(0 < steps) then Ok((c, steps - 1))
    else
      var more :- HasNext(c, notNull);
      if !more then Ok((c, steps - 1))
      else
        var c' :- AdvanceStep(c);
        AdvanceLoop(c', steps - 1, notNull)
  }

  /**
   * `Advance(steps, notNull, strict, exception)`. A strict call that could
   * not make every step throws `exception`, or a ParserError when none is
   * given; a strict call also throws for a negative step count.
   */
  function Advance(c: Cursor, steps: int, notNull: bool, strict: bool, exception: Option<Exception>): (r: Result<Cursor>)
    requires Valid(c)
    ensures r.Ok? ==> Valid(r.value) && r.value.tokens == c.tokens && r.value.skipNext == c.skipNext
    ensures r.Ok? ==> c.pos <= r.value.pos && c.line <= r.value.line
    ensures r.Ok? && strict ==> c.pos + steps <= r.value.pos
    ensures strict && steps < 0 ==> r.Throw?
  {
    var loop := AdvanceLoop(c, steps, notNull);
    if loop.Throw? then Throw(loop.exception)
    else if loop.value.1 != -1 && strict then Throw(ShortMove(exception, CannotAdvance))
    else Ok(loop.value.0)
  }

  /**
   * `Advance()` with its defaults: one step, not past the end, strict. A
   * single strict step never falls short, so the step either dereferences
   * the null node or is one iteration of the loop (`NextIsAdvance`).
   */
  function Next(c: Cursor): (r: Result<Cursor>)
    requires Valid(c)
    ensures Done(c) ==> r == Throw(NullReference)
    ensures r.Ok? ==> Valid(r.value) && r.value.tokens == c.tokens && r.value.skipNext == c.skipNext
    ensures r.Ok? ==> c.pos < r.value.pos <= c.pos + 2
  {
    if Done(c) then Throw(NullReference) else AdvanceStep(c)
  }

  /**
   * One strict step, whatever exception it is given, is `Next`: the
   * exception a caller passes to a one-step `Advance` is never thrown.
   */
  lemma NextIsAdvance(c: Cursor, exception: Option<Exception>)
    requires Valid(c)
    ensures Advance(c, 1, true, true, exception) == Next(c)
  {
    if !Done(c) {
      var step := AdvanceStep(c);
      if step.Ok? {
        assert AdvanceLoop(step.value, 0, true) == Ok((step.value, -1));
      }
    }
  }

  predicate NoNewlineFrom(tokens: seq<string>, from: nat) {
    forall k :: from <= k < |tokens| ==> tokens[k] != NEWLINE
  }

  /**
   * With no newline ahead and nothing expected, `Advance(k)` moves exactly
   * `k` tokens when there are that many. Otherwise a `notNull` cursor
   * dereferences the null node once it has passed the last token, and a
   * strict one that stopped short throws its exception.
   */
  lemma {:induction false} AdvanceWithoutNewlines(c: Cursor, k: nat, notNull: bool, strict: bool, exception: Option<Exception>)
    requires Valid(c) && c.expecting == [] && NoNewlineFrom(c.tokens, c.pos)
    ensures Advance(c, k, notNull, strict, exception) ==
      if k <= |c.tokens| - c.pos then Ok(c.(pos := c.pos + k))
      else if notNull then Throw(NullReference)
      else if strict then Throw(ShortMove(exception, CannotAdvance))
      else Ok(c.(pos := |c.tokens|))
  {
    AdvanceLoopWithoutNewlines(c, k, notNull);
  }

  lemma {:induction false} AdvanceLoopWithoutNewlines(c: Cursor, k: nat, notNull: bool)
    requires Valid(c) && c.expecting == [] && NoNewlineFrom(c.tokens, c.pos)
    ensures AdvanceLoop(c, k, notNull) ==
      if k <= |c.tokens| - c.pos then Ok((c.(pos := c.pos + k), -1))
      else if notNull then Throw(NullReference)
      else Ok((c.(pos := |c.tokens|), k - (|c.tokens| - c.pos) - 1))
    decreases k
  {
    if k > 0 && c.pos < |c.tokens| {
      var c' := c.(pos := c.pos + 1);
      assert AdvanceStep(c) == Ok(c');
      AdvanceLoopWithoutNewlines(c', k - 1, notNull);
    }
  }

  /** Advancing onto a newline token moves over it and counts the line. */
  lemma AdvanceSkipsNewline(c: Cursor, notNull: bool, strict: bool, exception: Option<Exception>)
    requires Valid(c) && c.expecting == [] && c.pos + 2 <= |c.tokens| && c.tokens[c.pos + 1] == NEWLINE
    ensures Advance(c, 1, notNull, strict, exception) == Ok(c.(pos := c.pos + 2, line := c.line + 1))
  {
    assert AdvanceStep(c) == Ok(c.(pos := c.pos + 2, line := c.line + 1));
  }

  /**
   * Each step pops one expected token: the step succeeds, with the rest of
   * the expectations, exactly when the token it lands on matches.
   */
  lemma AdvanceChecksExpected(c: Cursor, top: string, rest: seq<string>)
    requires Valid(c) && c.expecting == [top] + rest
    requires c.pos + 1 < |c.tokens| && c.tokens[c.pos + 1] != NEWLINE
    ensures IsMatch(c.tokens[c.pos + 1], top) ==>
      Advance(c, 1, true, true, None) == Ok(c.(pos := c.pos + 1, expecting := rest))
    ensures !IsMatch(c.tokens[c.pos + 1], top) ==>
      Advance(c, 1, true, true, None) == Throw(DmlSyntax(UnexpectedToken(top)))
  {
    assert c.expecting[0] == top && c.expecting[1..] == rest by {
      assert ([top] + rest)[1..] == rest;
    }
    AdvanceStepChecks(c);
    NextIsAdvance(c, None);
  }

  /** `SetExpecting`: replaces the expectations and moves nothing. */
  function SetExpecting(c: Cursor, tokens: seq<string>): (r: Cursor)
    requires Valid(c)
    ensures Valid(r) && r.pos == c.pos && r.line == c.line && r.tokens == c.tokens && r.skipNext == c.skipNext
    ensures r.expecting == tokens
  {
    c.(expecting := tokens)
  }

  /** Every token matches the expectation at the same index. */
  predicate AllMatch(ts: seq<string>, expected: seq<string>)
    requires |ts| == |expected|
  {
    |ts| == 0 || (IsMatch(ts[0], expected[0]) && AllMatch(ts[1..], expected[1..]))
  }

  /** One step onto a token that is not a newline checks it against the top expectation. */
  lemma AdvanceStepChecks(c: Cursor)
    requires Valid(c) && c.pos + 1 < |c.tokens| && c.tokens[c.pos + 1] != NEWLINE && |c.expecting| > 0
    ensures AdvanceStep(c) ==
      if IsMatch(c.tokens[c.pos + 1], c.expecting[0]) then Ok(c.(pos := c.pos + 1, expecting := c.expecting[1..]))
      else Throw(DmlSyntax(UnexpectedToken(c.expecting[0])))
  {
  }

  /**
   * With expectations `ts` (the first on top, as `SetExpecting(ts)` leaves
   * them), advancing `|ts|` tokens, none of them newlines, succeeds exactly
   * when the j-th token reached matches `ts[j]`, and then nothing is left
   * expected: the first token given is the first checked.
   */
  lemma {:induction false} ExpectationsCheckedInOrder(c: Cursor, ts: seq<string>, window: seq<string>)
    requires Valid(c) && c.pos + |ts| < |c.tokens| && NoNewlineFrom(c.tokens, c.pos)
    requires c.expecting == ts && window == c.tokens[c.pos + 1..c.pos + 1 + |ts|]
    ensures var r := Advance(c, |ts|, true, true, None);
      (r.Ok? <==> AllMatch(window, ts)) && (r.Ok? ==> r.value == c.(pos := c.pos + |ts|, expecting := []))
    decreases |ts|
  {
    if |ts| > 0 {
      if IsMatch(window[0], ts[0]) {
        var c' := c.(pos := c.pos + 1, expecting := ts[1..]);
        assert Advance(c, |ts|, true, true, None) == Advance(c', |ts| - 1, true, true, None) by {
          AdvanceStepChecks(c);
          assert AdvanceLoop(c, |ts|, true) == AdvanceLoop(c', |ts| - 1, true);
        }
        assert AllMatch(window, ts) == AllMatch(window[1..], ts[1..]);
        ExpectationsCheckedInOrder(c', ts[1..], window[1..]);
      } else {
        assert Advance(c, |ts|, true, true, None).Throw? by {
          AdvanceStepChecks(c);
          assert AdvanceLoop(c, |ts|, true).Throw?;
        }
      }
    }
  }

  function SkipNext(c: Cursor, n: int): Cursor {
    c.(skipNext := n)
  }

  /** `Restart`: back to the first token; the line counter is left alone. */
  function Restart(c: Cursor): (r: Cursor)
    ensures Valid(r) && r.pos == 0 && r.line == c.line && r.tokens == c.tokens
  {
    c.(pos := 0)
  }

  // ---------------------------------------------------------------------------
  // Reverse
  // ---------------------------------------------------------------------------

  /** `Reverse`'s loop from a node: each step moves back one token, and over one more if it is a newline. */
  function ReverseLoop(c: Cursor, steps: int): (r: Result<(Cursor, int)>)
    requires Valid(c)
    ensures r.Ok? ==> Valid(r.value.0) && r.value.0.tokens == c.tokens && r.value.0.pos <= c.pos
    ensures r.Ok? ==> r.value.0.expecting == c.expecting && r.value.0.skipNext == c.skipNext
    decreases if steps > 0 then steps else 0
  {
    if !(0 < steps) then Ok((c, steps - 1))
    else if Done(c) then Throw(NullReference)
    else if c.pos == 0 then Ok((c, steps - 1))
    else
      var p := c.pos - 1;
      if c.tokens[p] == NEWLINE && p > 0 then ReverseLoop(c.(pos := p - 1, line := c.line - 1), steps - 1)
      else ReverseLoop(c.(pos := p), steps - 1)
  }

  /**
   * `Reverse(steps, strict, exception)`. From the null node the cursor first
   * moves to the last token, which uses up one step.
   */
  function Reverse(c: Cursor, steps: int, strict: bool, exception: Option<Exception>): (r: Result<Cursor>)
    requires Valid(c)
    ensures r.Ok? ==> Valid(r.value) && r.value.tokens == c.tokens && r.value.expecting == c.expecting
    ensures strict && steps < 0 && !Done(c) ==> r.Throw?
  {
    var (start, s) :=
      if Done(c) then (c.(pos := if |c.tokens| == 0 then 0 else |c.tokens| - 1), steps - 1)
      else (c, steps);
    var loop := ReverseLoop(start, s);
    if loop.Throw? then Throw(loop.exception)
    else if loop.value.1 != -1 && strict then Throw(ShortMove(exception, CannotReverse))
    else Ok(loop.value.0)
  }

  predicate NoNewlineBefore(tokens: seq<string>, upto: nat)
    requires upto <= |tokens|
  {
    forall k :: 0 <= k < upto ==> tokens[k] != NEWLINE
  }

  /**
   * With no newline behind a token, `Reverse(k)` moves back exactly `k`
   * tokens when there are that many; otherwise it stops on the first token
   * and a strict call throws.
   */
  lemma {:induction false} ReverseWithoutNewlines(c: Cursor, k: nat, strict: bool, exception: Option<Exception>)
    requires Valid(c) && !Done(c) && NoNewlineBefore(c.tokens, c.pos)
    ensures Reverse(c, k, strict, exception) ==
      if k <= c.pos then Ok(c.(pos := c.pos - k))
      else if strict then Throw(ShortMove(exception, CannotReverse))
      else Ok(c.(pos := 0))
  {
    ReverseLoopWithoutNewlines(c, k);
  }

  lemma {:induction false} ReverseLoopWithoutNewlines(c: Cursor, k: nat)
    requires Valid(c) && !Done(c) && NoNewlineBefore(c.tokens, c.pos)
    ensures ReverseLoop(c, k) ==
      if k <= c.pos then Ok((c.(pos := c.pos - k), -1))
      else Ok((c.(pos := 0), k - c.pos - 1))
    decreases k
  {
    if k > 0 && c.pos > 0 {
      ReverseLoopWithoutNewlines(c.(pos := c.pos - 1), k - 1);
    }
  }

  /**
   * One step forward and one step back return to the same token and line,
   * provided the cursor stands on a token that is not a newline, nothing is
   * expected, and it is not followed by a newline that ends the list (the
   * step forward then passes the end, and the step back lands on that
   * newline).
   */
  lemma AdvanceThenReverse(c: Cursor)
    requires Valid(c) && !Done(c) && c.expecting == [] && c.tokens[c.pos] != NEWLINE
    requires !(c.pos + 2 == |c.tokens| && c.tokens[c.pos + 1] == NEWLINE)
    ensures Advance(c, 1, true, true, None).Ok?
    ensures var c' := Advance(c, 1, true, true, None).value;
      Reverse(c', 1, true, None).Ok? &&
      Reverse(c', 1, true, None).value.pos == c.pos &&
      Reverse(c', 1, true, None).value.line == c.line
  {
    var p := c.pos + 1;
    if p < |c.tokens| && c.tokens[p] == NEWLINE {
      var c' := c.(pos := p + 1, line := c.line + 1);
      assert AdvanceStep(c) == Ok(c');
      assert Advance(c, 1, true, true, None) == Ok(c');
      assert ReverseLoop(c', 1) == ReverseLoop(c.(pos := c.pos, line := c.line), 0);
    } else {
      var c' := c.(pos := p);
      assert AdvanceStep(c) == Ok(c');
      assert Advance(c, 1, true, true, None) == Ok(c');
    }
  }

  /** The round trip fails after a trailing newline: back lands on the newline, one line on. */
  lemma TrailingNewlineBreaksRoundTrip()
    ensures var c := New(["x", NEWLINE], 0);
      var c' := Advance(c, 1, true, true, None).value;
      Reverse(c', 1, true, None) == Ok(c.(pos := 1, line := 1))
  {
    var c := New(["x", NEWLINE], 0);
    assert AdvanceStep(c) == Ok(c.(pos := 2, line := 1));
  }

  // ---------------------------------------------------------------------------
  // GetUntil and GetNamespaceBlock
  // ---------------------------------------------------------------------------

  /** How far a bracket changes the depth `GetUntil` tracks. */
  function BracketStep(t: string): int {
    if IsLeftBracket(t) then 1 else if IsRightBracket(t) then -1 else 0
  }

  /** Opening minus closing brackets in a token list. */
  function BracketDepth(ts: seq<string>): int {
    if |ts| == 0 then 0 else BracketStep(ts[0]) + BracketDepth(ts[1..])
  }

  /** The depth after the first `k` tokens. */
  function BracketsBefore(ts: seq<string>, k: nat): int
    requires k <= |ts|
  {
    BracketDepth(ts[..k])
  }

  lemma {:induction false} BracketDepthSnoc(ts: seq<string>, t: string)
    ensures BracketDepth(ts + [t]) == BracketDepth(ts) + BracketStep(t)
  {
    if |ts| == 0 {
      assert [t][1..] == [];
    } else {
      assert (ts + [t])[1..] == ts[1..] + [t];
      BracketDepthSnoc(ts[1..], t);
    }
  }

  /** `GetUntil` stops at a token matching the terminal only when it is not inside brackets. */
  predicate StopsAt(t: string, terminal: string, depth: int) {
    IsMatch(t, terminal) && depth == 0
  }

  /**
   * `GetUntil`'s loop: `taken` holds the tokens read so far. Reading past the
   * last token dereferences the null node (the strict `Advance` never gets
   * to throw the exception it was given).
   */
  function GetUntilLoop(c: Cursor, terminal: string, ignoreBracketDepth: bool, depth: int,
                        taken: seq<string>, exception: Option<Exception>): (r: Result<(seq<string>, Cursor)>)
    requires Valid(c)
    ensures r.Ok? ==> Valid(r.value.1) && r.value.1.tokens == c.tokens && c.pos <= r.value.1.pos
    ensures r.Ok? ==> !ignoreBracketDepth
    decreases |c.tokens| - c.pos
  {
    var current := CurrentToken(c);
    var matches :- IsMatchNullable(current, terminal);
    if matches && !ignoreBracketDepth && depth == 0 then Ok((taken, c))
    else if current.None? then Throw(NullReference)
    else
      var t := current.value;
      var depth' := if ignoreBracketDepth then depth else depth + BracketStep(t);
      var c' :- Next(c);
      GetUntilLoop(c', terminal, ignoreBracketDepth, depth', taken + [t], exception)
  }

  /** One iteration of `GetUntil`'s loop on a token that does not end it. */
  lemma GetUntilStep(c: Cursor, terminal: string, depth: int, taken: seq<string>, exception: Option<Exception>)
    requires Valid(c) && !Done(c) && !StopsAt(c.tokens[c.pos], terminal, depth)
    ensures var next := Next(c);
      var t := c.tokens[c.pos];
      GetUntilLoop(c, terminal, false, depth, taken, exception) ==
        if next.Throw? then Throw(next.exception)
        else GetUntilLoop(next.value, terminal, false, depth + BracketStep(t), taken + [t], exception)
  {
    assert CurrentToken(c) == Some(c.tokens[c.pos]);
    assert IsMatchNullable(CurrentToken(c), terminal) == Ok(IsMatch(c.tokens[c.pos], terminal));
  }

  /** `GetUntil`'s loop ends on a terminal outside brackets, and throws past the last token. */
  lemma GetUntilStop(c: Cursor, terminal: string, depth: int, taken: seq<string>, exception: Option<Exception>)
    requires Valid(c)
    ensures Done(c) ==> GetUntilLoop(c, terminal, false, depth, taken, exception).Throw?
    ensures !Done(c) && StopsAt(c.tokens[c.pos], terminal, depth) ==>
      GetUntilLoop(c, terminal, false, depth, taken, exception) == Ok((taken, c))
  {
  }

  /** The cursor `GetUntil`'s loop stops on, and the tokens it read. */
  function Stopped(r: Result<(seq<string>, Cursor)>): (seq<string>, Cursor)
    requires r.Ok?
  {
    r.value
  }

  /** When `GetUntil`'s loop stops, the cursor stands on a terminal. */
  lemma {:induction false} GetUntilLoopEnds(c: Cursor, terminal: string, depth: int, taken: seq<string>,
                                            exception: Option<Exception>)
    requires Valid(c)
    requires GetUntilLoop(c, terminal, false, depth, taken, exception).Ok?
    ensures var c' := GetUntilLoop(c, terminal, false, depth, taken, exception).value.1;
      !Done(c') && StopsAt(c'.tokens[c'.pos], terminal, 0)
    decreases |c.tokens| - c.pos
  {
    GetUntilStop(c, terminal, depth, taken, exception);
    if !Done(c) && !StopsAt(c.tokens[c.pos], terminal, depth) {
      var t := c.tokens[c.pos];
      GetUntilStep(c, terminal, depth, taken, exception);
      var c1 := Next(c).value;
      GetUntilLoopEnds(c1, terminal, depth + BracketStep(t), taken + [t], exception);
    }
  }

  /**
   * When `GetUntil`'s loop stops, the tokens read extend `taken`, none of
   * them was a terminal outside brackets, and the brackets read balance.
   */
  lemma {:induction false} GetUntilLoopBalances(c: Cursor, terminal: string, depth: int, taken: seq<string>,
                                                exception: Option<Exception>)
    requires Valid(c) && depth == BracketDepth(taken)
    requires GetUntilLoop(c, terminal, false, depth, taken, exception).Ok?
    ensures var ts := GetUntilLoop(c, terminal, false, depth, taken, exception).value.0;
      |taken| <= |ts| && ts[..|taken|] == taken && BracketDepth(ts) == 0 &&
      forall k :: |taken| <= k < |ts| ==> !StopsAt(ts[k], terminal, BracketsBefore(ts, k))
    decreases |c.tokens| - c.pos
  {
    if !Done(c) && !StopsAt(c.tokens[c.pos], terminal, depth) {
      var t := c.tokens[c.pos];
      var next := Next(c);
      var d1 := depth + BracketStep(t);
      assert next.Ok? && GetUntilLoop(c, terminal, false, depth, taken, exception) ==
             GetUntilLoop(next.value, terminal, false, d1, taken + [t], exception) by {
        GetUntilStep(c, terminal, depth, taken, exception);
      }
      var c1 := next.value;
      var ts := GetUntilLoop(c1, terminal, false, d1, taken + [t], exception).value.0;
      assert |taken| + 1 <= |ts| && ts[..|taken| + 1] == taken + [t] && BracketDepth(ts) == 0 &&
             forall k :: |taken| + 1 <= k < |ts| ==> !StopsAt(ts[k], terminal, BracketsBefore(ts, k)) by {
        BracketDepthSnoc(taken, t);
        GetUntilLoopBalances(c1, terminal, d1, taken + [t], exception);
      }
      NoStopExtends(ts, taken, t, terminal);
    } else {
      GetUntilStop(c, terminal, depth, taken, exception);
    }
  }

  /** Extending "no stop from index |taken| + 1" back by one token that did not stop the loop. */
  lemma NoStopExtends(ts: seq<string>, taken: seq<string>, t: string, terminal: string)
    requires |taken| + 1 <= |ts| && ts[..|taken| + 1] == taken + [t]
    requires !StopsAt(t, terminal, BracketDepth(taken))
    requires forall k :: |taken| + 1 <= k < |ts| ==> !StopsAt(ts[k], terminal, BracketsBefore(ts, k))
    ensures ts[..|taken|] == taken
    ensures forall k :: |taken| <= k < |ts| ==> !StopsAt(ts[k], terminal, BracketsBefore(ts, k))
  {
    var n := |taken|;
    PrefixOfPrefix(ts, n, n + 1);
    SnocParts(taken, t);
    assert ts[n] == (ts[..n + 1])[n];
    assert BracketsBefore(ts, n) == BracketDepth(taken);
    forall k | n <= k < |ts|
      ensures !StopsAt(ts[k], terminal, BracketsBefore(ts, k))
    {
      if k > n {
        assert n + 1 <= k;
      }
    }
  }

  /**
   * With no newline ahead and nothing expected, the tokens `GetUntil`'s loop
   * reads are exactly those the cursor passes over.
   */
  lemma {:induction false} GetUntilTakesTheSlice(c: Cursor, terminal: string, depth: int, taken: seq<string>,
                                                 exception: Option<Exception>)
    requires Valid(c) && c.expecting == [] && NoNewlineFrom(c.tokens, c.pos)
    requires GetUntilLoop(c, terminal, false, depth, taken, exception).Ok?
    ensures var r := GetUntilLoop(c, terminal, false, depth, taken, exception).value;
      r.0 == taken + c.tokens[c.pos..r.1.pos]
    decreases |c.tokens| - c.pos
  {
    if !Done(c) && !StopsAt(c.tokens[c.pos], terminal, depth) {
      var t := c.tokens[c.pos];
      var c1 := c.(pos := c.pos + 1);
      var d1 := depth + BracketStep(t);
      assert Next(c) == Ok(c1) by {
        assert AdvanceStep(c) == Ok(c1);
      }
      assert GetUntilLoop(c, terminal, false, depth, taken, exception) ==
             GetUntilLoop(c1, terminal, false, d1, taken + [t], exception) by {
        GetUntilStep(c, terminal, depth, taken, exception);
      }
      var r := GetUntilLoop(c1, terminal, false, d1, taken + [t], exception).value;
      assert r.0 == (taken + [t]) + c.tokens[c1.pos..r.1.pos] by {
        GetUntilTakesTheSlice(c1, terminal, d1, taken + [t], exception);
      }
      SliceCons(taken, c.tokens, c.pos, r.1.pos);
    } else {
      GetUntilStop(c, terminal, depth, taken, exception);
    }
  }

  /**
   * `GetUntil(terminal, ignoreBracketDepth, reposition, exception)`: the
   * tokens read before the first terminal outside brackets. With
   * `reposition` the cursor returns to its node; the line counter and the
   * expectations keep whatever the reads did to them.
   */
  function GetUntil(c: Cursor, terminal: string, ignoreBracketDepth: bool, reposition: bool,
                    exception: Option<Exception>): (r: Result<(seq<string>, Cursor)>)
    requires Valid(c)
    ensures r.Ok? ==> Valid(r.value.1) && r.value.1.tokens == c.tokens
    ensures r.Ok? && reposition ==> r.value.1.pos == c.pos
    ensures r.Ok? && !reposition ==> !Done(r.value.1) && StopsAt(r.value.1.tokens[r.value.1.pos], terminal, 0)
    ensures r.Ok? ==> BracketDepth(r.value.0) == 0
    ensures r.Ok? ==> forall k :: 0 <= k < |r.value.0| ==> !StopsAt(r.value.0[k], terminal, BracketsBefore(r.value.0, k))
    ensures r.Ok? && !reposition ==> c.pos <= r.value.1.pos
    ensures r.Ok? && !reposition && c.expecting == [] && NoNewlineFrom(c.tokens, c.pos) ==>
      r.value.0 == c.tokens[c.pos..r.value.1.pos]
    ensures ignoreBracketDepth ==> r.Throw?
  {
    var loop := GetUntilLoop(c, terminal, ignoreBracketDepth, 0, [], exception);
    if loop.Throw? then Throw(loop.exception)
    else
      GetUntilLoopEnds(c, terminal, 0, [], exception);
      GetUntilLoopBalances(c, terminal, 0, [], exception);
      if c.expecting == [] && NoNewlineFrom(c.tokens, c.pos) then
        GetUntilTakesTheSlice(c, terminal, 0, [], exception);
        Ok((loop.value.0, if reposition then loop.value.1.(pos := c.pos) else loop.value.1))
      else
        Ok((loop.value.0, if reposition then loop.value.1.(pos := c.pos) else loop.value.1))
  }

  /** No token of `ts` stops `GetUntil` when it reads them from bracket depth `depth`. */
  predicate NoStopIn(ts: seq<string>, terminal: string, depth: int) {
    |ts| == 0 || (!StopsAt(ts[0], terminal, depth) && NoStopIn(ts[1..], terminal, depth + BracketStep(ts[0])))
  }

  /**
   * With no newline ahead and nothing expected, `GetUntil`'s loop finds the
   * first terminal outside brackets: it returns the tokens before it and
   * stands on it.
   */
  lemma {:induction false} GetUntilLoopFinds(c: Cursor, terminal: string, depth: int, taken: seq<string>,
                                             exception: Option<Exception>, k: nat)
    requires Valid(c) && c.expecting == [] && NoNewlineFrom(c.tokens, c.pos)
    requires c.pos <= k < |c.tokens|
    requires NoStopIn(c.tokens[c.pos..k], terminal, depth)
    requires StopsAt(c.tokens[k], terminal, depth + BracketDepth(c.tokens[c.pos..k]))
    ensures GetUntilLoop(c, terminal, false, depth, taken, exception) == Ok((taken + c.tokens[c.pos..k], c.(pos := k)))
    decreases k - c.pos
  {
    if c.pos == k {
      GetUntilFindsHere(c, terminal, depth, taken, exception);
    } else {
      var t := c.tokens[c.pos];
      var c1 := c.(pos := c.pos + 1);
      var d1 := depth + BracketStep(t);
      GetUntilFindsStep(c, terminal, depth, taken, exception, k);
      GetUntilLoopFinds(c1, terminal, d1, taken + [t], exception, k);
      TakenJoin(c, c1, taken, k, GetUntilLoop(c, terminal, false, depth, taken, exception));
    }
  }

  /** The terminal under the cursor: `GetUntil`'s loop stops at once with nothing more taken. */
  lemma GetUntilFindsHere(c: Cursor, terminal: string, depth: int, taken: seq<string>, exception: Option<Exception>)
    requires Valid(c) && c.pos < |c.tokens|
    requires StopsAt(c.tokens[c.pos], terminal, depth + BracketDepth(c.tokens[c.pos..c.pos]))
    ensures GetUntilLoop(c, terminal, false, depth, taken, exception) ==
      Ok((taken + c.tokens[c.pos..c.pos], c.(pos := c.pos)))
  {
    var none := c.tokens[c.pos..c.pos];
    assert none == [] && BracketDepth(none) == 0;
    assert taken + none == taken && c.(pos := c.pos) == c;
    GetUntilStop(c, terminal, depth, taken, exception);
  }

  /** One token before the terminal: `GetUntil`'s loop takes it and goes on from the next. */
  lemma GetUntilFindsStep(c: Cursor, terminal: string, depth: int, taken: seq<string>,
                          exception: Option<Exception>, k: nat)
    requires Valid(c) && c.expecting == [] && NoNewlineFrom(c.tokens, c.pos)
    requires c.pos < k < |c.tokens|
    requires NoStopIn(c.tokens[c.pos..k], terminal, depth)
    ensures var t := c.tokens[c.pos];
      var d1 := depth + BracketStep(t);
      NoStopIn(c.tokens[c.pos + 1..k], terminal, d1) &&
      d1 + BracketDepth(c.tokens[c.pos + 1..k]) == depth + BracketDepth(c.tokens[c.pos..k]) &&
      GetUntilLoop(c, terminal, false, depth, taken, exception) ==
        GetUntilLoop(c.(pos := c.pos + 1), terminal, false, d1, taken + [t], exception)
  {
    var t := c.tokens[c.pos];
    var c1 := c.(pos := c.pos + 1);
    var slice := c.tokens[c.pos..k];
    assert slice[0] == t && slice[1..] == c.tokens[c.pos + 1..k];
    assert Next(c) == Ok(c1) by {
      assert AdvanceStep(c) == Ok(c1);
    }
    GetUntilStep(c, terminal, depth, taken, exception);
  }

  /** A loop's result from the next token, with this token taken first, is its result from this one. */
  lemma TakenJoin(c: Cursor, c1: Cursor, taken: seq<string>, k: nat, r: Result<(seq<string>, Cursor)>)
    requires Valid(c) && c.pos < k <= |c.tokens| && c1 == c.(pos := c.pos + 1)
    requires r == Ok(((taken + [c.tokens[c.pos]]) + c1.tokens[c1.pos..k], c1.(pos := k)))
    ensures r == Ok((taken + c.tokens[c.pos..k], c.(pos := k)))
  {
    SliceCons(taken, c.tokens, c.pos, k);
    assert c1.(pos := k) == c.(pos := k);
  }

  /**
   * `GetUntil` finds what is there: when the first terminal outside
   * brackets is at `k`, the result is the tokens from the cursor up to `k`,
   * and the cursor stays put with `reposition` or stands on `k` without it.
   */
  lemma GetUntilFinds(c: Cursor, terminal: string, reposition: bool, exception: Option<Exception>, k: nat)
    requires Valid(c) && c.expecting == [] && NoNewlineFrom(c.tokens, c.pos)
    requires c.pos <= k < |c.tokens|
    requires NoStopIn(c.tokens[c.pos..k], terminal, 0)
    requires StopsAt(c.tokens[k], terminal, BracketDepth(c.tokens[c.pos..k]))
    ensures GetUntil(c, terminal, false, reposition, exception) ==
      Ok((c.tokens[c.pos..k], if reposition then c else c.(pos := k)))
  {
    GetUntilLoopFinds(c, terminal, 0, [], exception, k);
    assert [] + c.tokens[c.pos..k] == c.tokens[c.pos..k];
  }

  /**
   * Without a stop ahead, `GetUntil`'s loop reads past the last token and
   * asks `IsMatch` about the null node: the pattern names and the builtin
   * lookup throw ArgumentNull there, any other terminal compares unequal
   * and the next step dereferences the null node.
   */
  lemma {:induction false} GetUntilPastTheEnd(c: Cursor, terminal: string, depth: int, taken: seq<string>,
                                              exception: Option<Exception>)
    requires Valid(c) && c.expecting == [] && NoNewlineFrom(c.tokens, c.pos)
    requires NoStopIn(c.tokens[c.pos..], terminal, depth)
    ensures GetUntilLoop(c, terminal, false, depth, taken, exception) ==
      Throw(if terminal == UQNAME || terminal == BUILTIN || terminal == NUMBER then ArgumentNull else NullReference)
    decreases |c.tokens| - c.pos
  {
    if !Done(c) {
      var t := c.tokens[c.pos];
      var c1 := c.(pos := c.pos + 1);
      var rest := c.tokens[c.pos..];
      assert rest[0] == t && rest[1..] == c.tokens[c.pos + 1..];
      assert Next(c) == Ok(c1) by {
        assert AdvanceStep(c) == Ok(c1);
      }
      GetUntilStep(c, terminal, depth, taken, exception);
      GetUntilPastTheEnd(c1, terminal, depth + BracketStep(t), taken + [t], exception);
    }
  }

  /** Without a terminal outside brackets ahead, `GetUntil` runs off the end and throws. */
  lemma {:induction false} GetUntilWithoutTerminalThrows(c: Cursor, terminal: string, depth: int, taken: seq<string>,
                                                         exception: Option<Exception>)
    requires Valid(c) && NoTerminalFrom(c.tokens, c.pos, terminal)
    ensures GetUntilLoop(c, terminal, false, depth, taken, exception).Throw?
    decreases |c.tokens| - c.pos
  {
    if Done(c) {
      GetUntilStop(c, terminal, depth, taken, exception);
    } else {
      var t := c.tokens[c.pos];
      assert !StopsAt(t, terminal, depth);
      match Next(c)
      case Throw(_) =>
        GetUntilStep(c, terminal, depth, taken, exception);
      case Ok(next) =>
        NoTerminalFromLater(c.tokens, c.pos, next.pos, terminal);
        GetUntilWithoutTerminalThrows(next, terminal, depth + BracketStep(t), taken + [t], exception);
        GetUntilThrowsBack(c, terminal, depth, taken, exception, next);
    }
  }

  /** A throw after one step that does not end the loop is a throw of the whole loop. */
  lemma GetUntilThrowsBack(c: Cursor, terminal: string, depth: int, taken: seq<string>,
                           exception: Option<Exception>, next: Cursor)
    requires Valid(c) && !Done(c) && !StopsAt(c.tokens[c.pos], terminal, depth) && Next(c) == Ok(next)
    requires GetUntilLoop(next, terminal, false, depth + BracketStep(c.tokens[c.pos]), taken + [c.tokens[c.pos]], exception).Throw?
    ensures GetUntilLoop(c, terminal, false, depth, taken, exception).Throw?
  {
    GetUntilStep(c, terminal, depth, taken, exception);
  }

  /** No terminal from `from` on means none from any later place either. */
  lemma NoTerminalFromLater(tokens: seq<string>, from: nat, later: nat, terminal: string)
    requires from <= later <= |tokens| && NoTerminalFrom(tokens, from, terminal)
    ensures NoTerminalFrom(tokens, later, terminal)
  {
  }

  /** No token from `from` on matches the terminal. */
  predicate NoTerminalFrom(tokens: seq<string>, from: nat, terminal: string)
    requires from <= |tokens|
  {
    forall k :: from <= k < |tokens| ==> !IsMatch(tokens[k], terminal)
  }

  /** Opening minus closing angle brackets: the depth of namespace blocks. */
  function AngleDepth(ts: seq<string>): int {
    if |ts| == 0 then 0
    else AngleDepth(ts[..|ts| - 1]) + (if ts[|ts| - 1] == LANGLE then 1 else if ts[|ts| - 1] == RANGLE then -1 else 0)
  }

  /** The depth after the first `k` tokens. */
  function PrefixDepth(ts: seq<string>, k: nat): int
    requires k <= |ts|
  {
    AngleDepth(ts[..k])
  }

  /** Every prefix opens at least as many blocks as it closes. */
  ghost predicate NeverCloses(ts: seq<string>) {
    forall k :: 0 <= k <= |ts| ==> PrefixDepth(ts, k) >= 0
  }

  /** One more token moves the depth by its bracket, and keeps it from going negative while it stays positive. */
  lemma NeverClosesSnoc(taken: seq<string>, t: string)
    requires NeverCloses(taken) && AngleDepth(taken + [t]) >= 0
    ensures NeverCloses(taken + [t])
    ensures AngleDepth(taken + [t]) ==
      AngleDepth(taken) + (if t == LANGLE then 1 else if t == RANGLE then -1 else 0)
  {
    var taken' := taken + [t];
    assert taken'[..|taken|] == taken;
    forall k | 0 <= k <= |taken'|
      ensures PrefixDepth(taken', k) >= 0
    {
      if k <= |taken| {
        assert taken'[..k] == taken[..k];
        assert PrefixDepth(taken, k) >= 0;
      } else {
        assert taken'[..k] == taken';
      }
    }
  }

  const NamespaceStart := "Initial token of namespace must be DmlTokens.NS_START."

  /**
   * `GetNamespaceBlock`'s loop, with `depth` the number of open blocks. A
   * token with no next node ends the search: the given exception, or a
   * mismatched-delimiters error, when it is a token; the null node itself
   * is dereferenced.
   */
  function NamespaceLoop(c: Cursor, depth: int, taken: seq<string>, exception: Option<Exception>): (r: Result<(seq<string>, Cursor)>)
    requires Valid(c)
    requires depth == 1 + AngleDepth(taken) && depth >= 1
    requires NeverCloses(taken)
    ensures r.Ok? ==> Valid(r.value.1) && r.value.1.tokens == c.tokens
    ensures r.Ok? ==> !Done(r.value.1) && r.value.1.tokens[r.value.1.pos] == RANGLE
    ensures r.Ok? ==> AngleDepth(r.value.0) == 0 && NeverCloses(r.value.0)
    decreases |c.tokens| - c.pos
  {
    var current := CurrentToken(c);
    var depth' := if current == Some(LANGLE) then depth + 1 else if current == Some(RANGLE) then depth - 1 else depth;
    if current == Some(RANGLE) && depth' == 0 then Ok((taken, c))
    else if current.None? then Throw(NullReference)
    else if c.pos + 1 == |c.tokens| then Throw(exception.GetOr(DmlSyntax(MismatchedNamespaceDelimiters)))
    else
      var t := current.value;
      NeverClosesSnoc(taken, t);
      var c' :- Next(c);
      NamespaceLoop(c', depth', taken + [t], exception)
  }

  /**
   * `GetNamespaceBlock(reposition, exception)`: from a `<`, the tokens up to
   * the matching `>`, in which every `<` is closed by a later `>`.
   */
  function GetNamespaceBlock(c: Cursor, reposition: bool, exception: Option<Exception>): (r: Result<(seq<string>, Cursor)>)
    requires Valid(c)
    ensures CurrentToken(c) != Some(LANGLE) ==> r == Throw(ParserError(NamespaceStart))
    ensures r.Ok? ==> Valid(r.value.1) && r.value.1.tokens == c.tokens
    ensures r.Ok? && reposition ==> r.value.1.pos == c.pos
    ensures r.Ok? && !reposition ==> !Done(r.value.1) && r.value.1.tokens[r.value.1.pos] == RANGLE
    ensures r.Ok? ==> AngleDepth(r.value.0) == 0 && NeverCloses(r.value.0)
  {
    if CurrentToken(c) != Some(LANGLE) then Throw(ParserError(NamespaceStart))
    else
      var c1 :- Next(c);
      assert NeverCloses([]) by {
        var none: seq<string> := [];
        assert none[..0] == none;
      }
      var (taken, c') :- NamespaceLoop(c1, 1, [], exception);
      Ok((taken, if reposition then c'.(pos := c.pos) else c'))
  }

  /**
   * With no newline ahead and nothing expected, `GetNamespaceBlock`'s loop
   * stops on the `>` at `k` that closes the block: the tokens it returns are
   * exactly those from the cursor up to that `>`.
   */
  lemma {:induction false} NamespaceLoopSlice(c: Cursor, depth: int, taken: seq<string>,
                                              exception: Option<Exception>, k: nat, all: seq<string>)
    requires Valid(c) && c.expecting == [] && NoNewlineFrom(c.tokens, c.pos)
    requires depth == 1 + AngleDepth(taken) && depth >= 1 && NeverCloses(taken)
    requires c.pos <= k < |c.tokens| && c.tokens[k] == RANGLE
    requires all == taken + c.tokens[c.pos..k] && NeverCloses(all) && AngleDepth(all) == 0
    ensures NamespaceLoop(c, depth, taken, exception) == Ok((all, c.(pos := k)))
    decreases k - c.pos
  {
    if c.pos == k {
      NamespaceLoopHere(c, depth, taken, exception);
    } else {
      var t := c.tokens[c.pos];
      var c1 := c.(pos := c.pos + 1);
      NamespaceLoopMovesOn(c, depth, taken, exception, k, all);
      NamespaceLoopSlice(c1, 1 + AngleDepth(taken + [t]), taken + [t], exception, k, all);
    }
  }

  /** The `>` that closes the block: the loop stops on it with nothing more taken. */
  lemma NamespaceLoopHere(c: Cursor, depth: int, taken: seq<string>, exception: Option<Exception>)
    requires Valid(c) && c.pos < |c.tokens| && c.tokens[c.pos] == RANGLE
    requires depth == 1 + AngleDepth(taken) && depth >= 1 && NeverCloses(taken)
    requires AngleDepth(taken + c.tokens[c.pos..c.pos]) == 0
    ensures NamespaceLoop(c, depth, taken, exception) == Ok((taken + c.tokens[c.pos..c.pos], c.(pos := c.pos)))
  {
    assert taken + c.tokens[c.pos..c.pos] == taken;
    assert c.(pos := c.pos) == c;
  }

  /** One token before the closing `>`: the loop takes it and goes on from the next, toward the same result. */
  lemma NamespaceLoopMovesOn(c: Cursor, depth: int, taken: seq<string>, exception: Option<Exception>, k: nat,
                             all: seq<string>)
    requires Valid(c) && c.expecting == [] && NoNewlineFrom(c.tokens, c.pos)
    requires depth == 1 + AngleDepth(taken) && depth >= 1 && NeverCloses(taken)
    requires c.pos < k < |c.tokens|
    requires all == taken + c.tokens[c.pos..k] && NeverCloses(all)
    ensures var taken' := taken + [c.tokens[c.pos]];
      1 + AngleDepth(taken') >= 1 && NeverCloses(taken') && all == taken' + c.tokens[c.pos + 1..k] &&
      NamespaceLoop(c, depth, taken, exception) == NamespaceLoop(c.(pos := c.pos + 1), 1 + AngleDepth(taken'), taken', exception) &&
      c.(pos := c.pos + 1).(pos := k) == c.(pos := k)
  {
    NamespacePrefix(taken, c.tokens[c.pos..k]);
    SliceCons(taken, c.tokens, c.pos, k);
    NamespaceLoopUnfold(c, depth, taken, exception);
  }

  /** The first token of what follows a prefix that never closes keeps it from closing. */
  lemma NamespacePrefix(taken: seq<string>, rest: seq<string>)
    requires NeverCloses(taken) && |rest| > 0 && NeverCloses(taken + rest)
    ensures NeverCloses(taken + [rest[0]]) && AngleDepth(taken + [rest[0]]) >= 0
    ensures (taken + [rest[0]]) + rest[1..] == taken + rest
  {
    var full := taken + rest;
    FirstOfRest(taken, rest);
    assert PrefixDepth(full, |taken| + 1) >= 0;
    NeverClosesSnoc(taken, rest[0]);
  }

  /** A token that does not close the block and has a next token: the loop takes it and goes on. */
  lemma NamespaceLoopUnfold(c: Cursor, depth: int, taken: seq<string>, exception: Option<Exception>)
    requires Valid(c) && c.expecting == [] && c.pos + 1 < |c.tokens| && c.tokens[c.pos + 1] != NEWLINE
    requires depth == 1 + AngleDepth(taken) && depth >= 1 && NeverCloses(taken)
    requires NeverCloses(taken + [c.tokens[c.pos]]) && AngleDepth(taken + [c.tokens[c.pos]]) >= 0
    ensures var taken' := taken + [c.tokens[c.pos]];
      NamespaceLoop(c, depth, taken, exception) == NamespaceLoop(c.(pos := c.pos + 1), 1 + AngleDepth(taken'), taken', exception)
  {
    var t := c.tokens[c.pos];
    var c1 := c.(pos := c.pos + 1);
    NeverClosesSnoc(taken, t);
    assert Next(c) == Ok(c1) by {
      assert AdvanceStep(c) == Ok(c1);
    }
  }

  /**
   * When no `>` closes the block before the last token, the loop gives up on
   * that token: it throws the exception it was given, or a mismatched
   * delimiters error.
   */
  lemma {:induction false} NamespaceLoopRunsOut(c: Cursor, depth: int, taken: seq<string>, exception: Option<Exception>)
    requires Valid(c) && !Done(c) && c.expecting == [] && NoNewlineFrom(c.tokens, c.pos)
    requires depth == 1 + AngleDepth(taken) && depth >= 1 && NeverCloses(taken)
    requires NeverCloses(taken + c.tokens[c.pos..])
    ensures NamespaceLoop(c, depth, taken, exception) == Throw(exception.GetOr(DmlSyntax(MismatchedNamespaceDelimiters)))
    decreases |c.tokens| - c.pos
  {
    var t := c.tokens[c.pos];
    NamespacePrefix(taken, c.tokens[c.pos..]);
    if c.pos + 1 < |c.tokens| {
      NamespaceLoopUnfold(c, depth, taken, exception);
      assert c.tokens[c.pos..][1..] == c.tokens[c.pos + 1..];
      NamespaceLoopRunsOut(c.(pos := c.pos + 1), 1 + AngleDepth(taken + [t]), taken + [t], exception);
    }
  }

  /**
   * `GetNamespaceBlock` returns the tokens inside the block, without its
   * delimiters: from the `<` under the cursor to the `>` at `k` that brings
   * the depth back to zero.
   */
  lemma GetNamespaceBlockFinds(c: Cursor, reposition: bool, exception: Option<Exception>, k: nat)
    requires Valid(c) && !Done(c) && c.tokens[c.pos] == LANGLE
    requires c.expecting == [] && NoNewlineFrom(c.tokens, c.pos)
    requires c.pos < k < |c.tokens| && c.tokens[k] == RANGLE
    requires NeverCloses(c.tokens[c.pos + 1..k]) && AngleDepth(c.tokens[c.pos + 1..k]) == 0
    ensures GetNamespaceBlock(c, reposition, exception) ==
      Ok((c.tokens[c.pos + 1..k], if reposition then c else c.(pos := k)))
  {
    var c1 := c.(pos := c.pos + 1);
    assert Next(c) == Ok(c1) by {
      assert AdvanceStep(c) == Ok(c1);
    }
    var none: seq<string> := [];
    assert none[..0] == none;
    assert none + c.tokens[c.pos + 1..k] == c.tokens[c.pos + 1..k];
    NamespaceLoopSlice(c1, 1, none, exception, k, c.tokens[c.pos + 1..k]);
  }

  /**
   * Without the `>` that closes it, a block that does not end at its `<`
   * throws the given exception or a mismatched-delimiters error, and a `<`
   * that is the last token dereferences the null node.
   */
  lemma GetNamespaceBlockUnclosed(c: Cursor, reposition: bool, exception: Option<Exception>)
    requires Valid(c) && !Done(c) && c.tokens[c.pos] == LANGLE
    requires c.expecting == [] && NoNewlineFrom(c.tokens, c.pos)
    requires NeverCloses(c.tokens[c.pos + 1..])
    ensures GetNamespaceBlock(c, reposition, exception) ==
      if c.pos + 1 == |c.tokens| then Throw(NullReference)
      else Throw(exception.GetOr(DmlSyntax(MismatchedNamespaceDelimiters)))
  {
    var c1 := c.(pos := c.pos + 1);
    assert Next(c) == Ok(c1) by {
      assert AdvanceStep(c) == Ok(c1);
    }
    var none: seq<string> := [];
    assert none[..0] == none;
    if c.pos + 1 < |c.tokens| {
      assert none + c.tokens[c.pos + 1..] == c.tokens[c.pos + 1..];
      NamespaceLoopRunsOut(c1, 1, none, exception);
    }
  }

  // ---------------------------------------------------------------------------
  // ParseNext
  // ---------------------------------------------------------------------------

  /**
   * The part of `ParseNext` before `ProcessNext`: move off a newline token,
   * or over a token to skip, stop if that passed the end, then check the
   * expected token. The flag says whether `ProcessNext` runs.
   */
  function ParseNextPrelude(c: Cursor): (r: Result<(Cursor, bool)>)
    requires Valid(c)
    ensures r.Ok? ==> Valid(r.value.0) && r.value.0.tokens == c.tokens && c.pos <= r.value.0.pos
    ensures r.Ok? ==> (r.value.1 <==> !Done(r.value.0))
    ensures r.Ok? && r.value.1 && |c.expecting| > 0 && CurrentToken(c) != Some(NEWLINE) && c.skipNext <= 0 ==>
      r.value.0.expecting == c.expecting[1..] && IsMatch(c.tokens[c.pos], c.expecting[0])
  {
    var c1 :-
      if CurrentToken(c) == Some(NEWLINE) then Advance(c, 1, false, true, None)
      else if c.skipNext > 0 then Advance(c.(skipNext := c.skipNext - 1), 1, false, true, None)
      else Ok(c);
    if Done(c1) then Ok((c1, false))
    else if |c1.expecting| > 0 then
      var top := c1.expecting[0];
      if IsMatch(c1.tokens[c1.pos], top) then Ok((c1.(expecting := c1.expecting[1..]), true))
      else Throw(DmlSyntax(UnexpectedToken(top)))
    else Ok((c1, true))
  }

  /** The part of `ParseNext` after `ProcessNext`: a lenient step that may pass the end. */
  function ParseNextEpilogue(c: Cursor): (r: Result<Cursor>)
    requires Valid(c)
  {
    Advance(c, 1, false, false, None)
  }

  /**
   * With nothing expected the closing step never throws, and from a token it
   * always moves forward, so the loop of `Parse` reaches the end.
   */
  lemma EpilogueProgresses(c: Cursor)
    requires Valid(c) && c.expecting == []
    ensures ParseNextEpilogue(c).Ok?
    ensures !Done(c) ==> c.pos < ParseNextEpilogue(c).value.pos
    ensures Done(c) ==> ParseNextEpilogue(c).value == c
  {
    if !Done(c) {
      assert AdvanceStep(c).Ok?;
    }
  }
}
