/**
 * The statement-level helpers shared by the DML parsers (Dml/Parse/DmlParser.cs):
 * the test for expressions that evaluate without context, the header of a
 * `Range` statement, and the loop a `Range` statement is lowered to.
 *
 * A `Range` statement reads
 *
 *     Range name start ... end [\> step] < body >
 *
 * and becomes: the start, end and step code, each assigned to a local, a
 * label, the body, the increment of the loop variable, and a jump back to the
 * label while the variable is at most the end.
 */
module DmlParser {
  import opened Exceptions
  import opened DmlObjects
  import opened DmlTokens
  import opened Instructions
  import opened ParserCursor
  import opened InstructionCleaner
  import opened CodeBlocks
  import ExpressionBuilder

  // ---------------------------------------------------------------------------
  // IsSimpleConstant
  // ---------------------------------------------------------------------------

  /**
   * The instructions of the first pass that evaluate without locals,
   * globals, a bullet or a system: constant loads, calls, and the arithmetic.
   */
  predicate ConstantInstruction(instr: Instr) {
    match instr
    case LoadConstant(_) => true
    case CallFunction(_) => true
    case Apply(op) => op in {Add, Div, Mod, Mul, Pow, Sub, Abs, Neg}
    case _ => false
  }

  /**
   * The second pass on the call at `i`: the instruction before it must be a
   * constant load of a function, and the answer is whether that function is
   * pure. `expression[i - 1]` is outside the array for a call at 0; the cast
   * to `LoadConstant` and the cast of its value to `DmlFunction` fail on
   * anything else, and a null value fails when `IsPure` is read.
   */
  function CallIsPure(expression: seq<Instr>, i: nat): (r: Result<bool>)
    requires i < |expression| && expression[i].CallFunction?
  {
    if i == 0 then Throw(IndexOutOfRange)
    else
      match expression[i - 1]
      case LoadConstant(constant) =>
        (match constant
         case FunctionObj(fn) => Ok(fn.IsPure())
         case NoObject => Throw(NullReference)
         case NullObj => Throw(NullReference)
         case _ => Throw(InvalidCast))
      case _ => Throw(InvalidCast)
  }

  /** Every call before index `n` reads a pure function. */
  predicate PureCallsBefore(expression: seq<Instr>, n: nat)
    requires n <= |expression|
  {
    forall i :: 0 <= i < n && expression[i].CallFunction? ==> CallIsPure(expression, i) == Ok(true)
  }

  /**
   * `IsSimpleConstant`: false when some instruction is outside the constant
   * set; otherwise the calls are checked in order, and the first whose
   * function is impure gives false, or the first that is not preceded by a
   * constant function load throws.
   */
  method IsSimpleConstant(expression: seq<Instr>) returns (r: Result<bool>)
    ensures (exists i :: 0 <= i < |expression| && !ConstantInstruction(expression[i])) ==> r == Ok(false)
    ensures r == Ok(true) <==>
      (forall i :: 0 <= i < |expression| ==> ConstantInstruction(expression[i])) && PureCallsBefore(expression, |expression|)
    ensures r.Throw? ==>
      exists i :: 0 <= i < |expression| && expression[i].CallFunction? &&
        CallIsPure(expression, i) == Throw(r.exception) && PureCallsBefore(expression, i)
    ensures r == Ok(false) && (forall i :: 0 <= i < |expression| ==> ConstantInstruction(expression[i])) ==>
      exists i :: 0 <= i < |expression| && expression[i].CallFunction? &&
        CallIsPure(expression, i) == Ok(false) && PureCallsBefore(expression, i)
  {
    // First pass, basic instructions.
    var i := 0;
    while i < |expression|
      invariant 0 <= i <= |expression|
      invariant forall j :: 0 <= j < i ==> ConstantInstruction(expression[j])
    {
      if !ConstantInstruction(expression[i]) {
        return Ok(false);
      }
      i := i + 1;
    }
    // Second pass, pure functions.
    i := 0;
    while i < |expression|
      invariant 0 <= i <= |expression|
      invariant PureCallsBefore(expression, i)
    {
      if expression[i].CallFunction? {
        var pure := CallIsPure(expression, i);
        if pure.Throw? {
          return Throw(pure.exception);
        }
        if !pure.value {
          return Ok(false);
        }
      }
      i := i + 1;
    }
    return Ok(true);
  }

  // ---------------------------------------------------------------------------
  // The header of a Range statement
  // ---------------------------------------------------------------------------

  const BadRange := DmlSyntax(BadRangeStatement)

  /** `catch (ParserError) { throw badRange; }` around a read. */
  function CatchParserError<T>(r: Result<T>): (r': Result<T>)
    ensures r.Ok? ==> r' == r
    ensures r.Throw? && r.exception.ParserError? ==> r' == Throw(BadRange)
    ensures r.Throw? && !r.exception.ParserError? ==> r' == r
  {
    if r.Throw? && r.exception.ParserError? then Throw(BadRange) else r
  }

  /** `List.IndexOf`: the index of the first `t` in `ts`, or -1. */
  function IndexOf(ts: seq<string>, t: string): (k: int)
    ensures -1 <= k < |ts|
    ensures k == -1 <==> t !in ts
    ensures k >= 0 ==> ts[k] == t && t !in ts[..k]
  {
    if |ts| == 0 then -1
    else if ts[0] == t then 0
    else
      var k := IndexOf(ts[1..], t);
      assert ts == [ts[0]] + ts[1..];
      if k == -1 then -1
      else
        assert ts[..k + 1] == [ts[0]] + ts[1..][..k];
        k + 1
  }

  /**
   * The end tokens split at the first `\>` into the end and the step, with
   * the step `1` when there is no `\>`. A `\>` that is the last token throws,
   * and so does an empty end: `IndexOf` gives -1 there, which is also
   * `Count - 1`.
   */
  function SplitStep(endTokens: seq<string>): (r: Result<(seq<string>, seq<string>)>)
  {
    var stepIndex := IndexOf(endTokens, TRANSOP);
    if stepIndex == |endTokens| - 1 then Throw(BadRange)
    else if stepIndex != -1 then Ok((endTokens[..stepIndex], endTokens[stepIndex + 1..]))
    else Ok((endTokens, ["1"]))
  }

  /** `SplitStep` throws exactly on an empty end or a first `\>` in last place. */
  lemma SplitStepThrows(endTokens: seq<string>)
    ensures SplitStep(endTokens).Throw? <==>
      |endTokens| == 0 || (TRANSOP in endTokens && IndexOf(endTokens, TRANSOP) == |endTokens| - 1)
    ensures SplitStep(endTokens).Throw? ==> SplitStep(endTokens).exception == BadRange
  {
  }

  /**
   * Otherwise the end has no `\>`, and end, `\>` and step put back together
   * are the tokens; without `\>` the end is all of them and the step is `1`.
   */
  lemma SplitStepRejoins(endTokens: seq<string>)
    requires SplitStep(endTokens).Ok?
    ensures TRANSOP in endTokens ==>
      var (end, step) := SplitStep(endTokens).value;
      TRANSOP !in end && |step| > 0 && end + [TRANSOP] + step == endTokens
    ensures TRANSOP !in endTokens ==> SplitStep(endTokens).value == (endTokens, ["1"])
  {
    var k := IndexOf(endTokens, TRANSOP);
    if k >= 0 {
      var end := endTokens[..k];
      var step := endTokens[k + 1..];
      assert SplitStep(endTokens).value == (end, step);
      assert end + [TRANSOP] + step == endTokens;
    }
  }

  /** One strict step never throws a ParserError: it fails on a null node or a mismatch. */
  lemma NextNeverThrowsParserError(c: Cursor)
    requires Valid(c)
    ensures Next(c).Throw? ==> !Next(c).exception.ParserError?
  {
  }

  /** One step of `GetUntil`'s loop: the rest of the loop, or the step's own exception, never a ParserError. */
  lemma GetUntilStepNoParserError(c: Cursor, terminal: string, depth: int, taken: seq<string>)
    requires Valid(c) && !Done(c) && !StopsAt(c.tokens[c.pos], terminal, depth)
    ensures var r := GetUntilLoop(c, terminal, false, depth, taken, None);
      var t := c.tokens[c.pos];
      (Next(c).Ok? ==> r == GetUntilLoop(Next(c).value, terminal, false, depth + BracketStep(t), taken + [t], None)) &&
      (Next(c).Throw? ==> r.Throw? && !r.exception.ParserError?)
  {
    GetUntilStep(c, terminal, depth, taken, None);
    NextNeverThrowsParserError(c);
  }

  /**
   * `GetUntil` without an exception of its own throws only on the null node,
   * on a null token matched against a class, or on an unexpected token:
   * never a ParserError.
   */
  lemma {:induction false} GetUntilLoopNeverThrowsParserError(c: Cursor, terminal: string, depth: int,
                                                              taken: seq<string>)
    requires Valid(c)
    ensures var r := GetUntilLoop(c, terminal, false, depth, taken, None);
      r.Throw? ==> !r.exception.ParserError?
    decreases |c.tokens| - c.pos
  {
    if !Done(c) && !StopsAt(c.tokens[c.pos], terminal, depth) {
      GetUntilStepNoParserError(c, terminal, depth, taken);
      var next := Next(c);
      if next.Ok? {
        var t := c.tokens[c.pos];
        GetUntilLoopNeverThrowsParserError(next.value, terminal, depth + BracketStep(t), taken + [t]);
      }
    } else {
      GetUntilStop(c, terminal, depth, taken, None);
    }
  }

  /** So the `catch (ParserError)` around the reads of a `Range` header never fires. */
  lemma RangeCatchNeverFires(c: Cursor, terminal: string)
    requires Valid(c)
    ensures CatchParserError(GetUntil(c, terminal, false, false, None)) == GetUntil(c, terminal, false, false, None)
  {
    GetUntilLoopNeverThrowsParserError(c, terminal, 0, []);
  }

  /** What the header of a `Range` statement gives `ComplexRange`, and the cursor on the body. */
  datatype RangeHeader = RangeHeader(loopVariable: string, start: seq<Instr>, end: seq<Instr>, step: seq<Instr>,
                                     body: Cursor)

  /**
   * `ProcessRange` up to `ComplexRange`, from the cursor on the `Range`
   * keyword. Each `Advance(exception: badRange)` is one strict step. The
   * start is read up to `...` and the end up to `<`; the end is split at
   * `\>`; each part is compiled by an expression builder created at the
   * current line. The final step over `<` is taken only when the cursor is
   * on `<`, which a successful read up to `<` always leaves it on
   * (`EndReadStopsAtTheBlock`).
   */
  function ProcessRange(c: Cursor): (r: Result<RangeHeader>)
    requires Valid(c)
    ensures r.Ok? ==> IsName(r.value.loopVariable) && Valid(r.value.body) && r.value.body.tokens == c.tokens
  {
    var c1 :- Advance(c, 1, true, true, Some(BadRange));
    var isName :- IsNameNullable(CurrentToken(c1));
    if !isName then Throw(BadRange)
    else
      var loopVariable := c1.tokens[c1.pos];
      var c2 :- Advance(c1, 1, true, true, Some(BadRange));
      var startRead := CatchParserError(GetUntil(c2, ELLIPSES, false, false, None));
      if startRead.Throw? then Throw(startRead.exception)
      else RangeBounds(loopVariable, startRead.value.0, startRead.value.1)
  }

  /** The rest of `ProcessRange` once the start is read, with the cursor on `...`. */
  function RangeBounds(loopVariable: string, startTokens: seq<string>, c3: Cursor): (r: Result<RangeHeader>)
    requires Valid(c3)
    ensures r.Ok? ==> r.value.loopVariable == loopVariable && Valid(r.value.body) && r.value.body.tokens == c3.tokens
  {
    var start :- ExpressionBuilder.BuildExpression(startTokens, c3.line);
    var c4 :- Advance(c3, 1, true, true, Some(BadRange));
    var endRead := CatchParserError(GetUntil(c4, LANGLE, false, false, None));
    if endRead.Throw? then Throw(endRead.exception)
    else
      var c5 := endRead.value.1;
      var split :- SplitStep(endRead.value.0);
      var end :- ExpressionBuilder.BuildExpression(split.0, c5.line);
      var step :- ExpressionBuilder.BuildExpression(split.1, c5.line);
      var c6 :- if CurrentToken(c5) == Some(LANGLE) then Advance(c5, 1, true, true, None) else Ok(c5);
      Ok(RangeHeader(loopVariable, start, end, step, c6))
  }

  /** A `Range` keyword with nothing after it dereferences the null token when it checks for a name. */
  lemma RangeAtTheEnd(c: Cursor)
    requires Valid(c) && c.pos + 1 == |c.tokens| && c.expecting == []
    ensures ProcessRange(c) == Throw(ArgumentNull)
  {
    ExpressionBuilder.StepOverToken(c, Some(BadRange));
  }

  /** A `Range` whose loop variable is not a name throws BadRangeStatement. */
  lemma RangeNeedsAName(c: Cursor)
    requires Valid(c)
    requires var c1 := Advance(c, 1, true, true, Some(BadRange));
      c1.Ok? && !Done(c1.value) && !IsName(c1.value.tokens[c1.value.pos])
    ensures ProcessRange(c) == Throw(BadRange)
  {
  }

  /** A successful read up to `<` stops on the `<`. */
  lemma EndReadStopsAtTheBlock(c: Cursor)
    requires Valid(c) && GetUntil(c, LANGLE, false, false, None).Ok?
    ensures CurrentToken(GetUntil(c, LANGLE, false, false, None).value.1) == Some(LANGLE)
  {
  }

  /**
   * On a header `Range v start ... end < ...` with no newline and nothing
   * expected, where `...` at `a` and `<` at `b` are the first of their kind
   * outside brackets, `ProcessRange` compiles exactly the tokens between
   * the name and `...` as the start, and the tokens between `...` and `<`,
   * split at `\>`, as the end and the step; the body starts after the `<`.
   */
  lemma RangeReadsItsSlices(c: Cursor, a: nat, b: nat)
    requires Valid(c) && c.expecting == [] && NoNewlineFrom(c.tokens, c.pos)
    requires c.pos + 2 <= a < b < |c.tokens| && IsName(c.tokens[c.pos + 1])
    requires NoStopIn(c.tokens[c.pos + 2..a], ELLIPSES, 0)
    requires StopsAt(c.tokens[a], ELLIPSES, BracketDepth(c.tokens[c.pos + 2..a]))
    requires NoStopIn(c.tokens[a + 1..b], LANGLE, 0)
    requires StopsAt(c.tokens[b], LANGLE, BracketDepth(c.tokens[a + 1..b]))
    ensures ProcessRange(c) ==
      var start :- ExpressionBuilder.BuildExpression(c.tokens[c.pos + 2..a], c.line);
      var split :- SplitStep(c.tokens[a + 1..b]);
      var end :- ExpressionBuilder.BuildExpression(split.0, c.line);
      var step :- ExpressionBuilder.BuildExpression(split.1, c.line);
      Ok(RangeHeader(c.tokens[c.pos + 1], start, end, step, c.(pos := b + 1)))
  {
    RangeHeaderReads(c, a);
    RangeBoundsReads(c, a, b);
  }

  /** The first half of `RangeReadsItsSlices`, up to the cursor on `...`. */
  lemma RangeHeaderReads(c: Cursor, a: nat)
    requires Valid(c) && c.expecting == [] && NoNewlineFrom(c.tokens, c.pos)
    requires c.pos + 2 <= a < |c.tokens| && IsName(c.tokens[c.pos + 1])
    requires NoStopIn(c.tokens[c.pos + 2..a], ELLIPSES, 0)
    requires StopsAt(c.tokens[a], ELLIPSES, BracketDepth(c.tokens[c.pos + 2..a]))
    ensures ProcessRange(c) == RangeBounds(c.tokens[c.pos + 1], c.tokens[c.pos + 2..a], c.(pos := a))
  {
    var c1 := c.(pos := c.pos + 1);
    var c2 := c.(pos := c.pos + 2);
    AdvanceWithoutNewlines(c, 1, true, true, Some(BadRange));
    assert Advance(c, 1, true, true, Some(BadRange)) == Ok(c1);
    assert IsNameNullable(CurrentToken(c1)) == Ok(true);
    AdvanceWithoutNewlines(c1, 1, true, true, Some(BadRange));
    assert Advance(c1, 1, true, true, Some(BadRange)) == Ok(c2);
    GetUntilFinds(c2, ELLIPSES, false, None, a);
    assert CatchParserError(GetUntil(c2, ELLIPSES, false, false, None)) == Ok((c.tokens[c.pos + 2..a], c.(pos := a)));
  }

  /** The second half of `RangeReadsItsSlices`, from the cursor on `...`. */
  lemma RangeBoundsReads(c: Cursor, a: nat, b: nat)
    requires Valid(c) && c.expecting == [] && NoNewlineFrom(c.tokens, c.pos)
    requires c.pos + 2 <= a < b < |c.tokens|
    requires NoStopIn(c.tokens[a + 1..b], LANGLE, 0)
    requires StopsAt(c.tokens[b], LANGLE, BracketDepth(c.tokens[a + 1..b]))
    ensures RangeBounds(c.tokens[c.pos + 1], c.tokens[c.pos + 2..a], c.(pos := a)) ==
      var start :- ExpressionBuilder.BuildExpression(c.tokens[c.pos + 2..a], c.line);
      var split :- SplitStep(c.tokens[a + 1..b]);
      var end :- ExpressionBuilder.BuildExpression(split.0, c.line);
      var step :- ExpressionBuilder.BuildExpression(split.1, c.line);
      Ok(RangeHeader(c.tokens[c.pos + 1], start, end, step, c.(pos := b + 1)))
  {
    RangeBoundsMoves(c, a, b);
  }

  /** The cursor moves of `RangeBounds` on such a header, one by one. */
  lemma RangeBoundsMoves(c: Cursor, a: nat, b: nat)
    requires Valid(c) && c.expecting == [] && NoNewlineFrom(c.tokens, c.pos)
    requires c.pos <= a < b < |c.tokens|
    requires NoStopIn(c.tokens[a + 1..b], LANGLE, 0)
    requires StopsAt(c.tokens[b], LANGLE, BracketDepth(c.tokens[a + 1..b]))
    ensures Advance(c.(pos := a), 1, true, true, Some(BadRange)) == Ok(c.(pos := a + 1))
    ensures CatchParserError(GetUntil(c.(pos := a + 1), LANGLE, false, false, None)) ==
      Ok((c.tokens[a + 1..b], c.(pos := b)))
    ensures CurrentToken(c.(pos := b)) == Some(LANGLE)
    ensures Advance(c.(pos := b), 1, true, true, None) == Ok(c.(pos := b + 1))
  {
    AdvanceWithoutNewlines(c.(pos := a), 1, true, true, Some(BadRange));
    GetUntilFinds(c.(pos := a + 1), LANGLE, false, None, b);
    assert StopsAt(c.tokens[b], LANGLE, 0);
    AdvanceWithoutNewlines(c.(pos := b), 1, true, true, None);
  }

  // ---------------------------------------------------------------------------
  // ComplexRange
  // ---------------------------------------------------------------------------

  /** The private local holding the end value of the loop labelled `loopName`. */
  function EndName(loopName: string): string {
    "#" + loopName + "_end"
  }

  /** The private local holding the step of the loop labelled `loopName`. */
  function StepName(loopName: string): string {
    "#" + loopName + "_step"
  }

  /** The code before the label: start, end and step, each assigned to its local. */
  function RangeSetup(loopName: string, loopVariable: string, start: seq<Instr>, end: seq<Instr>, step: seq<Instr>)
    : (r: seq<Instr>)
    ensures |r| == |start| + |end| + |step| + 3
  {
    start + [AssignLocal(loopVariable)] + end + [AssignLocal(EndName(loopName))] + step +
      [AssignLocal(StepName(loopName))]
  }

  /** The code after the body: add the step to the variable, and jump back while it is at most the end. */
  function RangeLatch(loopName: string, loopVariable: string): (r: seq<Instr>)
    ensures |r| == 7 && r[6].JumpIfLessThanOrEqual?
  {
    [LoadLocal(loopVariable), LoadLocal(StepName(loopName)), Apply(Add), AssignLocal(loopVariable),
     LoadLocal(loopVariable), LoadLocal(EndName(loopName)), JumpIfLessThanOrEqual(loopName, 0)]
  }

  /**
   * `ComplexRange` appending to the instructions so far. The label name is
   * random in the C# code and a parameter here; `body` is the code the
   * parser emits for the statements between the delimiters.
   */
  function ComplexRange(before: seq<Instr>, loopName: string, loopVariable: string,
                        start: seq<Instr>, end: seq<Instr>, step: seq<Instr>, body: seq<Instr>): (r: seq<Instr>)
    ensures |r| == |before| + |start| + |end| + |step| + |body| + 11
  {
    before + RangeSetup(loopName, loopVariable, start, end, step) + [Label(loopName)] + body +
      RangeLatch(loopName, loopVariable)
  }

  /**
   * Once the block is cleaned, the jump that closes the loop targets the
   * loop's label, right after the setup, provided the code before the label
   * holds no label of the same name. The body may hold one: the jump still
   * finds the first.
   */
  lemma ComplexRangeJumpsToItsLabel(before: seq<Instr>, loopName: string, loopVariable: string,
                                    start: seq<Instr>, end: seq<Instr>, step: seq<Instr>, body: seq<Instr>)
    requires Label(loopName) !in before + start + end + step
    ensures var code := ComplexRange(before, loopName, loopVariable, start, end, step, body);
      var at := |before| + |start| + |end| + |step| + 3;
      code[at] == Label(loopName) &&
      FoldLabels(code)[|code| - 1] == JumpIfLessThanOrEqual(loopName, at)
  {
    var code := ComplexRange(before, loopName, loopVariable, start, end, step, body);
    var setup := RangeSetup(loopName, loopVariable, start, end, step);
    var at := |before| + |start| + |end| + |step| + 3;
    var head := before + setup;
    assert code == head + ([Label(loopName)] + body + RangeLatch(loopName, loopVariable));
    assert code[..at] == head;
    assert Label(loopName) !in setup by {
      forall j | 0 <= j < |setup| ensures setup[j] != Label(loopName) {
        if setup[j].Label? {
          assert setup[j] in start + end + step by {
            SetupLabelsComeFromTheCode(loopName, loopVariable, start, end, step, j);
          }
        }
      }
    }
    assert Label(loopName) !in head;
    LabelFoundAt(code, at, loopName);
    FoldLabelsResolvesJumps(code);
  }

  /** A label of the setup is one of the expressions' instructions. */
  lemma SetupLabelsComeFromTheCode(loopName: string, loopVariable: string, start: seq<Instr>, end: seq<Instr>,
                                   step: seq<Instr>, j: nat)
    requires j < |RangeSetup(loopName, loopVariable, start, end, step)|
    requires RangeSetup(loopName, loopVariable, start, end, step)[j].Label?
    ensures RangeSetup(loopName, loopVariable, start, end, step)[j] in start + end + step
  {
    var setup := RangeSetup(loopName, loopVariable, start, end, step);
    var a := |start|;
    var b := a + 1 + |end|;
    if j < a {
      assert setup[j] == start[j] == (start + end + step)[j];
    } else if a < j < b {
      assert setup[j] == end[j - a - 1] == (start + end + step)[j - 1];
    } else if b < j < b + 1 + |step| {
      assert setup[j] == step[j - b - 1] == (start + end + step)[j - 2];
    }
  }

  /** The first label of a name is at `at` when the code before `at` has none. */
  lemma LabelFoundAt(code: seq<Instr>, at: nat, name: string)
    requires at < |code| && code[at] == Label(name) && Label(name) !in code[..at]
    ensures FindLabel(code, name) == at
  {
    var k := FindLabel(code, name);
    assert forall j :: 0 <= j < at ==> code[j] != Label(name) by {
      forall j | 0 <= j < at ensures code[j] != Label(name) { assert code[..at][j] == code[j]; }
    }
    assert forall j :: 0 <= j < k ==> code[j] != Label(name) by {
      forall j | 0 <= j < k ensures code[j] != Label(name) { assert code[..k][j] == code[j]; }
    }
  }

  /**
   * Run on the cleaned block, the closing jump pops the end value and the
   * variable and moves to the label exactly when the variable is at most the
   * end; the label is a no-op, so the body runs again.
   */
  lemma RangeLoopsWhileInRange(before: seq<Instr>, loopName: string, loopVariable: string,
                               start: seq<Instr>, end: seq<Instr>, step: seq<Instr>, body: seq<Instr>,
                               m: Machine, other: Other)
    requires Label(loopName) !in before + start + end + step
    requires |m.stack| >= 2 && AsDouble(m.stack[0]).Ok? && AsDouble(m.stack[1]).Ok?
    ensures var code := FoldLabels(ComplexRange(before, loopName, loopVariable, start, end, step, body));
      var at := |before| + |start| + |end| + |step| + 3;
      var r := Perform(m, code[|code| - 1], other);
      r.Ok? && r.value.stack == m.stack[2..] &&
      r.value.position == (if AtMost(AsDouble(m.stack[1]).value, AsDouble(m.stack[0]).value) then at else m.position) &&
      code[at] == Label(loopName)
  {
    var raw := ComplexRange(before, loopName, loopVariable, start, end, step, body);
    ComplexRangeJumpsToItsLabel(before, loopName, loopVariable, start, end, step, body);
    FoldLabelsResolvesJumps(raw);
  }
}
