/**
 * The expression builder (Dml/Parse/ExpressionBuilder.cs): a parser over the
 * tokens of one expression that reads each token, turns it into a shunting-
 * yard event and applies the event to the builder (module ShuntingYard).
 *
 * A name followed by `(` is a function call. Its arguments are split off at
 * the commas outside nested parentheses, and each is compiled by a builder
 * of its own. The call's code is then one operand: the arguments' code, the
 * load of the function, and `CallFunction` with the number of arguments.
 * The builder functions are mutually recursive through the arguments; every
 * argument is shorter than the expression it came from.
 */
module ExpressionBuilder {
  import opened Exceptions
  import opened DmlObjects
  import opened DmlTokens
  import opened Instructions
  import opened ParserCursor
  import opened ShuntingYard
  import BuiltinsDict

  // ---------------------------------------------------------------------------
  // Helpers for single tokens
  // ---------------------------------------------------------------------------

  /** A newline token is neither a name nor a builtin. */
  lemma NewlineIsNoName()
    ensures !MatchesUqName(NEWLINE) && !IsBuiltin(NEWLINE)
  {
  }

  /** The intrinsic properties `$` can read (the switch has no case for Sprite). */
  function LoadedIntrinsic(name: string): Option<Intrinsic> {
    if name == INTRINSIC_DIRECTION then Some(Direction)
    else if name == INTRINSIC_SPEED then Some(Speed)
    else if name == INTRINSIC_COLOUR then Some(Colour)
    else if name == INTRINSIC_ORIGIN then Some(Origin)
    else if name == INTRINSIC_POSITION then Some(Position)
    else if name == INTRINSIC_VELOCITY then Some(Velocity)
    else if name == INTRINSIC_TIME then Some(Time)
    else None
  }

  predicate AllDigitChars(s: string) {
    forall i :: 0 <= i < |s| ==> IsDigit(s[i])
  }

  /** The value of a run of decimal digits. */
  function DigitsValue(s: string): nat
    requires AllDigitChars(s)
  {
    if |s| == 0 then 0 else 10 * DigitsValue(s[..|s| - 1]) + (s[|s| - 1] as int - '0' as int)
  }

  function Power10(n: nat): (r: nat)
    ensures r > 0
  {
    if n == 0 then 1 else 10 * Power10(n - 1)
  }

  /** The index of the first `.` of `s`, or `|s|` when there is none. */
  function DotIndex(s: string): (k: nat)
    ensures k <= |s| && (k < |s| ==> s[k] == '.')
    ensures forall i :: 0 <= i < k ==> s[i] != '.'
  {
    if |s| == 0 then 0
    else if s[0] == '.' then 0
    else 1 + DotIndex(s[1..])
  }

  /** The value of `whole.fraction`; an empty fraction adds nothing. */
  function DecimalValue(whole: string, fraction: string): (r: real)
    requires AllDigitChars(whole) && AllDigitChars(fraction)
    ensures |fraction| == 0 ==> r == DigitsValue(whole) as real
  {
    DigitsValue(whole) as real + DigitsValue(fraction) as real / Power10(|fraction|) as real
  }

  /**
   * `Double.Parse` on the number tokens: digits with at most one point, and
   * at least one digit on either side of it, give their exact value; any
   * other text is a format error.
   */
  function ParseNumber(t: string): Result<real> {
    var dot := DotIndex(t);
    var whole := t[..dot];
    var fraction := if dot < |t| then t[dot + 1..] else "";
    if AllDigitChars(whole) && AllDigitChars(fraction) && (|whole| > 0 || |fraction| > 0) then
      Ok(DecimalValue(whole, fraction))
    else Throw(Format)
  }

  // ---------------------------------------------------------------------------
  // Reading a name
  // ---------------------------------------------------------------------------

  /**
   * The load instruction of the name branch of `ProcessNext`: `@name` is a
   * global, `$name` an intrinsic property or an instance-bound variable, a
   * plain name a local, and anything else a builtin constant. The cursor is
   * left on the name.
   */
  function NameLoad(c: Cursor): (r: Result<(Cursor, Instr)>)
    requires Valid(c) && !Done(c)
    ensures r.Ok? ==> Valid(r.value.0) && r.value.0.tokens == c.tokens && c.pos <= r.value.0.pos
    ensures r.Ok? ==> !Done(r.value.0) && r.value.0.tokens[r.value.0.pos] != NEWLINE
  {
    NewlineIsNoName();
    var t := c.tokens[c.pos];
    if t == AT then
      var c1 :- Advance(c, 1, true, true, Some(DmlSyntax(GlobalWithoutName)));
      var isName :- IsNameNullable(CurrentToken(c1));
      if !isName then Throw(DmlSyntax(InvalidName(c1.tokens[c1.pos])))
      else Ok((c1, LoadGlobal(c1.tokens[c1.pos])))
    else if t == DOLLAR then
      var c1 :- Advance(c, 1, true, true, Some(DmlSyntax(InstanceWithoutName)));
      var isName :- IsNameNullable(CurrentToken(c1));
      if !isName then Throw(DmlSyntax(InvalidName(c1.tokens[c1.pos])))
      else
        var name := c1.tokens[c1.pos];
        var intrinsic := LoadedIntrinsic(name);
        Ok((c1, if intrinsic.Some? then LoadIntrinsic(intrinsic.value) else LoadInstanceBound(name)))
    else if IsName(t) then Ok((c, LoadLocal(t)))
    else
      match BuiltinsDict.Lookup(t)
      case Some(v) => Ok((c, LoadConstant(v)))
      case None => Throw(KeyNotFound)
  }

  /**
   * One step forward from a token that is not a newline, then one step
   * back, never lands before the token.
   */
  lemma StepBackLandsNoEarlier(c: Cursor)
    requires Valid(c) && !Done(c) && c.tokens[c.pos] != NEWLINE && c.pos + 1 < |c.tokens|
    ensures var a := Advance(c, 1, true, true, None);
      a.Ok? ==> var r := ParserCursor.Reverse(a.value, 1, true, None);
        r.Ok? ==> c.pos <= r.value.pos
  {
    var a := Advance(c, 1, true, true, None);
    if a.Ok? {
      var p := c.pos + 1;
      if c.tokens[p] == NEWLINE {
        assert a.value.pos == p + 1;
      } else {
        assert a.value.pos == p;
      }
    }
  }

  /** Every argument has fewer than `n` tokens. */
  predicate Shorter(subs: seq<seq<string>>, n: nat) {
    forall i :: 0 <= i < |subs| ==> |subs[i]| < n
  }

  lemma ShorterAppend(subs: seq<seq<string>>, s: seq<string>, n: nat)
    requires Shorter(subs, n) && |s| < n
    ensures Shorter(subs + [s], n)
  {
  }

  /**
   * The tokens of a call's argument list, up to the `)` that closes it:
   * `depth` counts the open parentheses, `subs` holds the arguments ended by
   * a comma outside nested parentheses, `current` the tokens of the argument
   * being read. An empty last argument is dropped; reading past the last
   * token appends the null token, which the next step dereferences.
   */
  function CollectArguments(c: Cursor, depth: int, subs: seq<seq<string>>, current: seq<string>)
    : (r: Result<(seq<seq<string>>, Cursor)>)
    requires Valid(c) && depth >= 1
    requires |current| < c.pos && Shorter(subs, c.pos)
    ensures r.Ok? ==> Valid(r.value.1) && r.value.1.tokens == c.tokens && c.pos < r.value.1.pos
    ensures r.Ok? ==> !Done(r.value.1) && r.value.1.tokens[r.value.1.pos] == RPAR
    ensures r.Ok? ==> Shorter(r.value.0, |c.tokens|)
    decreases |c.tokens| - c.pos
  {
    var next := Advance(c, 1, true, true, Some(DmlSyntax(MismatchedCallBrackets)));
    if next.Throw? then Throw(next.exception)
    else
      var c1 := next.value;
      if Done(c1) then Throw(NullReference)
      else
        var t := c1.tokens[c1.pos];
        var depth' := if t == LPAR then depth + 1 else if t == RPAR then depth - 1 else depth;
        if t == COMMA && depth == 1 then
          ShorterAppend(subs, current, c1.pos);
          CollectArguments(c1, depth, subs + [current], [])
        else if depth' == 0 then
          ShorterAppend(subs, current, c1.pos);
          Ok((if |current| > 0 then subs + [current] else subs, c1))
        else CollectArguments(c1, depth', subs, current + [t])
  }

  // ---------------------------------------------------------------------------
  // The builder
  // ---------------------------------------------------------------------------

  /**
   * A name that is followed by `(` is called; otherwise the cursor steps
   * back and the name is loaded.
   */
  function CallOrLoad(c: Cursor, load: Instr): (r: Result<(Cursor, Event)>)
    requires Valid(c) && !Done(c) && c.tokens[c.pos] != NEWLINE
    ensures r.Ok? ==> Valid(r.value.0) && r.value.0.tokens == c.tokens && c.pos <= r.value.0.pos
    ensures r.Ok? ==> r.value.1.Operand?
    decreases |c.tokens|, 2, 0
  {
    if NextToken(c).None? then Ok((c, Operand([load])))
    else
      var c2 :- Advance(c, 1, true, true, None);
      if CurrentToken(c2) == Some(LPAR) then ParseFuncCall(c2, load)
      else
        StepBackLandsNoEarlier(c);
        var c3 :- ParserCursor.Reverse(c2, 1, true, None);
        Ok((c3, Operand([load])))
  }

  /**
   * `ParseFuncCall(load)` from the `(`: the code of the arguments in order,
   * then the load of the function, then the call with the argument count.
   */
  function ParseFuncCall(c: Cursor, load: Instr): (r: Result<(Cursor, Event)>)
    requires Valid(c) && !Done(c) && c.pos >= 1
    ensures r.Ok? ==> Valid(r.value.0) && r.value.0.tokens == c.tokens && c.pos <= r.value.0.pos
    ensures r.Ok? ==> r.value.1.Operand?
    ensures r.Ok? ==> var code := r.value.1.load;
      |code| >= 2 && code[|code| - 2] == load && code[|code| - 1].CallFunction?
    decreases |c.tokens|, 1, 0
  {
    var collected := CollectArguments(c, 1, [], []);
    if collected.Throw? then Throw(collected.exception)
    else
      var subs := collected.value.0;
      var closing := collected.value.1;
      var code :- BuildArguments(subs, |c.tokens|, closing.line);
      Ok((closing, Operand(code + [load, CallFunction(|subs|)])))
  }

  /** Each argument compiled by a new builder, the code concatenated in order. */
  function BuildArguments(subs: seq<seq<string>>, bound: nat, line: int): (r: Result<seq<Instr>>)
    requires Shorter(subs, bound)
    decreases bound, 0, |subs|
  {
    if |subs| == 0 then Ok([])
    else
      var first :- BuildExpression(subs[0], line);
      var rest :- BuildArguments(subs[1..], bound, line);
      Ok(first + rest)
  }

  /**
   * What `ProcessNext` makes of the current token, in the order of its
   * tests. The second tests for True, False and Null after the number test
   * can never succeed and are left out.
   */
  function NextEvent(c: Cursor): (r: Result<(Cursor, Event)>)
    requires Valid(c) && !Done(c)
    ensures r.Ok? ==> Valid(r.value.0) && r.value.0.tokens == c.tokens && c.pos <= r.value.0.pos
    decreases |c.tokens|, 3, 0
  {
    var t := c.tokens[c.pos];
    if t == AT || t == DOLLAR || IsNonKeywordName(t) || IsBuiltin(t) then
      var named := NameLoad(c);
      if named.Throw? then Throw(named.exception)
      else CallOrLoad(named.value.0, named.value.1)
    else if t == KW_TRUE then Ok((c, Operand([LoadConstant(BoolObj(true))])))
    else if t == KW_FALSE then Ok((c, Operand([LoadConstant(BoolObj(false))])))
    else if t == KW_NULL then Ok((c, Operand([LoadConstant(NullObj)])))
    else if t == LPAR then Ok((c, Open))
    else if t == RPAR then Ok((c, Close))
    else if IsOperatorToken(t) then Ok((c, Operator(OperationOf(t).value)))
    else if IsNumber(t) then
      var n :- ParseNumber(t);
      Ok((c, Operand([LoadConstant(NumberObj(n))])))
    else
      var isString :- IsString(t);
      if isString then Ok((c, Operand([LoadConstant(StringObj(t))])))
      else if t == KW_LAMBDA then Throw(NotImplemented)
      else Throw(DmlSyntax(InvalidTokenForContext(t, "expression")))
  }

  /** `ProcessNext`: read the current token and apply its event to the builder. */
  function ProcessNext(c: Cursor, b: Builder): (r: Result<(Cursor, Builder)>)
    requires Valid(c) && !Done(c)
    ensures r.Ok? ==> Valid(r.value.0) && r.value.0.tokens == c.tokens && c.pos <= r.value.0.pos
    decreases |c.tokens|, 4, 0
  {
    var read := NextEvent(c);
    if read.Throw? then Throw(read.exception)
    else
      var b' :- Step(b, read.value.1);
      Ok((read.value.0, b'))
  }

  /** The closing step of `ParseNext` always moves a cursor that is on a token. */
  lemma EpilogueMoves(c: Cursor)
    requires Valid(c)
    ensures ParseNextEpilogue(c).Ok? && !Done(c) ==> c.pos < ParseNextEpilogue(c).value.pos
  {
  }

  /** The loop of `Parse`: `ParseNext` until the cursor passes the last token. */
  function ParseLoop(c: Cursor, b: Builder): (r: Result<Builder>)
    requires Valid(c)
    decreases |c.tokens|, 5, |c.tokens| - c.pos
  {
    if Done(c) then Ok(b)
    else
      var pre := ParseNextPrelude(c);
      if pre.Throw? then Throw(pre.exception)
      else if !pre.value.1 then Ok(b)
      else
        var processed := ProcessNext(pre.value.0, b);
        if processed.Throw? then Throw(processed.exception)
        else
          var c1 := processed.value.0;
          var moved := ParseNextEpilogue(c1);
          if moved.Throw? then Throw(moved.exception)
          else
            EpilogueMoves(c1);
            ParseLoop(moved.value, processed.value.1)
  }

  /**
   * `new ExpressionBuilder(tokens, line)`, `Parse()` and `GetResult()`: the
   * postfix code of the expression.
   */
  function BuildExpression(tokens: seq<string>, line: int): (r: Result<seq<Instr>>)
    decreases |tokens|, 6, 0
  {
    var b :- ParseLoop(New(tokens, line), Empty);
    PostParse(b)
  }

  // ---------------------------------------------------------------------------
  // The builder is a shunting-yard run
  // ---------------------------------------------------------------------------

  /**
   * The events `Parse` reads from the tokens at `c`, in order. Reading an
   * event does not depend on the builder, so the events are a function of
   * the tokens alone.
   */
  function EventStream(c: Cursor): (r: Result<seq<Event>>)
    requires Valid(c)
    decreases |c.tokens| - c.pos
  {
    if Done(c) then Ok([])
    else
      var pre := ParseNextPrelude(c);
      if pre.Throw? then Throw(pre.exception)
      else if !pre.value.1 then Ok([])
      else
        var read := NextEvent(pre.value.0);
        if read.Throw? then Throw(read.exception)
        else
          var moved := ParseNextEpilogue(read.value.0);
          if moved.Throw? then Throw(moved.exception)
          else
            EpilogueMoves(read.value.0);
            var rest :- EventStream(moved.value);
            Ok([read.value.1] + rest)
  }

  /**
   * `Parse` is the shunting-yard run over the token events: whenever the
   * parse loop succeeds, the events could be read and running them from the
   * same builder gives the same builder.
   */
  lemma {:induction false} ParseLoopRuns(c: Cursor, b: Builder)
    requires Valid(c) && ParseLoop(c, b).Ok?
    ensures EventStream(c).Ok? && Run(b, EventStream(c).value) == ParseLoop(c, b)
    decreases |c.tokens| - c.pos
  {
    if !Done(c) {
      var pre := ParseNextPrelude(c);
      if pre.value.1 {
        var read := NextEvent(pre.value.0);
        var b' := Step(b, read.value.1).value;
        var moved := ParseNextEpilogue(read.value.0);
        EpilogueMoves(read.value.0);
        assert ParseLoop(c, b) == ParseLoop(moved.value, b') by {
          assert ProcessNext(pre.value.0, b) == Ok((read.value.0, b'));
        }
        ParseLoopRuns(moved.value, b');
        var rest := EventStream(moved.value).value;
        assert EventStream(c) == Ok([read.value.1] + rest);
        RunCons(b, read.value.1, rest);
      }
    }
  }

  /**
   * The code of an expression holds the operands' code in the order the
   * tokens bring it; everything else in it is an operator application.
   */
  lemma BuildExpressionKeepsOperandOrder(tokens: seq<string>, line: int)
    requires BuildExpression(tokens, line).Ok?
    ensures EventStream(New(tokens, line)).Ok?
    ensures Operands(BuildExpression(tokens, line).value) == OperandsOf(EventStream(New(tokens, line)).value)
  {
    var c := New(tokens, line);
    var b := ParseLoop(c, Empty).value;
    ParseLoopRuns(c, Empty);
    RunKeepsOperandOrder(Empty, EventStream(c).value);
    PostParseAddsNoOperand(b);
  }

  // ---------------------------------------------------------------------------
  // What each kind of token becomes
  // ---------------------------------------------------------------------------

  /** One step from a token that no newline follows lands on the next node. */
  lemma StepOverToken(c: Cursor, exception: Option<Exception>)
    requires Valid(c) && !Done(c) && c.expecting == []
    requires c.pos + 1 < |c.tokens| ==> c.tokens[c.pos + 1] != NEWLINE
    ensures Advance(c, 1, true, true, exception) == Ok(c.(pos := c.pos + 1))
  {
    assert AdvanceStep(c) == Ok(c.(pos := c.pos + 1));
    assert AdvanceLoop(c.(pos := c.pos + 1), 0, true) == Ok((c.(pos := c.pos + 1), -1));
  }

  /** One step back onto a token that is not a newline. */
  lemma StepBackOntoToken(c: Cursor)
    requires Valid(c) && c.pos + 1 < |c.tokens| && c.tokens[c.pos] != NEWLINE
    ensures ParserCursor.Reverse(c.(pos := c.pos + 1), 1, true, None) == Ok(c)
  {
    assert ReverseLoop(c, 0) == Ok((c, -1));
  }

  /**
   * `@` loads the global named by the next token. With nothing after the
   * `@`, the name check dereferences the null token; a next token that is
   * not a name is reported by name.
   */
  lemma GlobalNameLoad(c: Cursor)
    requires Valid(c) && !Done(c) && c.tokens[c.pos] == AT && c.expecting == []
    requires c.pos + 1 < |c.tokens| ==> c.tokens[c.pos + 1] != NEWLINE
    ensures NameLoad(c) ==
      if c.pos + 1 == |c.tokens| then Throw(ArgumentNull)
      else if IsName(c.tokens[c.pos + 1]) then Ok((c.(pos := c.pos + 1), LoadGlobal(c.tokens[c.pos + 1])))
      else Throw(DmlSyntax(InvalidName(c.tokens[c.pos + 1])))
  {
    StepOverToken(c, Some(DmlSyntax(GlobalWithoutName)));
  }

  /** A plain name is loaded as a local and leaves the cursor on it. */
  lemma PlainNameLoad(c: Cursor)
    requires Valid(c) && !Done(c) && IsName(c.tokens[c.pos])
    ensures NameLoad(c) == Ok((c, LoadLocal(c.tokens[c.pos])))
  {
  }

  /** A builtin name is loaded as the object the dictionary holds for it. */
  lemma BuiltinNameLoad(c: Cursor)
    requires Valid(c) && !Done(c) && IsBuiltin(c.tokens[c.pos])
    ensures NameLoad(c) == Ok((c, LoadConstant(BuiltinsDict.Lookup(c.tokens[c.pos]).value)))
  {
    BuiltinsDict.BuiltinNamesAreCapitalised(c.tokens[c.pos]);
  }

  /**
   * A loaded name is called exactly when the next token is `(`; otherwise
   * the cursor is back on the name and the load is the operand.
   */
  lemma CallOrLoadByNextToken(c: Cursor, load: Instr)
    requires Valid(c) && !Done(c) && c.tokens[c.pos] != NEWLINE && c.expecting == []
    requires c.pos + 1 < |c.tokens| ==> c.tokens[c.pos + 1] != NEWLINE
    ensures CallOrLoad(c, load) ==
      if c.pos + 1 < |c.tokens| && c.tokens[c.pos + 1] == LPAR then ParseFuncCall(c.(pos := c.pos + 1), load)
      else Ok((c, Operand([load])))
  {
    if c.pos + 1 < |c.tokens| {
      StepOverToken(c, None);
      StepBackOntoToken(c);
    }
  }

  /** A plain name is a call of the local of that name or its load. */
  lemma NameEvent(c: Cursor)
    requires Valid(c) && !Done(c) && IsName(c.tokens[c.pos]) && c.expecting == []
    requires c.pos + 1 < |c.tokens| ==> c.tokens[c.pos + 1] != NEWLINE
    ensures var load := LoadLocal(c.tokens[c.pos]);
      NextEvent(c) ==
        if c.pos + 1 < |c.tokens| && c.tokens[c.pos + 1] == LPAR then ParseFuncCall(c.(pos := c.pos + 1), load)
        else Ok((c, Operand([load])))
  {
    NewlineIsNoName();
    PlainNameLoad(c);
    CallOrLoadByNextToken(c, LoadLocal(c.tokens[c.pos]));
  }

  /** A builtin name is a call of the builtin or the builtin object as an operand. */
  lemma BuiltinEvent(c: Cursor)
    requires Valid(c) && !Done(c) && IsBuiltin(c.tokens[c.pos]) && c.expecting == []
    requires c.pos + 1 < |c.tokens| ==> c.tokens[c.pos + 1] != NEWLINE
    ensures var load := LoadConstant(BuiltinsDict.Lookup(c.tokens[c.pos]).value);
      NextEvent(c) ==
        if c.pos + 1 < |c.tokens| && c.tokens[c.pos + 1] == LPAR then ParseFuncCall(c.(pos := c.pos + 1), load)
        else Ok((c, Operand([load])))
  {
    NewlineIsNoName();
    BuiltinNameLoad(c);
    CallOrLoadByNextToken(c, LoadConstant(BuiltinsDict.Lookup(c.tokens[c.pos]).value));
  }

  /** The name branch of `ProcessNext`: the load, then the call or the operand. */
  lemma NamedEvent(c: Cursor)
    requires Valid(c) && !Done(c)
    requires var t := c.tokens[c.pos]; t == AT || t == DOLLAR || IsNonKeywordName(t) || IsBuiltin(t)
    ensures var named := NameLoad(c);
      NextEvent(c) == if named.Throw? then Throw(named.exception) else CallOrLoad(named.value.0, named.value.1)
  {
  }

  /** A lone `@` at the end dereferences the null token when it checks for a name. */
  lemma GlobalAtTheEnd(c: Cursor)
    requires Valid(c) && c.pos + 1 == |c.tokens| && c.tokens[c.pos] == AT && c.expecting == []
    ensures NextEvent(c) == Throw(ArgumentNull)
  {
    NamedEvent(c);
    GlobalNameLoad(c);
  }

  /** `@name` is a call of the global or its load, with the cursor left on the name. */
  lemma GlobalEvent(c: Cursor)
    requires Valid(c) && c.pos + 1 < |c.tokens| && c.tokens[c.pos] == AT && c.expecting == []
    requires IsName(c.tokens[c.pos + 1])
    requires forall k :: c.pos < k < |c.tokens| && k <= c.pos + 2 ==> c.tokens[k] != NEWLINE
    ensures var load := LoadGlobal(c.tokens[c.pos + 1]);
      NextEvent(c) ==
        if c.pos + 2 < |c.tokens| && c.tokens[c.pos + 2] == LPAR then ParseFuncCall(c.(pos := c.pos + 2), load)
        else Ok((c.(pos := c.pos + 1), Operand([load])))
  {
    NamedEvent(c);
    GlobalNameLoad(c);
    NewlineIsNoName();
    CallOrLoadByNextToken(c.(pos := c.pos + 1), LoadGlobal(c.tokens[c.pos + 1]));
  }

  /** Text of digits and points only. */
  predicate NumberChars(t: string) {
    forall i :: 0 <= i < |t| ==> IsDigit(t[i]) || t[i] == '.'
  }

  /** No name ends inside text of digits and points. */
  lemma {:induction false} NoNameInNumberChars(t: string, e: nat)
    requires NumberChars(t) && e <= |t|
    ensures !NameEndsAt(t, e)
    decreases e
  {
    if e > 0 {
      assert !IsNameStart(t[e - 1]);
      NoNameInNumberChars(t, e - 1);
    }
  }

  /**
   * A number token is the constant `Double.Parse` reads from it, and a run
   * of digits is the integer it spells.
   */
  lemma NumberEvent(c: Cursor)
    requires Valid(c) && !Done(c) && IsNumber(c.tokens[c.pos]) && NumberChars(c.tokens[c.pos])
    ensures var t := c.tokens[c.pos];
      NextEvent(c) ==
        if ParseNumber(t).Ok? then Ok((c, Operand([LoadConstant(NumberObj(ParseNumber(t).value))])))
        else Throw(ParseNumber(t).exception)
    ensures AllDigitChars(c.tokens[c.pos]) ==>
      NextEvent(c) == Ok((c, Operand([LoadConstant(NumberObj(DigitsValue(c.tokens[c.pos]) as real))])))
  {
    var t := c.tokens[c.pos];
    NumberTokenIsNothingElse(t);
    if AllDigitChars(t) {
      ParseNumberReadsDigits(t);
    }
  }

  /** A number token passes none of the tests `ProcessNext` makes before the number test. */
  lemma NumberTokenIsNothingElse(t: string)
    requires IsNumber(t) && NumberChars(t)
    ensures t != AT && t != DOLLAR && !IsNonKeywordName(t) && !IsBuiltin(t)
    ensures t != KW_TRUE && t != KW_FALSE && t != KW_NULL && t != LPAR && t != RPAR && !IsOperatorToken(t)
  {
    assert PatternEnd(t) == |t| && IsDigit(t[|t| - 1]);
    NoNameInNumberChars(t, |t|);
    BuiltinsDict.BuiltinNamesAreCapitalised(t);
    assert !IsBuiltin(t) by {
      assert IsDigit(t[0]) || t[0] == '.';
    }
  }

  /** An operator token is the event of its operation. */
  lemma OperatorEvent(c: Cursor)
    requires Valid(c) && !Done(c) && IsOperatorToken(c.tokens[c.pos])
    ensures NextEvent(c) == Ok((c, Operator(OperationOf(c.tokens[c.pos]).value)))
  {
    OperatorIsNoOperand(c.tokens[c.pos]);
  }

  /** An operator token is no name, builtin, keyword constant or bracket. */
  lemma OperatorIsNoOperand(t: string)
    requires IsOperatorToken(t)
    ensures t != AT && t != DOLLAR && !IsNonKeywordName(t) && !IsBuiltin(t)
    ensures t != KW_TRUE && t != KW_FALSE && t != KW_NULL && t != LPAR && t != RPAR
  {
    BuiltinsDict.BuiltinNamesAreCapitalised(t);
    assert !MatchesUqName(t) && !IsBuiltin(t) by {
      assert !IsNameChar(t[|t| - 1]);
      assert !('A' <= t[0] <= 'Z');
    }
  }

  /**
   * A string literal token is loaded as a string constant, quotes included;
   * every literal the tokenizer scans is one (`Tokenizer.ScannedLiteralsAreStrings`).
   */
  lemma StringEvent(c: Cursor)
    requires Valid(c) && !Done(c)
    requires var t := c.tokens[c.pos]; |t| >= 2 && t[0] == '"' && t[|t| - 1] == '"'
    ensures NextEvent(c) == Ok((c, Operand([LoadConstant(StringObj(c.tokens[c.pos]))])))
  {
    var t := c.tokens[c.pos];
    BuiltinsDict.BuiltinNamesAreCapitalised(t);
    assert PatternEnd(t) == |t|;
    assert !IsNumber(t) && !MatchesUqName(t) && !IsBuiltin(t);
  }

  /**
   * A comma is no operand, operator or bracket of an expression (the
   * arguments of a call are split off before they are built), and is
   * rejected wherever it stands.
   */
  lemma CommaRejected(c: Cursor)
    requires Valid(c) && !Done(c) && c.tokens[c.pos] == COMMA
    ensures NextEvent(c) == Throw(DmlSyntax(InvalidTokenForContext(COMMA, "expression")))
  {
    BuiltinsDict.BuiltinNamesAreCapitalised(COMMA);
    assert !MatchesUqName(COMMA);
    assert !IsNumber(COMMA);
  }

  /** Arguments written out again, separated by commas. */
  function JoinArguments(subs: seq<seq<string>>): seq<string> {
    if |subs| == 0 then []
    else if |subs| == 1 then subs[0]
    else JoinArguments(subs[..|subs| - 1]) + [COMMA] + subs[|subs| - 1]
  }

  /**
   * The state of `CollectArguments` after the tokens up to `c.pos`, read
   * from the `(` at `open`: the arguments so far and the current one, joined
   * by commas, are those tokens, and the current argument is empty just
   * when nothing was read yet or the last token was a comma that ended an
   * argument.
   */
  predicate ArgumentsSoFar(c: Cursor, open: nat, depth: int, subs: seq<seq<string>>, current: seq<string>)
    requires Valid(c)
  {
    open <= c.pos < |c.tokens|
    && JoinArguments(subs + [current]) == c.tokens[open + 1..c.pos + 1]
    && (c.pos == open ==> subs == [] && current == [])
    && (|current| == 0 ==> c.pos == open || c.tokens[c.pos] == COMMA)
    && (|current| > 0 && c.tokens[c.pos] == COMMA ==> depth >= 2)
  }

  /**
   * A read of the arguments after the `(` at `open` that stopped on a `)`:
   * the arguments, joined by commas, are the tokens between the two, where
   * an empty last argument after a final comma was dropped.
   */
  predicate JoinsBack(tokens: seq<string>, open: nat, r: Result<(seq<seq<string>>, Cursor)>) {
    r.Ok? && open < r.value.1.pos < |tokens| && tokens[r.value.1.pos] == RPAR &&
    var q := r.value.1.pos;
    tokens[open + 1..q] == JoinArguments(if q > open + 1 && tokens[q - 1] == COMMA then r.value.0 + [[]] else r.value.0)
  }

  /**
   * The arguments `CollectArguments` returns, joined by commas, are the
   * tokens between the parentheses; an empty last argument, after a final
   * comma, is dropped.
   */
  lemma {:induction false} CollectArgumentsJoins(c: Cursor, open: nat, depth: int, subs: seq<seq<string>>, current: seq<string>)
    requires Valid(c) && depth >= 1 && |current| < c.pos && Shorter(subs, c.pos)
    requires c.expecting == [] && NoNewlineFrom(c.tokens, c.pos)
    requires ArgumentsSoFar(c, open, depth, subs, current)
    requires CollectArguments(c, depth, subs, current).Ok?
    ensures JoinsBack(c.tokens, open, CollectArguments(c, depth, subs, current))
    decreases |c.tokens| - c.pos, 1
  {
    assert c.pos + 1 < |c.tokens| by {
      StepOverToken(c, Some(DmlSyntax(MismatchedCallBrackets)));
    }
    var t := c.tokens[c.pos + 1];
    if t == COMMA && depth == 1 {
      CollectArgumentsSplits(c, open, depth, subs, current);
    } else if t == RPAR && depth == 1 {
      CollectArgumentsCloses(c, open, depth, subs, current);
    } else {
      CollectArgumentsExtends(c, open, depth, subs, current);
    }
  }

  /** The step of `CollectArgumentsJoins` that reads a comma ending an argument. */
  lemma {:induction false} CollectArgumentsSplits(c: Cursor, open: nat, depth: int, subs: seq<seq<string>>, current: seq<string>)
    requires Valid(c) && depth >= 1 && |current| < c.pos && Shorter(subs, c.pos)
    requires c.expecting == [] && NoNewlineFrom(c.tokens, c.pos)
    requires ArgumentsSoFar(c, open, depth, subs, current)
    requires CollectArguments(c, depth, subs, current).Ok?
    requires c.pos + 1 < |c.tokens| && c.tokens[c.pos + 1] == COMMA && depth == 1
    ensures JoinsBack(c.tokens, open, CollectArguments(c, depth, subs, current))
    decreases |c.tokens| - c.pos, 0
  {
    SplitMovesOn(c, open, depth, subs, current);
    CollectArgumentsJoins(c.(pos := c.pos + 1), open, depth, subs + [current], []);
  }

  /** Everything `CollectArgumentsJoins` needs for the read after a comma that ends an argument. */
  lemma SplitMovesOn(c: Cursor, open: nat, depth: int, subs: seq<seq<string>>, current: seq<string>)
    requires Valid(c) && depth >= 1 && |current| < c.pos && Shorter(subs, c.pos)
    requires c.expecting == [] && NoNewlineFrom(c.tokens, c.pos)
    requires ArgumentsSoFar(c, open, depth, subs, current)
    requires c.pos + 1 < |c.tokens| && c.tokens[c.pos + 1] == COMMA && depth == 1
    ensures var c1 := c.(pos := c.pos + 1);
      Valid(c1) && 0 < c1.pos && Shorter(subs + [current], c1.pos) &&
      c1.expecting == [] && NoNewlineFrom(c1.tokens, c1.pos) &&
      ArgumentsSoFar(c1, open, depth, subs + [current], []) &&
      CollectArguments(c, depth, subs, current) == CollectArguments(c1, depth, subs + [current], [])
  {
    var c1 := c.(pos := c.pos + 1);
    ShorterAppend(subs, current, c1.pos);
    StepOverToken(c, Some(DmlSyntax(MismatchedCallBrackets)));
    SplitKeepsArgumentsSoFar(c, open, depth, subs, current);
  }

  lemma SplitKeepsArgumentsSoFar(c: Cursor, open: nat, depth: int, subs: seq<seq<string>>, current: seq<string>)
    requires Valid(c) && ArgumentsSoFar(c, open, depth, subs, current)
    requires c.pos + 1 < |c.tokens| && c.tokens[c.pos + 1] == COMMA
    ensures ArgumentsSoFar(c.(pos := c.pos + 1), open, depth, subs + [current], [])
  {
    assert c.tokens[open + 1..c.pos + 2] == c.tokens[open + 1..c.pos + 1] + [COMMA];
    assert JoinArguments(subs + [current] + [[]]) == JoinArguments(subs + [current]) + [COMMA] + [] by {
      assert (subs + [current] + [[]])[..|subs| + 1] == subs + [current];
    }
  }

  /** The step of `CollectArgumentsJoins` that reads a token of the current argument. */
  lemma {:induction false} CollectArgumentsExtends(c: Cursor, open: nat, depth: int, subs: seq<seq<string>>, current: seq<string>)
    requires Valid(c) && depth >= 1 && |current| < c.pos && Shorter(subs, c.pos)
    requires c.expecting == [] && NoNewlineFrom(c.tokens, c.pos)
    requires ArgumentsSoFar(c, open, depth, subs, current)
    requires CollectArguments(c, depth, subs, current).Ok?
    requires c.pos + 1 < |c.tokens|
    requires var t := c.tokens[c.pos + 1]; !(t == COMMA && depth == 1) && !(t == RPAR && depth == 1)
    ensures JoinsBack(c.tokens, open, CollectArguments(c, depth, subs, current))
    decreases |c.tokens| - c.pos, 0
  {
    var t := c.tokens[c.pos + 1];
    var depth' := if t == LPAR then depth + 1 else if t == RPAR then depth - 1 else depth;
    ExtendMovesOn(c, open, depth, subs, current);
    CollectArgumentsJoins(c.(pos := c.pos + 1), open, depth', subs, current + [t]);
  }

  /** Everything `CollectArgumentsJoins` needs for the read after a token of the current argument. */
  lemma ExtendMovesOn(c: Cursor, open: nat, depth: int, subs: seq<seq<string>>, current: seq<string>)
    requires Valid(c) && depth >= 1 && |current| < c.pos && Shorter(subs, c.pos)
    requires c.expecting == [] && NoNewlineFrom(c.tokens, c.pos)
    requires ArgumentsSoFar(c, open, depth, subs, current)
    requires CollectArguments(c, depth, subs, current).Ok?
    requires c.pos + 1 < |c.tokens|
    requires var t := c.tokens[c.pos + 1]; !(t == COMMA && depth == 1) && !(t == RPAR && depth == 1)
    ensures var c1 := c.(pos := c.pos + 1);
      var t := c.tokens[c.pos + 1];
      var depth' := if t == LPAR then depth + 1 else if t == RPAR then depth - 1 else depth;
      Valid(c1) && depth' >= 1 && |current + [t]| < c1.pos && Shorter(subs, c1.pos) &&
      c1.expecting == [] && NoNewlineFrom(c1.tokens, c1.pos) &&
      ArgumentsSoFar(c1, open, depth', subs, current + [t]) &&
      CollectArguments(c, depth, subs, current) == CollectArguments(c1, depth', subs, current + [t])
  {
    assert c.tokens[c.pos + 1] != NEWLINE;
    CollectArgumentsExtendStep(c, depth, subs, current);
    ExtendKeepsArgumentsSoFar(c, open, depth, subs, current);
  }

  /** Reading a token inside the current argument adds it and goes on. */
  lemma CollectArgumentsExtendStep(c: Cursor, depth: int, subs: seq<seq<string>>, current: seq<string>)
    requires Valid(c) && depth >= 1 && |current| < c.pos && Shorter(subs, c.pos)
    requires c.expecting == [] && c.pos + 1 < |c.tokens| && c.tokens[c.pos + 1] != NEWLINE
    requires var t := c.tokens[c.pos + 1]; !(t == COMMA && depth == 1) && !(t == RPAR && depth == 1)
    ensures var t := c.tokens[c.pos + 1];
      var depth' := if t == LPAR then depth + 1 else if t == RPAR then depth - 1 else depth;
      depth' >= 1 && CollectArguments(c, depth, subs, current) == CollectArguments(c.(pos := c.pos + 1), depth', subs, current + [t])
  {
    StepOverToken(c, Some(DmlSyntax(MismatchedCallBrackets)));
  }

  lemma ExtendKeepsArgumentsSoFar(c: Cursor, open: nat, depth: int, subs: seq<seq<string>>, current: seq<string>)
    requires Valid(c) && depth >= 1 && ArgumentsSoFar(c, open, depth, subs, current) && c.pos + 1 < |c.tokens|
    requires var t := c.tokens[c.pos + 1]; !(t == COMMA && depth == 1) && !(t == RPAR && depth == 1)
    ensures var t := c.tokens[c.pos + 1];
      var depth' := if t == LPAR then depth + 1 else if t == RPAR then depth - 1 else depth;
      ArgumentsSoFar(c.(pos := c.pos + 1), open, depth', subs, current + [t])
  {
    var t := c.tokens[c.pos + 1];
    assert c.tokens[open + 1..c.pos + 2] == c.tokens[open + 1..c.pos + 1] + [t];
    assert JoinArguments(subs + [current + [t]]) == JoinArguments(subs + [current]) + [t] by {
      assert (subs + [current + [t]])[..|subs|] == subs;
      assert (subs + [current])[..|subs|] == subs;
    }
  }

  /** The step of `CollectArgumentsJoins` that reads the closing `)`. */
  lemma CollectArgumentsCloses(c: Cursor, open: nat, depth: int, subs: seq<seq<string>>, current: seq<string>)
    requires Valid(c) && depth >= 1 && |current| < c.pos && Shorter(subs, c.pos)
    requires c.expecting == [] && NoNewlineFrom(c.tokens, c.pos)
    requires ArgumentsSoFar(c, open, depth, subs, current)
    requires c.pos + 1 < |c.tokens| && c.tokens[c.pos + 1] == RPAR && depth == 1
    ensures JoinsBack(c.tokens, open, CollectArguments(c, depth, subs, current))
  {
    CollectArgumentsStopsOnClose(c, depth, subs, current);
    ClosingJoin(c, open, depth, subs, current);
    ClosedJoinsBack(c, open, if |current| > 0 then subs + [current] else subs, CollectArguments(c, depth, subs, current));
  }

  /** A read that ended on the `)` after the cursor joins back when its arguments do. */
  lemma ClosedJoinsBack(c: Cursor, open: nat, out: seq<seq<string>>, r: Result<(seq<seq<string>>, Cursor)>)
    requires Valid(c) && open <= c.pos && c.pos + 1 < |c.tokens| && c.tokens[c.pos + 1] == RPAR
    requires r == Ok((out, c.(pos := c.pos + 1)))
    requires var q := c.pos + 1;
      c.tokens[open + 1..q] == JoinArguments(if q > open + 1 && c.tokens[q - 1] == COMMA then out + [[]] else out)
    ensures JoinsBack(c.tokens, open, r)
  {
  }

  /** Reading the closing `)` ends the read on it, with the current argument kept when it is not empty. */
  lemma CollectArgumentsStopsOnClose(c: Cursor, depth: int, subs: seq<seq<string>>, current: seq<string>)
    requires Valid(c) && depth >= 1 && |current| < c.pos && Shorter(subs, c.pos)
    requires c.expecting == [] && c.pos + 1 < |c.tokens| && c.tokens[c.pos + 1] == RPAR && depth == 1
    ensures CollectArguments(c, depth, subs, current) ==
      Ok((if |current| > 0 then subs + [current] else subs, c.(pos := c.pos + 1)))
  {
    StepOverToken(c, Some(DmlSyntax(MismatchedCallBrackets)));
    ShorterAppend(subs, current, c.pos + 1);
  }

  /** Before the closing `)`, the arguments read join back into the tokens after the `(`. */
  lemma ClosingJoin(c: Cursor, open: nat, depth: int, subs: seq<seq<string>>, current: seq<string>)
    requires Valid(c) && depth == 1 && ArgumentsSoFar(c, open, depth, subs, current)
    ensures var q := c.pos + 1;
      var out := if |current| > 0 then subs + [current] else subs;
      c.tokens[open + 1..q] == JoinArguments(if q > open + 1 && c.tokens[q - 1] == COMMA then out + [[]] else out)
  {
    if |current| == 0 {
      var out := subs;
      assert out + [[]] == subs + [current];
    }
  }

  /** `ParseFuncCall` starts `CollectArguments` in a state `CollectArgumentsJoins` covers. */
  lemma ArgumentsSoFarAtTheStart(c: Cursor)
    requires Valid(c) && !Done(c)
    ensures ArgumentsSoFar(c, c.pos, 1, [], [])
  {
    assert JoinArguments([] + [[]]) == [];
    assert c.tokens[c.pos + 1..c.pos + 1] == [];
  }

  // ---------------------------------------------------------------------------
  // Examples
  // ---------------------------------------------------------------------------

  /** A run of digits parses to the integer it spells. */
  lemma ParseNumberReadsDigits(t: string)
    requires |t| > 0 && AllDigitChars(t)
    ensures ParseNumber(t) == Ok(DigitsValue(t) as real)
  {
    DigitsHaveNoDot(t);
    assert t[..DotIndex(t)] == t;
  }

  lemma {:induction false} DigitsHaveNoDot(t: string)
    requires AllDigitChars(t)
    ensures DotIndex(t) == |t|
    decreases |t|
  {
    if |t| > 0 {
      assert IsDigit(t[0]);
      assert AllDigitChars(t[1..]) by {
        forall i | 0 <= i < |t[1..]| ensures IsDigit(t[1..][i]) { assert t[1..][i] == t[i + 1]; }
      }
      DigitsHaveNoDot(t[1..]);
    }
  }

  /** `2.5` parses to 2.5, `2.` to 2 and `.5` to 0.5; a point on its own is a format error. */
  lemma ParseNumberReadsFractions()
    ensures ParseNumber("2.5") == Ok(2.5)
    ensures ParseNumber("2.") == Ok(2.0)
    ensures ParseNumber(".5") == Ok(0.5)
    ensures ParseNumber(".") == Throw(Format)
  {
    assert DotIndex("2.5") == 1 by { assert "2.5"[1..] == ".5"; }
    assert DotIndex("2.") == 1 by { assert "2."[1..] == "."; }
    assert "2.5"[..1] == "2" && "2.5"[2..] == "5" && "2."[..1] == "2" && "2."[2..] == "";
    assert ".5"[..0] == "" && ".5"[1..] == "5" && "."[..0] == "" && "."[1..] == "";
    assert DigitsValue("2") == 2 by { assert "2"[..0] == ""; }
    assert DigitsValue("5") == 5 by { assert "5"[..0] == ""; }
  }
}
