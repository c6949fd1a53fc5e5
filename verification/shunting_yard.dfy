/**
 * The operator half of the expression builder (Dml/Parse/ExpressionBuilder.cs):
 * the operator, associativity, precedence and instruction tables, and the
 * shunting-yard step each token of an expression triggers.
 *
 * The C# operator stack holds token strings, `(` or an operator; here it
 * holds `Paren` or the operation an operator token stands for (the two are
 * in one-to-one correspondence, see `OperatorTokensRoundTrip`). The first
 * element of the sequence is the top of the stack.
 */
module ShuntingYard {
  import opened Instructions
  import opened Exceptions
  import opened DmlTokens

  // ---------------------------------------------------------------------------
  // Tables
  // ---------------------------------------------------------------------------

  /**
   * `OPERATORS` together with `OPERATOR_INSTRUCTIONS`: the operation of an
   * operator token, or None for any other token.
   */
  function OperationOf(t: string): Option<Operation> {
    if t == PLUS then Some(Add)
    else if t == MINUS then Some(Sub)
    else if t == STAR then Some(Mul)
    else if t == SLASH then Some(Div)
    else if t == PERCENT then Some(Mod)
    else if t == UNARY_NEG then Some(Neg)
    else if t == UNARY_ABS then Some(Abs)
    else if t == CIRCUMFLEX then Some(Pow)
    else if t == DBLAND then Some(And)
    else if t == DBLVBAR then Some(Or)
    else if t == BANG then Some(Not)
    else if t == DBLEQUAL then Some(Eq)
    else if t == NOTEQUAL then Some(Neq)
    else if t == LANGLE then Some(Lt)
    else if t == RANGLE then Some(Gt)
    else if t == LTEQ then Some(LtEq)
    else if t == GTEQ then Some(GtEq)
    else None
  }

  /** The operator token of each operation. */
  function TokenOf(op: Operation): string {
    match op
    case Add => PLUS
    case Sub => MINUS
    case Mul => STAR
    case Div => SLASH
    case Mod => PERCENT
    case Neg => UNARY_NEG
    case Abs => UNARY_ABS
    case Pow => CIRCUMFLEX
    case And => DBLAND
    case Or => DBLVBAR
    case Not => BANG
    case Eq => DBLEQUAL
    case Neq => NOTEQUAL
    case Lt => LANGLE
    case Gt => RANGLE
    case LtEq => LTEQ
    case GtEq => GTEQ
  }

  /** `IsOperator` of the expression builder: membership in `OPERATORS`. */
  predicate IsOperatorToken(t: string) {
    OperationOf(t).Some?
  }

  /**
   * The operator tokens and the operations correspond one to one: every
   * operation has a token that maps back to it, and an operator token is the
   * token of its operation. So no two entries of `OPERATORS` share an
   * instruction.
   */
  lemma OperatorTokensRoundTrip(t: string, op: Operation)
    ensures OperationOf(TokenOf(op)) == Some(op)
    ensures IsOperatorToken(t) ==> TokenOf(OperationOf(t).value) == t
  {
  }

  /** `OPERATOR_PRECEDENCE`: a larger number binds tighter. */
  function Precedence(op: Operation): nat {
    match op
    case Or => 0
    case And => 1
    case Not => 2
    case Eq => 3
    case Neq => 3
    case Lt => 3
    case Gt => 3
    case LtEq => 3
    case GtEq => 3
    case Add => 4
    case Sub => 5
    case Mul => 6
    case Div => 7
    case Mod => 8
    case Neg => 9
    case Abs => 9
    case Pow => 9
  }

  /** Membership in `LEFT_ASSOCIATIVE`. */
  predicate LeftAssociative(op: Operation) {
    match op
    case Add | Sub | Mul | Div | Mod | And | Or | Eq | Neq | Lt | Gt | LtEq | GtEq => true
    case Pow | Neg | Abs | Not => false
  }

  /** Membership in `RIGHT_ASSOCIATIVE`. */
  predicate RightAssociative(op: Operation) {
    match op
    case Pow | Neg | Abs | Not => true
    case Add | Sub | Mul | Div | Mod | And | Or | Eq | Neq | Lt | Gt | LtEq | GtEq => false
  }

  /**
   * Every operator is in exactly one of the associativity lists, and the
   * operators that share a precedence share an associativity.
   */
  lemma AssociativityIsConsistent(a: Operation, b: Operation)
    ensures LeftAssociative(a) <==> !RightAssociative(a)
    ensures Precedence(a) == Precedence(b) ==> (LeftAssociative(a) <==> LeftAssociative(b))
  {
  }

  // ---------------------------------------------------------------------------
  // The builder's state and one step
  // ---------------------------------------------------------------------------

  /** An entry of the operator stack. */
  datatype Pending = Paren | Op(op: Operation)

  /** The instructions emitted so far and the operator stack, top first. */
  datatype Builder = Builder(code: seq<Instr>, operators: seq<Pending>)

  /** The empty builder a new expression starts from. */
  const Empty := Builder([], [])

  /**
   * What one token of an expression does to the builder: an operand brings
   * the code that loads it (for a function call, the whole call); the
   * others are the parentheses and the operators.
   */
  datatype Event = Operand(load: seq<Instr>) | Open | Close | Operator(op: Operation)

  /**
   * The test of the operator loop: the stack top is popped when it is
   * left associative and binds at least as tightly as the incoming operator,
   * or right associative and binds strictly tighter. `(` is in neither list,
   * so it is never popped here.
   */
  predicate ShouldPop(top: Pending, incoming: Operation) {
    top.Op? &&
      ((LeftAssociative(top.op) && Precedence(top.op) >= Precedence(incoming)) ||
       (RightAssociative(top.op) && Precedence(top.op) > Precedence(incoming)))
  }

  /**
   * The loop tests the associativity of the stack top, where the textbook
   * algorithm tests that of the incoming operator. With these tables the two
   * rules agree: pop exactly the operators that bind tighter, and those that
   * bind equally when the incoming operator is left associative.
   */
  lemma ShouldPopIsTheTextbookRule(top: Pending, incoming: Operation)
    ensures ShouldPop(top, incoming) <==>
      top.Op? &&
        (Precedence(top.op) > Precedence(incoming) ||
         (Precedence(top.op) == Precedence(incoming) && LeftAssociative(incoming)))
  {
    if top.Op? {
      AssociativityIsConsistent(top.op, incoming);
    }
  }

  /** The instructions of stack entries popped in order: parentheses emit nothing. */
  function Emitted(entries: seq<Pending>): seq<Instr> {
    if |entries| == 0 then []
    else (if entries[0].Op? then [Apply(entries[0].op)] else []) + Emitted(entries[1..])
  }

  /** Without parentheses, the i-th entry popped emits the i-th instruction. */
  lemma {:induction false} EmittedInOrder(entries: seq<Pending>)
    requires Paren !in entries
    ensures |Emitted(entries)| == |entries|
    ensures forall i :: 0 <= i < |entries| ==> Emitted(entries)[i] == Apply(entries[i].op)
    decreases |entries|
  {
    if |entries| > 0 {
      assert entries == [entries[0]] + entries[1..];
      EmittedInOrder(entries[1..]);
      var tail := Emitted(entries[1..]);
      assert Emitted(entries) == [Apply(entries[0].op)] + tail;
      forall i | 0 <= i < |entries|
        ensures Emitted(entries)[i] == Apply(entries[i].op)
      {
        if i > 0 {
          assert Emitted(entries)[i] == tail[i - 1];
        }
      }
    }
  }

  /** The operator loop: pop and emit while the top should be popped. */
  function PopWhile(b: Builder, incoming: Operation): (r: Builder)
    decreases |b.operators|
  {
    if |b.operators| > 0 && ShouldPop(b.operators[0], incoming) then
      PopWhile(Builder(b.code + [Apply(b.operators[0].op)], b.operators[1..]), incoming)
    else b
  }

  /** How many entries the operator loop pops. */
  function PoppedCount(b: Builder, incoming: Operation): (k: nat)
    ensures k <= |b.operators|
    decreases |b.operators|
  {
    if |b.operators| > 0 && ShouldPop(b.operators[0], incoming) then
      1 + PoppedCount(Builder(b.code + [Apply(b.operators[0].op)], b.operators[1..]), incoming)
    else 0
  }

  lemma EmittedCons(top: Pending, rest: seq<Pending>)
    requires top.Op?
    ensures Emitted([top] + rest) == [Apply(top.op)] + Emitted(rest)
  {
    assert ([top] + rest)[1..] == rest;
  }

  /** The operator loop removes the popped entries and emits them in the order popped. */
  lemma {:induction false} PopWhileEmitsThePopped(b: Builder, incoming: Operation)
    ensures var k := PoppedCount(b, incoming);
      PopWhile(b, incoming) == Builder(b.code + Emitted(b.operators[..k]), b.operators[k..])
    decreases |b.operators|
  {
    if |b.operators| > 0 && ShouldPop(b.operators[0], incoming) {
      var top := b.operators[0];
      var b' := Builder(b.code + [Apply(top.op)], b.operators[1..]);
      var k' := PoppedCount(b', incoming);
      assert PopWhile(b, incoming) == PopWhile(b', incoming) && PoppedCount(b, incoming) == k' + 1;
      assert PopWhile(b', incoming) == Builder(b'.code + Emitted(b'.operators[..k']), b'.operators[k'..]) by {
        PopWhileEmitsThePopped(b', incoming);
      }
      assert b'.code + Emitted(b'.operators[..k']) == b.code + Emitted(b.operators[..k' + 1]) by {
        assert b.operators[..k' + 1] == [top] + b'.operators[..k'];
        EmittedCons(top, b'.operators[..k']);
      }
      assert b.operators[k' + 1..] == b'.operators[k'..];
    } else {
      assert PopWhile(b, incoming) == b && PoppedCount(b, incoming) == 0;
      assert b == Builder(b.code + Emitted(b.operators[..0]), b.operators[0..]) by {
        assert b.operators[..0] == [] && b.operators[0..] == b.operators;
        assert b.code + Emitted([]) == b.code;
      }
    }
  }

  /** The popped entries all pass the test, and the entry the loop stops at fails it. */
  lemma {:induction false} PopWhileStopsAtTheFirstKeeper(b: Builder, incoming: Operation)
    ensures var k := PoppedCount(b, incoming);
      (forall i :: 0 <= i < k ==> ShouldPop(b.operators[i], incoming)) &&
      (k < |b.operators| ==> !ShouldPop(b.operators[k], incoming))
    decreases |b.operators|
  {
    if |b.operators| > 0 && ShouldPop(b.operators[0], incoming) {
      var b' := Builder(b.code + [Apply(b.operators[0].op)], b.operators[1..]);
      PopWhileStopsAtTheFirstKeeper(b', incoming);
      var k' := PoppedCount(b', incoming);
      forall i | 0 <= i < k' + 1
        ensures ShouldPop(b.operators[i], incoming)
      {
        if i > 0 {
          assert b.operators[i] == b'.operators[i - 1];
        }
      }
      if k' + 1 < |b.operators| {
        assert b.operators[k' + 1] == b'.operators[k'];
      }
    }
  }

  /**
   * The operator loop pops the longest run of stack entries, from the top,
   * that should be popped, and emits them in the order popped; the entry it
   * stops at, if any, should not be popped.
   */
  lemma PopWhilePopsTheRun(b: Builder, incoming: Operation)
    ensures var r := PopWhile(b, incoming);
      var k := |b.operators| - |r.operators|;
      0 <= k <= |b.operators| && r.operators == b.operators[k..] &&
      (forall i :: 0 <= i < k ==> ShouldPop(b.operators[i], incoming)) &&
      (k < |b.operators| ==> !ShouldPop(b.operators[k], incoming)) &&
      r.code == b.code + Emitted(b.operators[..k])
  {
    PopWhileEmitsThePopped(b, incoming);
    PopWhileStopsAtTheFirstKeeper(b, incoming);
  }

  /** The index of the topmost `(` on the stack. */
  function FirstParen(entries: seq<Pending>): (k: nat)
    requires Paren in entries
    ensures k < |entries| && entries[k] == Paren && Paren !in entries[..k]
  {
    if entries[0] == Paren then 0
    else
      assert entries == [entries[0]] + entries[1..];
      var k := FirstParen(entries[1..]);
      assert entries[..k + 1] == [entries[0]] + entries[1..][..k];
      k + 1
  }

  /** The `)` loop: pop and emit down to the topmost `(`, then discard it. */
  function PopToParen(b: Builder): (r: Builder)
    requires Paren in b.operators
    decreases |b.operators|
  {
    if b.operators[0] == Paren then b.(operators := b.operators[1..])
    else
      assert b.operators == [b.operators[0]] + b.operators[1..];
      PopToParen(Builder(b.code + [Apply(b.operators[0].op)], b.operators[1..]))
  }

  /**
   * `)` emits the operators above the topmost `(`, top first, removes them
   * and the `(`, and leaves the rest of the stack as it was.
   */
  lemma {:induction false} PopToParenEmitsTheGroup(b: Builder)
    requires Paren in b.operators
    ensures var k := FirstParen(b.operators);
      PopToParen(b) == Builder(b.code + Emitted(b.operators[..k]), b.operators[k + 1..])
    decreases |b.operators|
  {
    if b.operators[0] != Paren {
      var top := b.operators[0];
      var b' := Builder(b.code + [Apply(top.op)], b.operators[1..]);
      assert b.operators == [top] + b'.operators;
      PopToParenEmitsTheGroup(b');
      var k' := FirstParen(b'.operators);
      assert FirstParen(b.operators) == k' + 1;
      assert b.operators[..k' + 1] == [top] + b'.operators[..k'];
      assert b.operators[k' + 2..] == b'.operators[k' + 1..];
    } else {
      assert b.operators[..0] == [];
    }
  }

  /** The effect of one token on the builder (the body of `ProcessNext` after the token is read). */
  function Step(b: Builder, e: Event): (r: Result<Builder>)
  {
    match e
    case Operand(load) => Ok(b.(code := b.code + load))
    case Open => Ok(b.(operators := [Paren] + b.operators))
    case Close =>
      if |b.operators| == 0 || Paren !in b.operators then Throw(DmlSyntax(MismatchedParentheses))
      else Ok(PopToParen(b))
    case Operator(op) =>
      if |b.operators| == 0 then Ok(b.(operators := [Op(op)]))
      else
        var popped := PopWhile(b, op);
        Ok(popped.(operators := [Op(op)] + popped.operators))
  }

  /** `)` fails exactly when no `(` is open, and otherwise closes the topmost group. */
  lemma StepOnClose(b: Builder)
    ensures Step(b, Close).Throw? <==> Paren !in b.operators
    ensures Step(b, Close).Throw? ==> Step(b, Close).exception == DmlSyntax(MismatchedParentheses)
    ensures Paren in b.operators ==> var k := FirstParen(b.operators);
      Step(b, Close) == Ok(Builder(b.code + Emitted(b.operators[..k]), b.operators[k + 1..]))
  {
    if Paren in b.operators {
      PopToParenEmitsTheGroup(b);
    }
  }

  /** An operator pops the run the operator loop pops, and is pushed. */
  lemma StepOnOperator(b: Builder, op: Operation)
    ensures Step(b, Operator(op)).Ok?
    ensures var r := Step(b, Operator(op)).value;
      var k := |b.operators| + 1 - |r.operators|;
      0 <= k <= |b.operators| && r.operators == [Op(op)] + b.operators[k..] &&
      r.code == b.code + Emitted(b.operators[..k]) &&
      (forall i :: 0 <= i < k ==> ShouldPop(b.operators[i], op)) &&
      (k < |b.operators| ==> !ShouldPop(b.operators[k], op))
  {
    PopWhilePopsTheRun(b, op);
    if |b.operators| == 0 {
      assert b.operators[..0] == [] && [Op(op)] + b.operators[0..] == [Op(op)];
    }
  }

  /**
   * `PostParse`: the operators left on the stack are emitted top first. A
   * `(` left open has no instruction, and looking it up throws.
   */
  function PostParse(b: Builder): (r: Result<seq<Instr>>)
    ensures r.Throw? <==> Paren in b.operators
    ensures r.Throw? ==> r.exception == KeyNotFound
    ensures r.Ok? ==> |r.value| == |b.code| + |b.operators| && r.value[..|b.code|] == b.code
    ensures r.Ok? ==> forall i :: 0 <= i < |b.operators| ==> r.value[|b.code| + i] == Apply(b.operators[i].op)
  {
    if Paren in b.operators then Throw(KeyNotFound)
    else
      EmittedInOrder(b.operators);
      var r := b.code + Emitted(b.operators);
      assert r[..|b.code|] == b.code;
      Ok(r)
  }

  // ---------------------------------------------------------------------------
  // Operand order
  // ---------------------------------------------------------------------------

  /** The steps of a whole expression, one event per token, in order. */
  function Run(b: Builder, events: seq<Event>): (r: Result<Builder>)
    decreases |events|
  {
    if |events| == 0 then Ok(b)
    else
      var next := Step(b, events[0]);
      if next.Throw? then Throw(next.exception) else Run(next.value, events[1..])
  }

  /** The instructions that are not operator applications: the operands' code. */
  function Operands(code: seq<Instr>): (r: seq<Instr>)
    ensures |r| <= |code|
  {
    if |code| == 0 then []
    else (if code[0].Apply? then [] else [code[0]]) + Operands(code[1..])
  }

  /** The operand code the events bring, in order. */
  function OperandsOf(events: seq<Event>): seq<Instr> {
    if |events| == 0 then []
    else (if events[0].Operand? then Operands(events[0].load) else []) + OperandsOf(events[1..])
  }

  lemma {:induction false} OperandsAppend(x: seq<Instr>, y: seq<Instr>)
    ensures Operands(x + y) == Operands(x) + Operands(y)
    decreases |x|
  {
    if |x| > 0 {
      assert (x + y)[1..] == x[1..] + y;
      OperandsAppend(x[1..], y);
    } else {
      assert x + y == y;
    }
  }

  lemma {:induction false} EmittedHasNoOperands(entries: seq<Pending>)
    ensures Operands(Emitted(entries)) == []
    decreases |entries|
  {
    if |entries| > 0 {
      var head: seq<Instr> := if entries[0].Op? then [Apply(entries[0].op)] else [];
      OperandsAppend(head, Emitted(entries[1..]));
      EmittedHasNoOperands(entries[1..]);
      if entries[0].Op? {
        assert Operands(head) == [] + Operands(head[1..]);
      }
    }
  }

  /** One step adds to the operands only the code of an operand event. */
  lemma StepKeepsOperandOrder(b: Builder, e: Event)
    requires Step(b, e).Ok?
    ensures Operands(Step(b, e).value.code) ==
      Operands(b.code) + (if e.Operand? then Operands(e.load) else [])
  {
    match e
    case Operand(load) =>
      OperandsAppend(b.code, load);
    case Open =>
      assert Operands(b.code) + [] == Operands(b.code);
    case Close =>
      var k := FirstParen(b.operators);
      PopToParenEmitsTheGroup(b);
      OperandsAppend(b.code, Emitted(b.operators[..k]));
      EmittedHasNoOperands(b.operators[..k]);
    case Operator(op) =>
      PopWhilePopsTheRun(b, op);
      var k := |b.operators| - |PopWhile(b, op).operators|;
      OperandsAppend(b.code, Emitted(b.operators[..k]));
      EmittedHasNoOperands(b.operators[..k]);
  }

  /**
   * The shunting-yard never reorders operands: the code a run emits holds
   * the operands' code in the order the tokens brought it, with operator
   * instructions in between, which is what makes the output postfix.
   */
  lemma {:induction false} RunKeepsOperandOrder(b: Builder, events: seq<Event>)
    requires Run(b, events).Ok?
    ensures Operands(Run(b, events).value.code) == Operands(b.code) + OperandsOf(events)
    decreases |events|
  {
    if |events| > 0 {
      var next := Step(b, events[0]);
      StepKeepsOperandOrder(b, events[0]);
      RunKeepsOperandOrder(next.value, events[1..]);
    }
  }

  /** `PostParse` adds no operand. */
  lemma PostParseAddsNoOperand(b: Builder)
    requires PostParse(b).Ok?
    ensures Operands(PostParse(b).value) == Operands(b.code)
  {
    OperandsAppend(b.code, Emitted(b.operators));
    EmittedHasNoOperands(b.operators);
  }

  // ---------------------------------------------------------------------------
  // Examples
  // ---------------------------------------------------------------------------

  lemma RunCons(b: Builder, e: Event, rest: seq<Event>)
    requires Step(b, e).Ok?
    ensures Run(b, [e] + rest) == Run(Step(b, e).value, rest)
  {
    assert ([e] + rest)[0] == e && ([e] + rest)[1..] == rest;
  }

  /** A run of five events through the given builders. */
  lemma RunOfFive(e: seq<Event>, b1: Builder, b2: Builder, b3: Builder, b4: Builder, b5: Builder)
    requires |e| == 5
    requires Step(Empty, e[0]) == Ok(b1) && Step(b1, e[1]) == Ok(b2) && Step(b2, e[2]) == Ok(b3)
    requires Step(b3, e[3]) == Ok(b4) && Step(b4, e[4]) == Ok(b5)
    ensures Run(Empty, e) == Ok(b5)
  {
    assert e[5..] == [];
    assert e[4..] == [e[4]] + e[5..];
    assert e[3..] == [e[3]] + e[4..];
    assert e[2..] == [e[2]] + e[3..];
    assert e[1..] == [e[1]] + e[2..];
    assert e == [e[0]] + e[1..];
    RunCons(b4, e[4], e[5..]);
    RunCons(b3, e[3], e[4..]);
    RunCons(b2, e[2], e[3..]);
    RunCons(b1, e[1], e[2..]);
    RunCons(Empty, e[0], e[1..]);
  }

  /** The events of `x op y op' z`, each operand loaded by one instruction. */
  function Infix(x: Instr, op: Operation, y: Instr, op': Operation, z: Instr): seq<Event> {
    [Operand([x]), Operator(op), Operand([y]), Operator(op'), Operand([z])]
  }

  /** `x + y * z` is `x y z * +`: `*` binds tighter. */
  lemma ProductBindsTighter(x: Instr, y: Instr, z: Instr)
    ensures Run(Empty, Infix(x, Add, y, Mul, z)).Ok?
    ensures PostParse(Run(Empty, Infix(x, Add, y, Mul, z)).value) == Ok([x, y, z, Apply(Mul), Apply(Add)])
  {
    var e := Infix(x, Add, y, Mul, z);
    var b1 := Builder([x], []);
    var b2 := Builder([x], [Op(Add)]);
    var b3 := Builder([x, y], [Op(Add)]);
    var b4 := Builder([x, y], [Op(Mul), Op(Add)]);
    var b5 := Builder([x, y, z], [Op(Mul), Op(Add)]);
    assert Step(Empty, e[0]) == Ok(b1) by { assert [] + [x] == [x]; }
    assert Step(b3, e[3]) == Ok(b4) by {
      assert PopWhile(b3, Mul) == b3;
      assert [Op(Mul)] + b3.operators == b4.operators;
    }
    assert Step(b2, e[2]) == Ok(b3) by { assert [x] + [y] == [x, y]; }
    assert Step(b4, e[4]) == Ok(b5) by { assert [x, y] + [z] == [x, y, z]; }
    RunOfFive(e, b1, b2, b3, b4, b5);
    assert Emitted(b5.operators) == [Apply(Mul), Apply(Add)] by {
      EmittedCons(Op(Mul), [Op(Add)]);
      EmittedCons(Op(Add), []);
    }
    assert Paren !in b5.operators;
    assert b5.code + [Apply(Mul), Apply(Add)] == [x, y, z, Apply(Mul), Apply(Add)];
  }

  /** `x - y - z` is `x y - z -`: `-` groups to the left. */
  lemma DifferenceGroupsLeft(x: Instr, y: Instr, z: Instr)
    ensures Run(Empty, Infix(x, Sub, y, Sub, z)).Ok?
    ensures PostParse(Run(Empty, Infix(x, Sub, y, Sub, z)).value) == Ok([x, y, Apply(Sub), z, Apply(Sub)])
  {
    var e := Infix(x, Sub, y, Sub, z);
    var b1 := Builder([x], []);
    var b2 := Builder([x], [Op(Sub)]);
    var b3 := Builder([x, y], [Op(Sub)]);
    var b4 := Builder([x, y, Apply(Sub)], [Op(Sub)]);
    var b5 := Builder([x, y, Apply(Sub), z], [Op(Sub)]);
    assert Step(Empty, e[0]) == Ok(b1) by { assert [] + [x] == [x]; }
    assert Step(b3, e[3]) == Ok(b4) by {
      assert PopWhile(b3, Sub) == Builder([x, y, Apply(Sub)], []) by {
        assert PopWhile(Builder([x, y, Apply(Sub)], []), Sub) == Builder([x, y, Apply(Sub)], []);
        assert [x, y] + [Apply(Sub)] == [x, y, Apply(Sub)] && b3.operators[1..] == [];
      }
      assert [Op(Sub)] + [] == [Op(Sub)];
    }
    assert Step(b2, e[2]) == Ok(b3) by { assert [x] + [y] == [x, y]; }
    assert Step(b4, e[4]) == Ok(b5) by { assert [x, y, Apply(Sub)] + [z] == [x, y, Apply(Sub), z]; }
    RunOfFive(e, b1, b2, b3, b4, b5);
    assert Emitted(b5.operators) == [Apply(Sub)] by { EmittedCons(Op(Sub), []); }
    assert Paren !in b5.operators;
    assert b5.code + [Apply(Sub)] == [x, y, Apply(Sub), z, Apply(Sub)];
  }

  /** `x ^ y ^ z` is `x y z ^ ^`: `^` groups to the right. */
  lemma PowerGroupsRight(x: Instr, y: Instr, z: Instr)
    ensures Run(Empty, Infix(x, Pow, y, Pow, z)).Ok?
    ensures PostParse(Run(Empty, Infix(x, Pow, y, Pow, z)).value) == Ok([x, y, z, Apply(Pow), Apply(Pow)])
  {
    var e := Infix(x, Pow, y, Pow, z);
    var b1 := Builder([x], []);
    var b2 := Builder([x], [Op(Pow)]);
    var b3 := Builder([x, y], [Op(Pow)]);
    var b4 := Builder([x, y], [Op(Pow), Op(Pow)]);
    var b5 := Builder([x, y, z], [Op(Pow), Op(Pow)]);
    assert Step(Empty, e[0]) == Ok(b1) by { assert [] + [x] == [x]; }
    assert Step(b3, e[3]) == Ok(b4) by {
      assert PopWhile(b3, Pow) == b3;
      assert [Op(Pow)] + b3.operators == b4.operators;
    }
    assert Step(b2, e[2]) == Ok(b3) by { assert [x] + [y] == [x, y]; }
    assert Step(b4, e[4]) == Ok(b5) by { assert [x, y] + [z] == [x, y, z]; }
    RunOfFive(e, b1, b2, b3, b4, b5);
    assert Emitted(b5.operators) == [Apply(Pow), Apply(Pow)] by {
      EmittedCons(Op(Pow), [Op(Pow)]);
      EmittedCons(Op(Pow), []);
    }
    assert Paren !in b5.operators;
    assert b5.code + [Apply(Pow), Apply(Pow)] == [x, y, z, Apply(Pow), Apply(Pow)];
  }
}
