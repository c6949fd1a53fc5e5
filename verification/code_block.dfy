/**
 * Running a code block (Dml/Parse/CodeBlock.cs and the `Perform` methods of
 * the instructions that move data or control): the cleaned instructions are
 * performed one by one from `currentPosition`, which each instruction
 * advances before it runs, so a jump that sets it to a label's index lets
 * the label run next.
 *
 * The stack, the locals and the position are the machine. Instructions whose
 * bodies reach globals, the bullet, the system, builtin functions or XNA
 * arithmetic are performed by `other`, a parameter of every run.
 */
module CodeBlocks {
  import opened Exceptions
  import opened DmlObjects
  import opened Instructions
  import opened InstructionCleaner

  /** The stack (top first), the locals of the run, and `currentPosition`. */
  datatype Machine = Machine(stack: seq<DmlObject>, locals: map<string, DmlObject>, position: int)

  /** The effect of the instructions this model does not perform itself. */
  type Other = (Machine, Instr) -> Result<Machine>

  /** `Stack.Pop`: the top and the rest; an empty stack is an invalid operation. */
  function Pop(stack: seq<DmlObject>): (r: Result<(DmlObject, seq<DmlObject>)>)
    ensures r.Throw? <==> |stack| == 0
    ensures r.Throw? ==> r.exception == InvalidOperation
    ensures r.Ok? ==> [r.value.0] + r.value.1 == stack
  {
    if |stack| == 0 then Throw(InvalidOperation) else Ok((stack[0], stack[1..]))
  }

  /** `(bool)obj.Value`: unboxing a null object or null value fails, as does any other type. */
  function AsBool(o: DmlObject): (r: Result<bool>)
    ensures r.Ok? <==> o.BoolObj?
    ensures r.Ok? ==> r.value == o.b
  {
    match o
    case BoolObj(b) => Ok(b)
    case NoObject => Throw(NullReference)
    case NullObj => Throw(NullReference)
    case _ => Throw(InvalidCast)
  }

  /** A `double` the numbers of the model can hold: a real or positive infinity. */
  datatype Double = Finite(x: real) | PositiveInfinity

  /** `<=` on doubles. */
  predicate AtMost(a: Double, b: Double) {
    b.PositiveInfinity? || (a.Finite? && a.x <= b.x)
  }

  /** `(double)obj.Value`: numbers and the `Infinity` builtin unbox, nothing else does. */
  function AsDouble(o: DmlObject): (r: Result<Double>)
    ensures r.Ok? <==> o.NumberObj? || o.InfinityObj?
  {
    match o
    case NumberObj(n) => Ok(Finite(n))
    case InfinityObj => Ok(PositiveInfinity)
    case NoObject => Throw(NullReference)
    case NullObj => Throw(NullReference)
    case _ => Throw(InvalidCast)
  }

  /**
   * `instr.Perform(...)` on a machine whose position already points past the
   * instruction. `Label` changes nothing. `LoadLocal` pushes the bound object
   * and fails on an unbound name. `JumpIfFalse` pops one object, fails unless
   * it is a boolean, and moves to its position exactly when the boolean is
   * false. `JumpIfLessThanOrEqual` pops the second operand, then the first,
   * and moves to its position exactly when first <= second.
   */
  function Perform(m: Machine, instr: Instr, other: Other): (r: Result<Machine>)
    ensures instr.Label? ==> r == Ok(m)
    ensures instr.LoadLocal? ==>
      (r.Throw? <==> instr.name !in m.locals) && (r.Throw? ==> r.exception == KeyNotFound) &&
      (r.Ok? ==> r.value == m.(stack := [m.locals[instr.name]] + m.stack))
    ensures instr.JumpIfFalse? ==>
      (r.Ok? <==> |m.stack| > 0 && m.stack[0].BoolObj?) &&
      (r.Ok? ==> r.value == m.(stack := m.stack[1..], position := if m.stack[0].b then m.position else instr.position))
    ensures instr.JumpIfLessThanOrEqual? ==>
      (r.Ok? <==> |m.stack| >= 2 && AsDouble(m.stack[0]).Ok? && AsDouble(m.stack[1]).Ok?) &&
      (r.Ok? ==>
        r.value.stack == m.stack[2..] && r.value.locals == m.locals &&
        r.value.position == if AtMost(AsDouble(m.stack[1]).value, AsDouble(m.stack[0]).value) then instr.position else m.position)
  {
    match instr
    case LoadConstant(k) => Ok(m.(stack := [k] + m.stack))
    case LoadLocal(name) =>
      if name in m.locals then Ok(m.(stack := [m.locals[name]] + m.stack)) else Throw(KeyNotFound)
    case AssignLocal(name) =>
      var (top, rest) :- Pop(m.stack);
      Ok(m.(stack := rest, locals := m.locals[name := top]))
    case Label(_) => Ok(m)
    case JumpIfFalse(_, position) =>
      var (top, rest) :- Pop(m.stack);
      var b :- AsBool(top);
      Ok(m.(stack := rest, position := if !b then position else m.position))
    case JumpIfLessThanOrEqual(_, position) =>
      assert |m.stack| >= 2 ==> m.stack[1..][0] == m.stack[1] && m.stack[1..][1..] == m.stack[2..];
      var (second, rest) :- Pop(m.stack);
      var y :- AsDouble(second);
      var (first, rest') :- Pop(rest);
      var x :- AsDouble(first);
      Ok(m.(stack := rest', position := if AtMost(x, y) then position else m.position))
    case _ => other(m, instr)
  }

  /** `AssignLocal` then `LoadLocal` of the same name leaves the stack as it was. */
  lemma AssignThenLoadRoundTrip(m: Machine, name: string, other: Other)
    requires |m.stack| > 0
    ensures var stored := Perform(m, AssignLocal(name), other);
      stored.Ok? && Perform(stored.value, LoadLocal(name), other) == Ok(m.(locals := m.locals[name := m.stack[0]]))
  {
    assert [m.stack[0]] + m.stack[1..] == m.stack;
  }

  // ---------------------------------------------------------------------------
  // The loop
  // ---------------------------------------------------------------------------

  /**
   * `while (currentPosition < Instructions.Length) Instructions[currentPosition++].Perform(...)`.
   * A negative position indexes outside the array. `fuel` bounds the number
   * of instructions performed; `Ok(None)` means it ran out first.
   */
  function RunFrom(code: seq<Instr>, m: Machine, other: Other, fuel: nat): (r: Result<Option<Machine>>)
    ensures r.Ok? && r.value.Some? ==> r.value.value.position >= |code|
    decreases fuel
  {
    if m.position >= |code| then Ok(Some(m))
    else if m.position < 0 then Throw(IndexOutOfRange)
    else if fuel == 0 then Ok(None)
    else
      var m' :- Perform(m.(position := m.position + 1), code[m.position], other);
      RunFrom(code, m', other, fuel - 1)
  }

  /** The instructions of `code` from `from` on, performed in order, each once. */
  function Sequential(code: seq<Instr>, from: nat, m: Machine, other: Other): (r: Result<Machine>)
    requires from <= |code|
    decreases |code| - from
  {
    if from == |code| then Ok(m)
    else
      var m' :- Perform(m.(position := from + 1), code[from], other);
      Sequential(code, from + 1, m', other)
  }

  /** `other` never moves the position: only the jumps do. */
  ghost predicate KeepsPosition(other: Other) {
    forall m: Machine, i: Instr :: other(m, i).Ok? ==> other(m, i).value.position == m.position
  }

  /** A non-jump instruction leaves the position where the loop put it. */
  lemma NonJumpKeepsPosition(m: Machine, instr: Instr, other: Other)
    requires KeepsPosition(other) && !instr.IsJump()
    ensures Perform(m, instr, other).Ok? ==> Perform(m, instr, other).value.position == m.position
  {
  }

  /**
   * Code without jumps runs straight through: with enough fuel, the loop
   * performs each instruction from the current position once, in order, and
   * fails exactly when one of them fails.
   */
  lemma {:induction false} RunWithoutJumpsIsSequential(code: seq<Instr>, m: Machine, other: Other, fuel: nat)
    requires KeepsPosition(other)
    requires 0 <= m.position <= |code| && fuel >= |code| - m.position
    requires forall j :: m.position <= j < |code| ==> !code[j].IsJump()
    ensures var s := Sequential(code, m.position, m, other);
      RunFrom(code, m, other, fuel) == if s.Ok? then Ok(Some(s.value)) else Throw(s.exception)
    decreases |code| - m.position
  {
    if m.position < |code| {
      var p := m.position;
      var stepped := Perform(m.(position := p + 1), code[p], other);
      NonJumpKeepsPosition(m.(position := p + 1), code[p], other);
      if stepped.Ok? {
        RunWithoutJumpsIsSequential(code, stepped.value, other, fuel - 1);
      }
    }
  }

  /**
   * A jump whose label was missing has position -1: when it fires, the next
   * turn of the loop indexes the array at -1.
   */
  lemma MissingLabelFails(code: seq<Instr>, m: Machine, other: Other, fuel: nat)
    requires 0 <= m.position < |code| && fuel >= 1
    requires code[m.position].JumpIfFalse? && code[m.position].position == -1
    requires |m.stack| > 0 && m.stack[0] == BoolObj(false)
    ensures RunFrom(code, m, other, fuel) == Throw(IndexOutOfRange)
  {
    var m' := m.(position := m.position + 1);
    assert Perform(m', code[m.position], other) == Ok(m'.(stack := m.stack[1..], position := -1));
  }

  // ---------------------------------------------------------------------------
  // The block
  // ---------------------------------------------------------------------------

  /** A code block: its cleaned instructions and `currentPosition`. */
  datatype CodeBlock = CodeBlock(instructions: seq<Instr>, currentPosition: int)

  /** `new CodeBlock(instructions)`: the instructions are cleaned, the position is 0. */
  function NewBlock(instructions: seq<Instr>): (b: CodeBlock) {
    CodeBlock(FoldLabels(instructions), 0)
  }

  /**
   * A new block starts at its first instruction with every jump resolved to
   * the first label of its name, and a block built from a block's own
   * instructions is the same block.
   */
  lemma NewBlockResolves(instructions: seq<Instr>)
    ensures var b := NewBlock(instructions);
      b.currentPosition == 0 && |b.instructions| == |instructions| &&
      (forall j :: 0 <= j < |instructions| && instructions[j].IsJump() ==>
         b.instructions[j] == instructions[j].(position := FindLabel(instructions, instructions[j].labelName))) &&
      NewBlock(b.instructions) == b
  {
    FoldLabelsResolvesJumps(instructions);
    FoldLabelsIdempotent(instructions);
  }

  /** The machine each run starts from: an empty stack and no locals. */
  function Start(b: CodeBlock): Machine {
    Machine([], map[], b.currentPosition)
  }

  /**
   * `Execute`: run from `currentPosition` to the end with a new stack and new
   * locals; afterwards `currentPosition` is 0 again.
   */
  function Execute(b: CodeBlock, other: Other, fuel: nat): (r: Result<Option<CodeBlock>>)
    ensures r.Ok? && r.value.Some? ==> r.value.value == b.(currentPosition := 0)
    ensures (r.Ok? && r.value.Some?) <==>
      (RunFrom(b.instructions, Start(b), other, fuel).Ok? && RunFrom(b.instructions, Start(b), other, fuel).value.Some?)
  {
    var ran :- RunFrom(b.instructions, Start(b), other, fuel);
    if ran.None? then Ok(None) else Ok(Some(b.(currentPosition := 0)))
  }

  /**
   * `Evaluate`: `Execute`, then the object on top of the stack, or the null
   * reference when the stack is empty.
   */
  function Evaluate(b: CodeBlock, other: Other, fuel: nat): (r: Result<Option<(CodeBlock, DmlObject)>>)
    ensures r.Ok? && r.value.Some? ==> r.value.value.0 == b.(currentPosition := 0)
    ensures r.Ok? && r.value.Some? ==>
      var run := RunFrom(b.instructions, Start(b), other, fuel);
      run.Ok? && run.value.Some? &&
      r.value.value.1 == if |run.value.value.stack| == 0 then NoObject else run.value.value.stack[0]
  {
    var ran :- RunFrom(b.instructions, Start(b), other, fuel);
    if ran.None? then Ok(None)
    else
      var stack := ran.value.stack;
      Ok(Some((b.(currentPosition := 0), if |stack| == 0 then NoObject else stack[0])))
  }

  /** A block of constant loads evaluates to the last constant loaded. */
  lemma EvaluateLoadsLast(k1: DmlObject, k2: DmlObject, other: Other)
    ensures Evaluate(NewBlock([LoadConstant(k1), LoadConstant(k2)]), other, 2) ==
      Ok(Some((CodeBlock([LoadConstant(k1), LoadConstant(k2)], 0), k2)))
  {
    var code := [LoadConstant(k1), LoadConstant(k2)];
    FoldLabelsResolvesJumps(code);
    assert FoldLabels(code) == code;
  }
}
