/**
 * The instructions a DML code block runs (the classes of Dml/Parse/Instructions).
 * Every instruction class is a constructor here; the arithmetic and logical
 * instructions, whose bodies act on vectors and other XNA values, are
 * one constructor carrying the operation.
 */
module Instructions {
  import opened DmlObjects

  /** A property of the bullet the intrinsic load and assign instructions reach. */
  datatype Intrinsic = Direction | Speed | Colour | Sprite | Origin | Position | Velocity | Time

  /** The operations of the `Binary*` and `Unary*` instruction classes. */
  datatype Operation =
    | Add | Sub | Mul | Div | Mod | Pow
    | Neg | Abs
    | And | Or | Not
    | Eq | Neq | Lt | Gt | LtEq | GtEq

  /**
   * One instruction. A jump names the label it targets; `position`, the
   * index it jumps to, is filled in when the labels are folded and is 0 until
   * then, the default of the C# field.
   */
  datatype Instr =
    | LoadConstant(constant: DmlObject)
    | LoadLocal(name: string)
    | LoadGlobal(name: string)
    | LoadInstanceBound(name: string)
    | LoadIntrinsic(property: Intrinsic)
    | AssignLocal(name: string)
    | AssignGlobal(name: string)
    | AssignBulletBound(name: string)
    | AssignIntrinsic(property: Intrinsic)
    | CallFunction(argCount: int)
    | Apply(operation: Operation)
    | Label(name: string)
    | JumpIfFalse(labelName: string, position: int)
    | JumpIfLessThanOrEqual(labelName: string, position: int)
  {
    /** Either of the two conditional jumps. */
    predicate IsJump() {
      JumpIfFalse? || JumpIfLessThanOrEqual?
    }
  }
}
