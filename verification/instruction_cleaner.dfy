/**
 * The instruction cleaner (Dml/Parse/InstructionCleaner.cs): before a code
 * block runs, every conditional jump gets as its `position` the index of the
 * first `Label` carrying the jump's label name, or -1 when there is none.
 * Everything else is copied, so the instructions keep their number and
 * order.
 */
module InstructionCleaner {
  import opened Instructions

  /**
   * `List.FindIndex` with the label test: the index of the first `Label(name)`
   * of `instrs`, or -1 when no instruction is that label.
   */
  function FindLabel(instrs: seq<Instr>, name: string): (k: int)
    ensures -1 <= k < |instrs|
    ensures k == -1 <==> Label(name) !in instrs
    ensures k >= 0 ==> instrs[k] == Label(name) && Label(name) !in instrs[..k]
  {
    if |instrs| == 0 then -1
    else if instrs[0] == Label(name) then 0
    else
      var k := FindLabel(instrs[1..], name);
      assert instrs == [instrs[0]] + instrs[1..];
      if k == -1 then -1
      else
        assert instrs[..k + 1] == [instrs[0]] + instrs[1..][..k];
        k + 1
  }

  /** One instruction as the cleaner copies it: a jump is pointed at its label. */
  function Resolve(instr: Instr, all: seq<Instr>): Instr {
    match instr
    case JumpIfLessThanOrEqual(name, _) => JumpIfLessThanOrEqual(name, FindLabel(all, name))
    case JumpIfFalse(name, _) => JumpIfFalse(name, FindLabel(all, name))
    case _ => instr
  }

  /** The loop of `FoldLabels` from index `i` on. */
  function FoldFrom(all: seq<Instr>, i: nat): (r: seq<Instr>)
    requires i <= |all|
    ensures |r| == |all| - i
    decreases |all| - i
  {
    if i == |all| then [] else [Resolve(all[i], all)] + FoldFrom(all, i + 1)
  }

  /** `Clean()`: `FoldLabels` over the whole array. */
  function FoldLabels(all: seq<Instr>): (r: seq<Instr>)
    ensures |r| == |all|
  {
    FoldFrom(all, 0)
  }

  lemma {:induction false} FoldFromResolvesEach(all: seq<Instr>, i: nat)
    requires i <= |all|
    ensures forall j :: i <= j < |all| ==> FoldFrom(all, i)[j - i] == Resolve(all[j], all)
    decreases |all| - i
  {
    if i < |all| {
      FoldFromResolvesEach(all, i + 1);
    }
  }

  /**
   * The cleaned code has the same length and order as its input: non-jump
   * instructions are copied unchanged, and each jump keeps its kind and label
   * name and gets the index of the first label with that name, -1 if none.
   */
  lemma FoldLabelsResolvesJumps(all: seq<Instr>)
    ensures forall j :: 0 <= j < |all| && !all[j].IsJump() ==> FoldLabels(all)[j] == all[j]
    ensures forall j :: 0 <= j < |all| && all[j].IsJump() ==>
      FoldLabels(all)[j] == all[j].(position := FindLabel(all, all[j].labelName))
  {
    FoldFromResolvesEach(all, 0);
    forall j | 0 <= j < |all|
      ensures !all[j].IsJump() ==> FoldLabels(all)[j] == all[j]
      ensures all[j].IsJump() ==> FoldLabels(all)[j] == all[j].(position := FindLabel(all, all[j].labelName))
    {
      assert FoldLabels(all)[j] == Resolve(all[j], all);
    }
  }

  /** Cleaning twice is cleaning once: labels do not move, so neither do targets. */
  lemma FoldLabelsIdempotent(all: seq<Instr>)
    ensures FoldLabels(FoldLabels(all)) == FoldLabels(all)
  {
    var once := FoldLabels(all);
    FoldLabelsResolvesJumps(all);
    FoldLabelsResolvesJumps(once);
    assert forall name :: FindLabel(once, name) == FindLabel(all, name) by {
      forall name ensures FindLabel(once, name) == FindLabel(all, name) {
        SameLabelsSameIndex(all, once, name);
      }
    }
  }

  /** Two codes that agree on which positions hold `Label(name)` find it at the same index. */
  lemma {:induction false} SameLabelsSameIndex(a: seq<Instr>, b: seq<Instr>, name: string)
    requires |a| == |b|
    requires forall j :: 0 <= j < |a| ==> (a[j] == Label(name) <==> b[j] == Label(name))
    ensures FindLabel(a, name) == FindLabel(b, name)
    decreases |a|
  {
    if |a| > 0 && a[0] != Label(name) {
      SameLabelsSameIndex(a[1..], b[1..], name);
    }
  }
}
