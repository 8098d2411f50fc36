/**
 * The part of the optimizer IR that the register encoder looks at, and a machine that runs it.
 * Opcodes are uninterpreted: an arbitrary function from operand values to a result.
 */
module RegIr {
  import opened Options

  /** A register number; in the compiler an unsigned 8-bit value, so all arithmetic on it wraps explicitly. */
  type Register = int

  const REGISTER_MODULUS: int := 256
  const INVALID_REG: Register := 255
  const ACC_REG_ID: Register := 254
  const VIRTUAL_FRAME_SIZE: Register := 254

  const MAX_NUM_NON_RANGE_ARGS: int := 4
  const MAX_NUM_INPUTS: int := MAX_NUM_NON_RANGE_ARGS
  const NUM_COMPACTLY_ENCODED_REGS: Register := 16

  datatype Move = Move(src: Register, dst: Register)

  /** Operand shape: intrinsics have dynamic operands, all other visited opcodes a fixed number of them. */
  datatype Shape =
    | Intrinsic(range: bool)
    | Fixed(narrow: bool)

  datatype Inst =
    | Phi(phiDst: Register)
    | SpillFill(moves: seq<Move>)
    | Op(code: int, dst: Register, srcs: seq<Register>, shape: Shape, requireState: bool, accPos: Option<nat>)

  type Block = seq<Inst>

  predicate IsReal(r: Register) {
    r != ACC_REG_ID && r != INVALID_REG
  }

  /** Number of data operands: the last input of an instruction that requires state is its SaveState. */
  function NumArgs(inst: Inst): int
    requires inst.Op?
  {
    |inst.srcs| - (if inst.requireState then 1 else 0)
  }

  predicate IsRange(inst: Inst) {
    inst.Op? && inst.shape.Intrinsic? && inst.shape.range
  }

  /**
   * The instructions for which the visitors call Check4Width. Intrinsics that are no range calls go to Check8Width,
   * which does nothing; what the encoder would do with them is modelled but never reached from here.
   */
  predicate Checked(inst: Inst) {
    inst.Op? && |inst.srcs| != 0 && (IsRange(inst) || (inst.shape.Fixed? && inst.shape.narrow))
  }

  // ----- the machine -----

  type Val = int

  datatype State = State(regs: map<Register, Val>, acc: Val)

  /** What an opcode computes: (code, operands, accumulator) to (result, new accumulator). */
  type Semantics = (int, seq<Val>, Val) -> (Val, Val)

  function Read(regs: map<Register, Val>, r: Register): Val {
    if r in regs then regs[r] else 0
  }

  function Operand(st: State, r: Register): Val {
    if r == ACC_REG_ID then st.acc else if r == INVALID_REG then 0 else Read(st.regs, r)
  }

  function Write(st: State, r: Register, v: Val): State {
    if r == ACC_REG_ID then st.(acc := v)
    else if r == INVALID_REG then st
    else st.(regs := st.regs[r := v])
  }

  function Operands(st: State, srcs: seq<Register>): seq<Val> {
    seq(|srcs|, i requires 0 <= i < |srcs| => Operand(st, srcs[i]))
  }

  /** Moves of one SpillFill are emitted, and so executed, one after the other. */
  function ExecMoves(moves: seq<Move>, st: State): State
    decreases |moves|
  {
    if moves == [] then st
    else ExecMoves(moves[1..], Write(st, moves[0].dst, Operand(st, moves[0].src)))
  }

  function ExecInst(sem: Semantics, inst: Inst, st: State): State {
    match inst
    case Phi(_) => st
    case SpillFill(moves) => ExecMoves(moves, st)
    case Op(code, dst, srcs, _, _, _) =>
      var (result, acc) := sem(code, Operands(st, srcs), st.acc);
      Write(st.(acc := acc), dst, result)
  }

  /** What an instruction lets a reader see: the operand values an operation is given. */
  function Seen(inst: Inst, st: State): seq<seq<Val>> {
    if inst.Op? then [Operands(st, inst.srcs)] else []
  }

  function ExecBlock(sem: Semantics, b: Block, st: State): State
    decreases |b|
  {
    if b == [] then st
    else ExecInst(sem, b[|b| - 1], ExecBlock(sem, b[..|b| - 1], st))
  }

  function SeenInBlock(sem: Semantics, b: Block, st: State): seq<seq<Val>>
    decreases |b|
  {
    if b == [] then []
    else SeenInBlock(sem, b[..|b| - 1], st) + Seen(b[|b| - 1], ExecBlock(sem, b[..|b| - 1], st))
  }

  /** Which block runs next, decided by the block and the operand values its operations were given. */
  type Control = (nat, seq<seq<Val>>) -> nat

  /** Everything seen while running up to `steps` blocks from block `at`. */
  function Trace(sem: Semantics, next: Control, prog: seq<Block>, at: nat, steps: nat, st: State): seq<seq<Val>>
    decreases steps
  {
    if steps == 0 || at >= |prog| then []
    else
      var seen := SeenInBlock(sem, prog[at], st);
      seen + Trace(sem, next, prog, next(at, seen), steps - 1, ExecBlock(sem, prog[at], st))
  }
}
