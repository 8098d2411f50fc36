/**
 * The register encoder: compacts the virtual frame, reserves low temporaries for narrow instructions
 * and inserts the moves that feed narrow and range instructions.
 */
module RegEncoder {
  import opened Options
  import opened RegIr

  // ----- what each step means, independently of the loops below -----

  function RenumberReg(r: Register, delta: Register): Register {
    if r == ACC_REG_ID then r else (r + delta) % REGISTER_MODULUS
  }

  function Renumbered(r: Register, minReg: Register, delta: Register): Register {
    if IsReal(r) && r >= minReg then RenumberReg(r, delta) else r
  }

  function RenumberedMove(m: Move, minReg: Register, delta: Register): Move {
    Move(if m.src >= minReg then RenumberReg(m.src, delta) else m.src,
         if m.dst >= minReg then RenumberReg(m.dst, delta) else m.dst)
  }

  function RenumberedMoves(ms: seq<Move>, minReg: Register, delta: Register): seq<Move> {
    seq(|ms|, i requires 0 <= i < |ms| => RenumberedMove(ms[i], minReg, delta))
  }

  function RenumberedSrcs(rs: seq<Register>, minReg: Register, delta: Register): seq<Register> {
    seq(|rs|, i requires 0 <= i < |rs| => Renumbered(rs[i], minReg, delta))
  }

  function RenumberedInst(inst: Inst, minReg: Register, delta: Register): Inst {
    match inst
    case Phi(d) => Phi(Renumbered(d, minReg, delta))
    case SpillFill(ms) => SpillFill(RenumberedMoves(ms, minReg, delta))
    case Op(_, d, rs, _, _, _) =>
      inst.(dst := Renumbered(d, minReg, delta), srcs := RenumberedSrcs(rs, minReg, delta))
  }

  function RenumberedBlock(b: Block, minReg: Register, delta: Register): Block {
    seq(|b|, i requires 0 <= i < |b| => RenumberedInst(b[i], minReg, delta))
  }

  function RenumberedProgram(p: seq<Block>, minReg: Register, delta: Register): seq<Block> {
    seq(|p|, i requires 0 <= i < |p| => RenumberedBlock(p[i], minReg, delta))
  }

  /** Operand positions the encoder redirects to a temporary. */
  predicate Selected(inst: Inst, i: int)
    requires inst.Op?
  {
    && 0 <= i < |inst.srcs|
    && match inst.shape
       case Fixed(_) => IsReal(inst.srcs[i]) && inst.srcs[i] >= NUM_COMPACTLY_ENCODED_REGS
       case Intrinsic(range) =>
         && i < NumArgs(inst)
         && inst.accPos != Some(i)
         && (range || (IsReal(inst.srcs[i]) && inst.srcs[i] >= NUM_COMPACTLY_ENCODED_REGS))
  }

  /** The selected positions before `n`, in order. */
  function Positions(inst: Inst, n: nat): (ps: seq<int>)
    requires inst.Op? && n <= |inst.srcs|
    ensures forall k :: 0 <= k < |ps| ==> 0 <= ps[k] < n
    decreases n
  {
    if n == 0 then [] else Positions(inst, n - 1) + (if Selected(inst, n - 1) then [n - 1] else [])
  }

  function NumSelected(inst: Inst): nat
    requires inst.Op?
  {
    |Positions(inst, |inst.srcs|)|
  }

  /** Temporaries below r16 that one visited instruction asks for. */
  function NeededForInst(inst: Inst): nat
    requires inst.Op?
  {
    match inst.shape
    case Fixed(_) => NumSelected(inst)
    case Intrinsic(range) => if range || NumArgs(inst) > MAX_NUM_NON_RANGE_ARGS then 0 else NumSelected(inst)
  }

  function Needed(inst: Inst): nat {
    if Checked(inst) then NeededForInst(inst) else 0
  }

  /** `n` is the largest number of temporaries any instruction needs (0 when there is none). */
  ghost predicate IsMaxNeeded(p: seq<Block>, n: nat) {
    && (forall b, i :: 0 <= b < |p| && 0 <= i < |p[b]| ==> Needed(p[b][i]) <= n)
    && (n == 0 || exists b, i :: 0 <= b < |p| && 0 <= i < |p[b]| && Needed(p[b][i]) == n)
  }

  /** First register and size of the block of temporaries that `inst` is redirected to. */
  function TempStart(inst: Inst, rangeStart: Register): Register {
    if IsRange(inst) then rangeStart else 0
  }

  /** Selected operands are fed by a move, all others are left alone. */
  ghost predicate Redirected(inst: Inst, moves: seq<Move>, srcs: seq<Register>)
    requires inst.Op?
  {
    && |srcs| == |inst.srcs|
    && forall i {:trigger srcs[i]} :: 0 <= i < |srcs| ==>
                     if Selected(inst, i) then Move(inst.srcs[i], srcs[i]) in moves else srcs[i] == inst.srcs[i]
  }

  /** The move copies a selected operand into one of the temporaries `inst` may use. */
  ghost predicate Feeds(inst: Inst, start: Register, m: Move)
    requires inst.Op?
  {
    && start <= m.dst < start + NumSelected(inst)
    && FromSelected(inst, m)
  }

  ghost predicate FromSelected(inst: Inst, m: Move)
    requires inst.Op?
  {
    exists i :: Selected(inst, i) && inst.srcs[i] == m.src
  }

  predicate DistinctTargets(moves: seq<Move>) {
    forall j, k :: 0 <= j < k < |moves| ==> moves[j].dst != moves[k].dst
  }

  /** Selected operands sit in consecutive registers from `start` on. */
  ghost predicate Consecutive(inst: Inst, start: Register, srcs: seq<Register>)
    requires inst.Op? && |srcs| == |inst.srcs|
  {
    var ps := Positions(inst, |inst.srcs|);
    forall k :: 0 <= k < |ps| ==> srcs[ps[k]] == start + k
  }

  /** The first operand position of its register among those that are redirected. */
  ghost predicate FirstOf(inst: Inst, j: int)
    requires inst.Op?
  {
    Selected(inst, j) && forall i :: Selected(inst, i) && i < j ==> inst.srcs[i] != inst.srcs[j]
  }

  /** Equal operands share a temporary; temporaries are given out from 0 on, as registers are first met. */
  ghost predicate Sharing(inst: Inst, moves: seq<Move>, srcs: seq<Register>)
    requires inst.Op? && |srcs| == |inst.srcs|
  {
    && (forall k :: 0 <= k < |moves| ==> moves[k].dst < |moves|)
    && (forall i, j :: Selected(inst, i) && Selected(inst, j) ==>
          (srcs[i] == srcs[j] <==> inst.srcs[i] == inst.srcs[j]))
    && (forall i, j :: Selected(inst, i) && FirstOf(inst, j) && i < j ==> srcs[i] < srcs[j])
  }

  /**
   * What redirecting the operands of one instruction means. The order of the moves is left open on purpose:
   * the encoder iterates over an unordered map.
   */
  ghost predicate Spilled(inst: Inst, rangeStart: Register, moves: seq<Move>, srcs: seq<Register>)
    requires inst.Op?
  {
    && Redirected(inst, moves, srcs)
    && (forall k {:trigger Feeds(inst, TempStart(inst, rangeStart), moves[k])} ::
          0 <= k < |moves| ==> Feeds(inst, TempStart(inst, rangeStart), moves[k]))
    && DistinctTargets(moves)
    && if IsRange(inst) then Consecutive(inst, rangeStart, srcs) else Sharing(inst, moves, srcs)
  }

  /** `out` is what `inst` becomes: itself, possibly preceded by one SpillFill. */
  ghost predicate SpilledInst(inst: Inst, rangeStart: Register, out: seq<Inst>) {
    if !Checked(inst) then out == [inst]
    else
      && 1 <= |out| <= 2
      && var last := out[|out| - 1];
      && last.Op? && last == inst.(srcs := last.srcs)
      && (|out| == 2 ==> out[0].SpillFill? && out[0].moves != [])
      && Spilled(inst, rangeStart, if |out| == 2 then out[0].moves else [], last.srcs)
  }

  ghost predicate SpilledBlock(b: Block, rangeStart: Register, out: Block)
    decreases |b|
  {
    if b == [] then out == []
    else exists k :: 0 <= k <= |out|
                     && SpilledBlock(b[..|b| - 1], rangeStart, out[..k])
                     && SpilledInst(b[|b| - 1], rangeStart, out[k..])
  }

  ghost predicate SpilledProgram(p: seq<Block>, rangeStart: Register, out: seq<Block>) {
    |out| == |p| && forall b :: 0 <= b < |p| ==> SpilledBlock(p[b], rangeStart, out[b])
  }

  // ----- range temporaries -----

  /** The running maximum is kept in a Register, so a count of 256 or more is truncated. */
  function RangeStep(ret: Register, inst: Inst): Register {
    if IsRange(inst) && ret < NumArgs(inst) then NumArgs(inst) % REGISTER_MODULUS else ret
  }

  function RangeTempsInBlock(ret: Register, b: Block): (r: Register)
    requires 0 <= ret < REGISTER_MODULUS
    ensures 0 <= r < REGISTER_MODULUS
    decreases |b|
  {
    if b == [] then ret else RangeStep(RangeTempsInBlock(ret, b[..|b| - 1]), b[|b| - 1])
  }

  function RangeTemps(p: seq<Block>): (r: Register)
    ensures 0 <= r < REGISTER_MODULUS
    decreases |p|
  {
    if p == [] then 0 else RangeTempsInBlock(RangeTemps(p[..|p| - 1]), p[|p| - 1])
  }

  // ----- frame layout: |locals|free|temps|args| -----

  function LeadingTrue(s: seq<bool>): (n: nat)
    ensures n <= |s|
    ensures forall i :: 0 <= i < n ==> s[i]
    ensures n < |s| ==> !s[n]
    decreases |s|
  {
    if s == [] || !s[0] then 0
    else
      var t := LeadingTrue(s[1..]);
      assert forall i :: 0 < i < t + 1 ==> s[i] == s[1..][i - 1];
      t + 1
  }

  function TrailingTrue(s: seq<bool>): (n: nat)
    ensures n <= |s|
    ensures forall i :: |s| - n <= i < |s| ==> s[i]
    ensures n < |s| ==> !s[|s| - n - 1]
    decreases |s|
  {
    if s == [] || !s[|s| - 1] then 0 else TrailingTrue(s[..|s| - 1]) + 1
  }

  /** The sizes of the four areas, read off the usage mask. */
  datatype Frame = Frame(locals: nat, temps: nat, args: nat, range: nat) {
    function NonArgs(): int { VIRTUAL_FRAME_SIZE - args }
    function MinReg(): int { NonArgs() - temps }
    /** Registers in use once the frame is compact, the range temporaries included. */
    function NumRegs(): int { locals + temps + range + args }
    /** How far temps and arguments move down. */
    function Down(): int { NonArgs() - (locals + temps + range) }
  }

  function FrameOf(mask: seq<bool>, args: nat, range: nat): Frame
    requires |mask| == VIRTUAL_FRAME_SIZE && args <= VIRTUAL_FRAME_SIZE
  {
    var free := mask[..VIRTUAL_FRAME_SIZE - args];
    var locals := LeadingTrue(free);
    Frame(locals, if locals == |free| then 0 else TrailingTrue(free), args, range)
  }

  /** Locals and temps leave no holes: nothing between them is used. */
  ghost predicate Dense(mask: seq<bool>, f: Frame) {
    && |mask| == VIRTUAL_FRAME_SIZE
    && forall r :: f.locals <= r < f.MinReg() && r < |mask| ==> !mask[r]
  }

  // ----- where each used register ends up -----

  function Place(f: Frame, up: nat, r: Register): Register {
    (if r >= f.MinReg() then r - f.Down() else r) + up
  }

  function Placed(f: Frame, up: nat, r: Register): Register {
    if IsReal(r) then Place(f, up, r) else r
  }

  function PlacedInst(f: Frame, up: nat, inst: Inst): Inst {
    match inst
    case Phi(d) => Phi(Placed(f, up, d))
    case SpillFill(ms) =>
      SpillFill(seq(|ms|, i requires 0 <= i < |ms| => Move(Placed(f, up, ms[i].src), Placed(f, up, ms[i].dst))))
    case Op(_, d, rs, _, _, _) =>
      inst.(dst := Placed(f, up, d), srcs := seq(|rs|, i requires 0 <= i < |rs| => Placed(f, up, rs[i])))
  }

  function PlacedBlock(f: Frame, up: nat, b: Block): Block {
    seq(|b|, i requires 0 <= i < |b| => PlacedInst(f, up, b[i]))
  }

  function PlacedProgram(f: Frame, up: nat, p: seq<Block>): seq<Block> {
    seq(|p|, i requires 0 <= i < |p| => PlacedBlock(f, up, p[i]))
  }

  /** The usage mask after compaction and after `up` low temporaries were put in front. */
  function PlacedMask(f: Frame, up: nat, mask: seq<bool>): seq<bool>
    requires |mask| == VIRTUAL_FRAME_SIZE && 0 <= f.Down() && f.NumRegs() + up <= VIRTUAL_FRAME_SIZE
  {
    seq(VIRTUAL_FRAME_SIZE, i requires 0 <= i < VIRTUAL_FRAME_SIZE =>
      if i < up then true
      else if i >= f.NumRegs() + up then false
      else if i - up < f.locals + f.range then i - up < f.locals && mask[i - up]
      else mask[i - up + f.Down()])
  }

  // ----- what the pass demands of the graph it is given -----

  ghost predicate InMask(mask: seq<bool>, r: Register) {
    IsReal(r) ==> 0 <= r < |mask| && mask[r]
  }

  ghost predicate RegistersInMask(mask: seq<bool>, inst: Inst) {
    match inst
    case Phi(d) => InMask(mask, d)
    case SpillFill(ms) =>
      forall i :: 0 <= i < |ms| ==>
        && InMask(mask, ms[i].src) && ms[i].src != INVALID_REG
        && InMask(mask, ms[i].dst) && ms[i].dst != INVALID_REG
    case Op(_, d, rs, _, _, _) => InMask(mask, d) && forall i :: 0 <= i < |rs| ==> InMask(mask, rs[i])
  }

  function RealOperands(rs: seq<Register>, n: nat): nat
    requires n <= |rs|
    decreases n
  {
    if n == 0 then 0 else RealOperands(rs, n - 1) + (if IsReal(rs[n - 1]) then 1 else 0)
  }

  /** The pass's own assertions about one instruction. */
  ghost predicate Encodable(inst: Inst) {
    inst.Op? ==>
      && (inst.requireState ==> |inst.srcs| > 0)
      && (Checked(inst) && inst.shape.Fixed? ==> RealOperands(inst.srcs, |inst.srcs|) <= MAX_NUM_INPUTS)
      && (IsRange(inst) ==>
            && NumArgs(inst) < REGISTER_MODULUS
            && forall i :: 0 <= i < NumArgs(inst) && inst.accPos != Some(i) ==> IsReal(inst.srcs[i]))
  }

  ghost predicate WellFormed(p: seq<Block>, mask: seq<bool>, args: nat) {
    && |mask| == VIRTUAL_FRAME_SIZE && args <= VIRTUAL_FRAME_SIZE
    && Dense(mask, FrameOf(mask, args, 0))
    && forall b, i :: 0 <= b < |p| && 0 <= i < |p[b]| ==> RegistersInMask(mask, p[b][i]) && Encodable(p[b][i])
  }

  /** What a successful run leaves behind: every used register in its place, then the spill moves. */
  ghost predicate Encoded(p: seq<Block>, f: Frame, temps: int, out: seq<Block>) {
    && 0 <= temps <= MAX_NUM_INPUTS
    && 0 <= f.Down() && f.NumRegs() + temps <= VIRTUAL_FRAME_SIZE
    && IsMaxNeeded(PlacedProgram(f, temps, p), temps)
    && SpilledProgram(PlacedProgram(f, temps, p), f.locals + temps, out)
  }

  /** `t` low temporaries fit the frame and are just what the program needs once they are reserved. */
  ghost predicate Reservation(p: seq<Block>, f: Frame, t: nat) {
    0 <= f.Down() && f.NumRegs() + t <= VIRTUAL_FRAME_SIZE && IsMaxNeeded(PlacedProgram(f, t, p), t)
  }

  ghost predicate NoSmaller(p: seq<Block>, f: Frame, n: int) {
    forall t: nat :: Reservation(p, f, t) ==> n <= t
  }

  ghost predicate CanReserve(p: seq<Block>, f: Frame) {
    exists t: nat :: Reservation(p, f, t)
  }
}
