/** Encoding preserves meaning: the encoded program gives every operation the operand values it had before. */
module RegEncoderMeaning {
  import opened RegIr
  import opened RegEncoder
  import opened RegEncoderLemmas

  /** The used part of a register file, read in the new places. */
  ghost function NewView(mask: seq<bool>, f: Frame, up: nat, regs: map<Register, Val>): map<Register, Val> {
    map r | 0 <= r < |mask| && mask[r] :: Read(regs, Place(f, up, r))
  }

  ghost function OldView(mask: seq<bool>, regs: map<Register, Val>): map<Register, Val> {
    map r | 0 <= r < |mask| && mask[r] :: Read(regs, r)
  }

  /** `st'` holds, in its new place, the value every used register has in `st`. */
  ghost predicate Agrees(mask: seq<bool>, f: Frame, up: nat, st: State, st': State) {
    st'.acc == st.acc && NewView(mask, f, up, st'.regs) == OldView(mask, st.regs)
  }

  ghost predicate Fits(mask: seq<bool>, f: Frame, up: nat) {
    Laid(mask, f) && f.NumRegs() + up <= VIRTUAL_FRAME_SIZE
  }

  lemma AgreesAt(mask: seq<bool>, f: Frame, up: nat, st: State, st': State, r: Register)
    requires Agrees(mask, f, up, st, st') && IsReal(r) && InMask(mask, r)
    ensures Read(st'.regs, Place(f, up, r)) == Read(st.regs, r)
  {
    assert NewView(mask, f, up, st'.regs)[r] == OldView(mask, st.regs)[r];
  }

  lemma OperandAgrees(mask: seq<bool>, f: Frame, up: nat, st: State, st': State, r: Register)
    requires Fits(mask, f, up) && Agrees(mask, f, up, st, st') && InMask(mask, r)
    ensures Operand(st', Placed(f, up, r)) == Operand(st, r)
  {
    if IsReal(r) {
      PlaceOfUsed(mask, f, up, r);
      AgreesAt(mask, f, up, st, st', r);
    }
  }

  lemma WriteAgrees(mask: seq<bool>, f: Frame, up: nat, st: State, st': State, d: Register, v: Val)
    requires Fits(mask, f, up) && Agrees(mask, f, up, st, st') && InMask(mask, d)
    ensures Agrees(mask, f, up, Write(st, d, v), Write(st', Placed(f, up, d), v))
  {
    if IsReal(d) {
      PlaceOfUsed(mask, f, up, d);
      forall r | 0 <= r < |mask| && mask[r]
        ensures Read(Write(st', Place(f, up, d), v).regs, Place(f, up, r)) == Read(Write(st, d, v).regs, r)
      {
        AgreesAt(mask, f, up, st, st', r);
        if Place(f, up, r) == Place(f, up, d) { PlaceIsInjective(mask, f, up, r, d); }
      }
    }
  }

  lemma MovesAgree(mask: seq<bool>, f: Frame, up: nat, st: State, st': State, ms: seq<Move>, ms': seq<Move>)
    requires Fits(mask, f, up) && Agrees(mask, f, up, st, st')
    requires forall i :: 0 <= i < |ms| ==> InMask(mask, ms[i].src) && InMask(mask, ms[i].dst)
    requires |ms'| == |ms|
    requires forall i :: 0 <= i < |ms| ==> ms'[i] == Move(Placed(f, up, ms[i].src), Placed(f, up, ms[i].dst))
    ensures Agrees(mask, f, up, ExecMoves(ms, st), ExecMoves(ms', st'))
    decreases |ms|
  {
    if ms != [] {
      var v := Operand(st, ms[0].src);
      OperandAgrees(mask, f, up, st, st', ms[0].src);
      WriteAgrees(mask, f, up, st, st', ms[0].dst, v);
      MovesAgree(mask, f, up, Write(st, ms[0].dst, v), Write(st', ms'[0].dst, v), ms[1..], ms'[1..]);
    }
  }

  lemma OperandsAgree(mask: seq<bool>, f: Frame, up: nat, st: State, st': State, inst: Inst)
    requires Fits(mask, f, up) && Agrees(mask, f, up, st, st')
    requires inst.Op? && RegistersInMask(mask, inst)
    ensures Operands(st', PlacedInst(f, up, inst).srcs) == Operands(st, inst.srcs)
  {
    forall i | 0 <= i < |inst.srcs|
      ensures Operand(st', Placed(f, up, inst.srcs[i])) == Operand(st, inst.srcs[i])
    {
      OperandAgrees(mask, f, up, st, st', inst.srcs[i]);
    }
  }

  /** One instruction, renamed but not yet spilled. */
  lemma PlacedInstAgrees(sem: Semantics, mask: seq<bool>, f: Frame, up: nat, st: State, st': State, inst: Inst)
    requires Fits(mask, f, up) && Agrees(mask, f, up, st, st') && RegistersInMask(mask, inst)
    ensures Agrees(mask, f, up, ExecInst(sem, inst, st), ExecInst(sem, PlacedInst(f, up, inst), st'))
    ensures Seen(PlacedInst(f, up, inst), st') == Seen(inst, st)
  {
    match inst
    case Phi(_) =>
    case SpillFill(ms) =>
      MovesAgree(mask, f, up, st, st', ms, PlacedInst(f, up, inst).moves);
    case Op(code, d, rs, _, _, _) =>
      OperandsAgree(mask, f, up, st, st', inst);
      var r := sem(code, Operands(st, rs), st.acc);
      WriteAgrees(mask, f, up, st.(acc := r.1), st'.(acc := r.1), d, r.0);
  }

  // ----- the inserted moves -----

  /** All moves write into `[lo, hi)` and read from outside it. */
  ghost predicate FillsBlock(lo: Register, hi: Register, moves: seq<Move>) {
    && 0 <= lo && hi <= VIRTUAL_FRAME_SIZE
    && (forall k :: 0 <= k < |moves| ==> lo <= moves[k].dst < hi)
    && (forall k :: 0 <= k < |moves| ==> moves[k].src < lo || hi <= moves[k].src)
  }

  /** Such moves deliver every source value, whatever order they are executed in. */
  lemma {:induction false} MovesDeliver(lo: Register, hi: Register, moves: seq<Move>, st: State)
    requires FillsBlock(lo, hi, moves) && DistinctTargets(moves)
    ensures var after := ExecMoves(moves, st);
            && after.acc == st.acc
            && (forall r :: r < lo || hi <= r ==> Read(after.regs, r) == Read(st.regs, r))
            && (forall k :: 0 <= k < |moves| ==> Read(after.regs, moves[k].dst) == Operand(st, moves[k].src))
            && (forall r :: (forall k :: 0 <= k < |moves| ==> moves[k].dst != r) ==>
              Read(after.regs, r) == Read(st.regs, r))
    decreases |moves|
  {
    if moves != [] {
      var m, rest := moves[0], moves[1..];
      var mid := Write(st, m.dst, Operand(st, m.src));
      MovesDeliver(lo, hi, rest, mid);
      var after := ExecMoves(rest, mid);
      assert Read(after.regs, m.dst) == Operand(st, m.src);
      forall k | 1 <= k < |moves|
        ensures Read(after.regs, moves[k].dst) == Operand(st, moves[k].src)
      {
        assert moves[k] == rest[k - 1];
      }
      forall r | forall k :: 0 <= k < |moves| ==> moves[k].dst != r
        ensures Read(after.regs, r) == Read(st.regs, r)
      {
        assert moves[0].dst != r;
      }
    }
  }

  lemma SameFills(lo: Register, hi: Register, ms: seq<Move>, ns: seq<Move>)
    requires FillsBlock(lo, hi, ms) && forall m :: m in ns ==> m in ms
    ensures FillsBlock(lo, hi, ns)
  {
    forall k | 0 <= k < |ns|
      ensures lo <= ns[k].dst < hi && (ns[k].src < lo || hi <= ns[k].src)
    {
      assert ns[k] in ms;
    }
  }

  /** So the order in which the unordered map yields the moves makes no difference. */
  lemma MoveOrderIsIrrelevant(lo: Register, hi: Register, ms: seq<Move>, ns: seq<Move>, st: State)
    requires FillsBlock(lo, hi, ms) && DistinctTargets(ms) && DistinctTargets(ns) && forall m :: m in ms <==> m in ns
    ensures ExecMoves(ms, st).acc == ExecMoves(ns, st).acc
    ensures forall r :: Read(ExecMoves(ms, st).regs, r) == Read(ExecMoves(ns, st).regs, r)
  {
    SameFills(lo, hi, ms, ns);
    MovesDeliver(lo, hi, ms, st);
    MovesDeliver(lo, hi, ns, st);
    forall r
      ensures Read(ExecMoves(ms, st).regs, r) == Read(ExecMoves(ns, st).regs, r)
    {
      if k :| 0 <= k < |ms| && ms[k].dst == r {
        assert ms[k] in ns;
      } else {
        forall k | 0 <= k < |ns|
          ensures ns[k].dst != r
        {
          assert ns[k] in ms;
        }
      }
    }
  }

  /** The temporaries `inst` may use were reserved: low ones for narrow instructions, the range block for ranges. */
  ghost predicate Reserved(f: Frame, up: nat, placed: Inst) {
    Checked(placed) ==> NumSelected(placed) <= if IsRange(placed) then f.range else up
  }

  ghost predicate Ready(mask: seq<bool>, f: Frame, up: nat, inst: Inst) {
    RegistersInMask(mask, inst) && Encodable(inst) && Reserved(f, up, PlacedInst(f, up, inst))
  }

  lemma OperandOutsideBlocks(mask: seq<bool>, f: Frame, up: nat, inst: Inst, i: int)
    requires Fits(mask, f, up) && Checked(inst) && Ready(mask, f, up, inst)
    requires 0 <= i < |inst.srcs|
    ensures var placed := PlacedInst(f, up, inst);
            var lo := TempStart(placed, f.locals + up);
            var hi := lo + NumSelected(placed);
            && 0 <= lo && hi <= VIRTUAL_FRAME_SIZE
            && (IsReal(placed.srcs[i]) ==> placed.srcs[i] < lo || hi <= placed.srcs[i])
            && (IsReal(placed.srcs[i]) <==> IsReal(inst.srcs[i]))
  {
    if IsReal(inst.srcs[i]) { PlaceOfUsed(mask, f, up, inst.srcs[i]); }
  }

  lemma SpillMovesFillBlock(mask: seq<bool>, f: Frame, up: nat, inst: Inst, moves: seq<Move>, srcs: seq<Register>)
    requires Fits(mask, f, up) && Checked(inst) && Ready(mask, f, up, inst)
    requires Spilled(PlacedInst(f, up, inst), f.locals + up, moves, srcs)
    ensures var placed := PlacedInst(f, up, inst);
            var lo := TempStart(placed, f.locals + up);
            FillsBlock(lo, lo + NumSelected(placed), moves)
  {
    var placed := PlacedInst(f, up, inst);
    var lo := TempStart(placed, f.locals + up);
    OperandOutsideBlocks(mask, f, up, inst, 0);
    forall k | 0 <= k < |moves|
      ensures lo <= moves[k].dst < lo + NumSelected(placed)
      ensures moves[k].src < lo || lo + NumSelected(placed) <= moves[k].src
    {
      assert Feeds(placed, lo, moves[k]);
      assert FromSelected(placed, moves[k]);
      var i :| Selected(placed, i) && placed.srcs[i] == moves[k].src;
      OperandOutsideBlocks(mask, f, up, inst, i);
    }
  }

  lemma SpilledOperand(mask: seq<bool>, f: Frame, up: nat, inst: Inst, moves: seq<Move>, srcs: seq<Register>,
      st: State, i: nat)
    requires Fits(mask, f, up) && Checked(inst) && Ready(mask, f, up, inst) && i < |srcs|
    requires Spilled(PlacedInst(f, up, inst), f.locals + up, moves, srcs)
    ensures Operand(ExecMoves(moves, st), srcs[i]) == Operand(st, PlacedInst(f, up, inst).srcs[i])
  {
    var placed := PlacedInst(f, up, inst);
    var lo := TempStart(placed, f.locals + up);
    SpillMovesFillBlock(mask, f, up, inst, moves, srcs);
    MovesDeliver(lo, lo + NumSelected(placed), moves, st);
    OperandOutsideBlocks(mask, f, up, inst, i);
    if Selected(placed, i) {
      var k :| 0 <= k < |moves| && moves[k] == Move(placed.srcs[i], srcs[i]);
      assert IsReal(srcs[i]);
    }
  }

  /** Executing the moves first, the redirected operands read what the original operands read. */
  lemma SpilledOperands(mask: seq<bool>, f: Frame, up: nat, inst: Inst, moves: seq<Move>, srcs: seq<Register>,
      st: State)
    requires Fits(mask, f, up) && Checked(inst) && Ready(mask, f, up, inst)
    requires Spilled(PlacedInst(f, up, inst), f.locals + up, moves, srcs)
    ensures Operands(ExecMoves(moves, st), srcs) == Operands(st, PlacedInst(f, up, inst).srcs)
    ensures ExecMoves(moves, st).acc == st.acc
    ensures NewView(mask, f, up, ExecMoves(moves, st).regs) == NewView(mask, f, up, st.regs)
  {
    var placed := PlacedInst(f, up, inst);
    var lo := TempStart(placed, f.locals + up);
    var hi := lo + NumSelected(placed);
    var after := ExecMoves(moves, st);
    SpillMovesFillBlock(mask, f, up, inst, moves, srcs);
    MovesDeliver(lo, hi, moves, st);
    forall i | 0 <= i < |srcs|
      ensures Operand(after, srcs[i]) == Operand(st, placed.srcs[i])
    {
      SpilledOperand(mask, f, up, inst, moves, srcs, st, i);
    }
    forall r | 0 <= r < |mask| && mask[r]
      ensures Read(after.regs, Place(f, up, r)) == Read(st.regs, Place(f, up, r))
    {
      PlaceOfUsed(mask, f, up, r);
    }
  }

  function RunOut(sem: Semantics, out: seq<Inst>, st: State): State
    requires 1 <= |out| <= 2
  {
    if |out| == 1 then ExecInst(sem, out[0], st) else ExecInst(sem, out[1], ExecInst(sem, out[0], st))
  }

  function SeenOut(sem: Semantics, out: seq<Inst>, st: State): seq<seq<Val>>
    requires 1 <= |out| <= 2
  {
    if |out| == 1 then Seen(out[0], st) else Seen(out[0], st) + Seen(out[1], ExecInst(sem, out[0], st))
  }

  /** An operation whose operands were redirected, after the moves that feed them. */
  lemma RedirectedAgrees(sem: Semantics, mask: seq<bool>, f: Frame, up: nat, st: State, st': State, inst: Inst,
                         moves: seq<Move>, last: Inst)
    requires Fits(mask, f, up) && Agrees(mask, f, up, st, st') && Checked(inst) && Ready(mask, f, up, inst)
    requires last.Op? && last == PlacedInst(f, up, inst).(srcs := last.srcs)
    requires Spilled(PlacedInst(f, up, inst), f.locals + up, moves, last.srcs)
    ensures Agrees(mask, f, up, ExecInst(sem, inst, st), ExecInst(sem, last, ExecMoves(moves, st')))
    ensures Seen(last, ExecMoves(moves, st')) == Seen(inst, st)
  {
    SpilledOperands(mask, f, up, inst, moves, last.srcs, st');
    OperandsAgree(mask, f, up, st, st', inst);
    var mid := ExecMoves(moves, st');
    var r := sem(inst.code, Operands(st, inst.srcs), st.acc);
    WriteAgrees(mask, f, up, st.(acc := r.1), mid.(acc := r.1), inst.dst, r.0);
  }

  /** One instruction, renamed and spilled. */
  lemma SpilledInstAgrees(sem: Semantics, mask: seq<bool>, f: Frame, up: nat, st: State, st': State, inst: Inst,
                          out: seq<Inst>)
    requires Fits(mask, f, up) && Agrees(mask, f, up, st, st') && Ready(mask, f, up, inst)
    requires SpilledInst(PlacedInst(f, up, inst), f.locals + up, out)
    ensures 1 <= |out| <= 2
    ensures Agrees(mask, f, up, ExecInst(sem, inst, st), RunOut(sem, out, st'))
    ensures SeenOut(sem, out, st') == Seen(inst, st)
  {
    if !Checked(inst) {
      PlacedInstAgrees(sem, mask, f, up, st, st', inst);
    } else if |out| == 2 {
      RedirectedAgrees(sem, mask, f, up, st, st', inst, out[0].moves, out[1]);
    } else {
      RedirectedAgrees(sem, mask, f, up, st, st', inst, [], out[0]);
    }
  }

  // ----- blocks and whole runs -----

  lemma ExecSuffix(sem: Semantics, b: Block, k: nat, st: State)
    requires k <= |b| && 1 <= |b| - k <= 2
    ensures ExecBlock(sem, b, st) == RunOut(sem, b[k..], ExecBlock(sem, b[..k], st))
    ensures SeenInBlock(sem, b, st) == SeenInBlock(sem, b[..k], st) + SeenOut(sem, b[k..], ExecBlock(sem, b[..k], st))
  {
    var c := b[..|b| - 1];
    if |b| - k == 2 {
      assert c[..|c| - 1] == b[..k];
    }
  }

  ghost predicate BlockReady(mask: seq<bool>, f: Frame, up: nat, b: Block) {
    forall i :: 0 <= i < |b| ==> Ready(mask, f, up, b[i])
  }

  lemma SpilledBlockSplit(f: Frame, up: nat, b: Block, out: Block) returns (k: nat)
    requires b != [] && SpilledBlock(PlacedBlock(f, up, b), f.locals + up, out)
    ensures k <= |out|
    ensures SpilledBlock(PlacedBlock(f, up, b[..|b| - 1]), f.locals + up, out[..k])
    ensures SpilledInst(PlacedInst(f, up, b[|b| - 1]), f.locals + up, out[k..])
  {
    k := SplitBlock(PlacedBlock(f, up, b), f.locals + up, out);
    PlacedInit(f, up, b);
  }

  lemma SplitBlock(q: Block, start: Register, out: Block) returns (k: nat)
    requires q != [] && SpilledBlock(q, start, out)
    ensures k <= |out| && SpilledBlock(q[..|q| - 1], start, out[..k]) && SpilledInst(q[|q| - 1], start, out[k..])
  {
    k :| 0 <= k <= |out| && SpilledBlock(q[..|q| - 1], start, out[..k]) && SpilledInst(q[|q| - 1], start, out[k..]);
  }

  lemma PlacedInit(f: Frame, up: nat, b: Block)
    requires b != []
    ensures var q := PlacedBlock(f, up, b);
            |q| == |b| && q[..|q| - 1] == PlacedBlock(f, up, b[..|b| - 1])
              && q[|q| - 1] == PlacedInst(f, up, b[|b| - 1])
  {
  }

  lemma {:induction false} SpilledBlockAgrees(sem: Semantics, mask: seq<bool>, f: Frame, up: nat, st: State, st': State,
                                              b: Block, out: Block)
    requires Fits(mask, f, up) && Agrees(mask, f, up, st, st') && BlockReady(mask, f, up, b)
    requires SpilledBlock(PlacedBlock(f, up, b), f.locals + up, out)
    ensures Agrees(mask, f, up, ExecBlock(sem, b, st), ExecBlock(sem, out, st'))
    ensures SeenInBlock(sem, out, st') == SeenInBlock(sem, b, st)
    decreases |b|
  {
    if b != [] {
      var n := |b| - 1;
      var k := SpilledBlockSplit(f, up, b, out);
      SpilledBlockAgrees(sem, mask, f, up, st, st', b[..n], out[..k]);
      SpilledInstAgrees(sem, mask, f, up, ExecBlock(sem, b[..n], st), ExecBlock(sem, out[..k], st'), b[n], out[k..]);
      ExecSuffix(sem, out, k, st');
    }
  }

  /** `out` is `p` with every used register in its new place and its spill moves in reserved temporaries. */
  ghost predicate Rewritten(mask: seq<bool>, f: Frame, up: nat, p: seq<Block>, out: seq<Block>) {
    && Fits(mask, f, up)
    && |out| == |p|
    && (forall b :: 0 <= b < |p| ==> BlockReady(mask, f, up, p[b]))
    && (forall b :: 0 <= b < |p| ==> SpilledBlock(PlacedBlock(f, up, p[b]), f.locals + up, out[b]))
  }

  /** `n` range temporaries are enough for every range instruction. */
  ghost predicate RangeCovered(p: seq<Block>, n: int) {
    forall b, i :: 0 <= b < |p| && 0 <= i < |p[b]| ==> RangeFits(p[b][i], n)
  }

  predicate RangeFits(inst: Inst, n: int) {
    IsRange(inst) ==> NumArgs(inst) <= n
  }

  lemma RangeIsCovered(p: seq<Block>)
    requires AllEncodable(p)
    ensures RangeCovered(p, RangeTemps(p))
  {
    forall b, i | 0 <= b < |p| && 0 <= i < |p[b]|
      ensures RangeFits(p[b][i], RangeTemps(p))
    {
      RangeTempsIsBound(p, b, i);
    }
  }

  lemma InstReady(mask: seq<bool>, f: Frame, temps: nat, inst: Inst)
    requires RegistersInMask(mask, inst) && Encodable(inst) && RangeFits(inst, f.range)
    requires Needed(PlacedInst(f, temps, inst)) <= temps
    ensures Ready(mask, f, temps, inst)
  {
    var placed := PlacedInst(f, temps, inst);
    if IsRange(placed) { RangeSelectsAtMostArgs(placed, |placed.srcs|); }
  }

  lemma BlockIsReady(p: seq<Block>, mask: seq<bool>, f: Frame, temps: nat, b: nat)
    requires AllInMask(mask, p) && AllEncodable(p) && RangeCovered(p, f.range)
    requires IsMaxNeeded(PlacedProgram(f, temps, p), temps) && b < |p|
    ensures BlockReady(mask, f, temps, p[b])
  {
    forall i | 0 <= i < |p[b]|
      ensures Ready(mask, f, temps, p[b][i])
    {
      assert PlacedProgram(f, temps, p)[b][i] == PlacedInst(f, temps, p[b][i]);
      InstReady(mask, f, temps, p[b][i]);
    }
  }

  lemma BlocksReady(p: seq<Block>, mask: seq<bool>, f: Frame, temps: nat)
    requires AllInMask(mask, p) && AllEncodable(p) && RangeCovered(p, f.range)
    requires IsMaxNeeded(PlacedProgram(f, temps, p), temps)
    ensures forall b :: 0 <= b < |p| ==> BlockReady(mask, f, temps, p[b])
  {
    forall b | 0 <= b < |p|
      ensures BlockReady(mask, f, temps, p[b])
    {
      BlockIsReady(p, mask, f, temps, b);
    }
  }

  lemma BlocksSpilled(p: seq<Block>, f: Frame, temps: nat, out: seq<Block>)
    requires SpilledProgram(PlacedProgram(f, temps, p), f.locals + temps, out)
    ensures |out| == |p| && forall b :: 0 <= b < |p| ==> SpilledBlock(PlacedBlock(f, temps, p[b]), f.locals + temps,
      out[b])
  {
    forall b | 0 <= b < |p|
      ensures SpilledBlock(PlacedBlock(f, temps, p[b]), f.locals + temps, out[b])
    {
      assert PlacedProgram(f, temps, p)[b] == PlacedBlock(f, temps, p[b]);
    }
  }

  lemma AllBlocksReady(p: seq<Block>, mask: seq<bool>, f: Frame, temps: nat, out: seq<Block>)
    requires Laid(mask, f) && AllInMask(mask, p) && AllEncodable(p) && RangeCovered(p, f.range)
    requires Encoded(p, f, temps, out)
    ensures Rewritten(mask, f, temps, p, out)
  {
    BlocksReady(p, mask, f, temps);
    BlocksSpilled(p, f, temps, out);
  }

  lemma EncodedIsRewritten(p: seq<Block>, mask: seq<bool>, args: nat, temps: nat, out: seq<Block>)
    requires WellFormed(p, mask, args) && Encoded(p, FrameOf(mask, args, RangeTemps(p)), temps, out)
    ensures Rewritten(mask, FrameOf(mask, args, RangeTemps(p)), temps, p, out)
  {
    WellFormedIsLaid(p, mask, args, RangeTemps(p));
    RangeIsCovered(p);
    AllBlocksReady(p, mask, FrameOf(mask, args, RangeTemps(p)), temps, out);
  }

  lemma TraceStep(sem: Semantics, next: Control, p: seq<Block>, at: nat, steps: nat, st: State)
    requires steps > 0 && at < |p|
    ensures var seen := SeenInBlock(sem, p[at], st);
            Trace(sem, next, p, at, steps, st)
            == seen + Trace(sem, next, p, next(at, seen), steps - 1, ExecBlock(sem, p[at], st))
  {
  }

  lemma RewrittenStep(sem: Semantics, mask: seq<bool>, f: Frame, up: nat, p: seq<Block>, out: seq<Block>, at: nat,
                      st: State, st': State)
    requires Rewritten(mask, f, up, p, out) && at < |p| && Agrees(mask, f, up, st, st')
    ensures |out| == |p| && Agrees(mask, f, up, ExecBlock(sem, p[at], st), ExecBlock(sem, out[at], st'))
    ensures SeenInBlock(sem, out[at], st') == SeenInBlock(sem, p[at], st)
  {
    SpilledBlockAgrees(sem, mask, f, up, st, st', p[at], out[at]);
  }

  type Relation = (State, State) -> bool

  /** Block by block, `out` keeps the relation and shows what `p` shows. */
  ghost predicate Simulates(sem: Semantics, rel: Relation, p: seq<Block>, out: seq<Block>) {
    |out| == |p| && forall at, st, st' :: 0 <= at < |p| && rel(st, st') ==>
      SameBlockRun(sem, rel, p[at], out[at], st, st')
  }

  ghost predicate SameBlockRun(sem: Semantics, rel: Relation, b: Block, c: Block, st: State, st': State) {
    rel(ExecBlock(sem, b, st), ExecBlock(sem, c, st')) && SeenInBlock(sem, c, st') == SeenInBlock(sem, b, st)
  }

  lemma {:induction false} SimulatedTrace(sem: Semantics, next: Control, rel: Relation, p: seq<Block>, out: seq<Block>,
                                          at: nat, steps: nat, st: State, st': State)
    requires Simulates(sem, rel, p, out) && rel(st, st')
    ensures Trace(sem, next, out, at, steps, st') == Trace(sem, next, p, at, steps, st)
    decreases steps
  {
    if steps > 0 && at < |p| {
      assert SameBlockRun(sem, rel, p[at], out[at], st, st');
      var seen := SeenInBlock(sem, p[at], st);
      SimulatedTrace(sem, next, rel, p, out, next(at, seen), steps - 1, ExecBlock(sem, p[at], st),
        ExecBlock(sem, out[at], st'));
      SameTraceStep(sem, next, p, out, at, steps, st, st');
    }
  }

  lemma RewrittenTrace(sem: Semantics, next: Control, p: seq<Block>, mask: seq<bool>, f: Frame, up: nat,
                       out: seq<Block>, at: nat, steps: nat, st: State, st': State)
    requires Rewritten(mask, f, up, p, out) && Agrees(mask, f, up, st, st')
    ensures Trace(sem, next, out, at, steps, st') == Trace(sem, next, p, at, steps, st)
  {
    ghost var rel := (s: State, s': State) => Agrees(mask, f, up, s, s');
    forall b, s, s' | 0 <= b < |p| && rel(s, s')
      ensures SameBlockRun(sem, rel, p[b], out[b], s, s')
    {
      RewrittenStep(sem, mask, f, up, p, out, b, s, s');
    }
    SimulatedTrace(sem, next, rel, p, out, at, steps, st, st');
  }

  lemma SameTraceStep(sem: Semantics, next: Control, p: seq<Block>, out: seq<Block>, at: nat, steps: nat, st: State,
      st': State)
    requires steps > 0 && at < |p| == |out|
    requires var seen := SeenInBlock(sem, p[at], st);
             && SeenInBlock(sem, out[at], st') == seen
             && Trace(sem, next, out, next(at, seen), steps - 1, ExecBlock(sem, out[at], st'))
                == Trace(sem, next, p, next(at, seen), steps - 1, ExecBlock(sem, p[at], st))
    ensures Trace(sem, next, out, at, steps, st') == Trace(sem, next, p, at, steps, st)
  {
    TraceStep(sem, next, out, at, steps, st');
    TraceStep(sem, next, p, at, steps, st);
  }

  /**
   * Main result. However the opcodes compute and however control flows, a run of the encoded program from the
   * renamed register file gives every operation the operand values it had in the original program.
   */
  lemma EncodingPreservesTrace(sem: Semantics, next: Control, p: seq<Block>, mask: seq<bool>, args: nat,
                               temps: nat, out: seq<Block>, at: nat, steps: nat, st: State, st': State)
    requires WellFormed(p, mask, args) && Encoded(p, FrameOf(mask, args, RangeTemps(p)), temps, out)
    requires Agrees(mask, FrameOf(mask, args, RangeTemps(p)), temps, st, st')
    ensures Trace(sem, next, out, at, steps, st') == Trace(sem, next, p, at, steps, st)
  {
    EncodedIsRewritten(p, mask, args, temps, out);
    RewrittenTrace(sem, next, p, mask, FrameOf(mask, args, RangeTemps(p)), temps, out, at, steps, st, st');
  }

  /** A block of the encoded program also leaves the renamed state behind. */
  lemma EncodingPreservesState(sem: Semantics, p: seq<Block>, mask: seq<bool>, args: nat, temps: nat, out: seq<Block>,
                               b: nat, st: State, st': State)
    requires WellFormed(p, mask, args) && Encoded(p, FrameOf(mask, args, RangeTemps(p)), temps, out)
    requires b < |p| && Agrees(mask, FrameOf(mask, args, RangeTemps(p)), temps, st, st')
    ensures |out| == |p|
    ensures Agrees(mask, FrameOf(mask, args, RangeTemps(p)), temps, ExecBlock(sem, p[b], st),
      ExecBlock(sem, out[b], st'))
  {
    EncodedIsRewritten(p, mask, args, temps, out);
    RewrittenStep(sem, mask, FrameOf(mask, args, RangeTemps(p)), temps, p, out, b, st, st');
  }
}
