/** What the encoder leaves of each instruction, by the instruction's shape and registers alone. */
module RegEncoderShapes {
  import opened Options
  import opened RegIr
  import opened RegEncoder
  import opened RegEncoderLemmas
  import opened RegEncoderMeaning

  /** Neither the accumulator nor no register at all. */
  predicate InFrame(r: Register) {
    r != 254 && r != 255
  }

  /** Temps and arguments move down behind the locals and the range block, then everything moves up. */
  function Moved(f: Frame, up: nat, r: Register): Register {
    if !InFrame(r) then r
    else if r < 254 - f.args - f.temps then r + up
    else r + up + f.locals + f.temps + f.range + f.args - 254
  }

  function DataCount(inst: Inst): int
    requires inst.Op?
  {
    if inst.requireState then |inst.srcs| - 1 else |inst.srcs|
  }

  /** An operand of a range instruction that is neither in the accumulator slot nor the SaveState. */
  predicate IsRangeOperand(inst: Inst, i: int)
    requires inst.Op?
  {
    0 <= i < DataCount(inst) && inst.accPos != Some(i)
  }

  /** Which of the consecutive registers it gets: its index without the accumulator slot. */
  function RangeIndex(inst: Inst, i: int): int
    requires inst.Op?
  {
    if inst.accPos.Some? && inst.accPos.value < i then i - 1 else i
  }

  predicate IsHigh(r: Register) {
    InFrame(r) && r >= 16
  }

  /** A register that a narrow instruction cannot name. */
  predicate HighAt(f: Frame, up: nat, inst: Inst, i: int)
    requires inst.Op?
  {
    0 <= i < |inst.srcs| && IsHigh(Moved(f, up, inst.srcs[i]))
  }

  /** The operands of a range instruction are consecutive from `start` on, all others stay. */
  ghost predicate RangeWritten(f: Frame, up: nat, inst: Inst, srcs: seq<Register>, fed: bool)
    requires inst.Op? && |srcs| == |inst.srcs|
  {
    && (forall i :: 0 <= i < |srcs| ==>
          srcs[i] == if IsRangeOperand(inst, i) then f.locals + up + RangeIndex(inst, i)
                     else Moved(f, up, inst.srcs[i]))
    && (fed <==> exists i :: IsRangeOperand(inst, i))
  }

  /** High operands of a narrow instruction become temporaries, the same one exactly for the same register. */
  ghost predicate NarrowWritten(f: Frame, up: nat, inst: Inst, srcs: seq<Register>, fed: bool)
    requires inst.Op? && |srcs| == |inst.srcs|
  {
    && (forall i :: 0 <= i < |srcs| ==>
          if HighAt(f, up, inst, i) then 0 <= srcs[i] < up && up <= 4
          else srcs[i] == Moved(f, up, inst.srcs[i]))
    && (forall i, j :: HighAt(f, up, inst, i) && HighAt(f, up, inst, j) ==>
          (srcs[i] == srcs[j] <==> inst.srcs[i] == inst.srcs[j]))
    && (fed <==> exists i :: HighAt(f, up, inst, i))
  }

  ghost predicate AllMoved(f: Frame, up: nat, inst: Inst, srcs: seq<Register>)
    requires inst.Op? && |srcs| == |inst.srcs|
  {
    forall i :: 0 <= i < |srcs| ==> srcs[i] == Moved(f, up, inst.srcs[i])
  }

  /** Nothing but registers is changed, and the destination moves to its place. */
  ghost predicate SameOp(f: Frame, up: nat, inst: Inst, now: Inst)
    requires inst.Op?
  {
    && now.Op? && now.code == inst.code && now.shape == inst.shape && now.requireState == inst.requireState
    && now.accPos == inst.accPos && now.dst == Moved(f, up, inst.dst) && |now.srcs| == |inst.srcs|
  }

  ghost predicate MovesMoved(f: Frame, up: nat, ms: seq<Move>, now: seq<Move>) {
    |now| == |ms| && forall i :: 0 <= i < |ms| ==>
      now[i].src == Moved(f, up, ms[i].src) && now[i].dst == Moved(f, up, ms[i].dst)
  }

  /** What an instruction becomes; `fed` tells whether moves were put in front of it. */
  ghost predicate Written(f: Frame, up: nat, inst: Inst, now: Inst, fed: bool) {
    match inst
    case Phi(d) => now == Phi(Moved(f, up, d)) && !fed
    case SpillFill(ms) => now.SpillFill? && MovesMoved(f, up, ms, now.moves) && !fed
    case Op(_, _, _, shape, _, _) =>
      && SameOp(f, up, inst, now)
      && match shape
         case Intrinsic(true) => RangeWritten(f, up, inst, now.srcs, fed)
         case Fixed(true) => NarrowWritten(f, up, inst, now.srcs, fed)
         case _ => AllMoved(f, up, inst, now.srcs) && !fed
  }

  // ----- one instruction -----

  lemma PlacedIsMoved(mask: seq<bool>, f: Frame, up: nat, r: Register)
    requires Fits(mask, f, up) && InMask(mask, r)
    ensures Placed(f, up, r) == Moved(f, up, r) && (InFrame(r) <==> InFrame(Moved(f, up, r)))
    ensures InFrame(r) ==> 0 <= Moved(f, up, r) < 254
  {
    if InFrame(r) { PlaceOfUsed(mask, f, up, r); }
  }

  lemma OperandsPlaced(mask: seq<bool>, f: Frame, up: nat, inst: Inst)
    requires Fits(mask, f, up) && inst.Op? && RegistersInMask(mask, inst)
    ensures PlacedInst(f, up, inst).dst == Moved(f, up, inst.dst)
    ensures forall i :: 0 <= i < |inst.srcs| ==>
              && PlacedInst(f, up, inst).srcs[i] == Moved(f, up, inst.srcs[i])
              && (InFrame(inst.srcs[i]) <==> InFrame(Moved(f, up, inst.srcs[i])))
  {
    PlacedIsMoved(mask, f, up, inst.dst);
    forall i | 0 <= i < |inst.srcs|
      ensures PlacedInst(f, up, inst).srcs[i] == Moved(f, up, inst.srcs[i])
      ensures InFrame(inst.srcs[i]) <==> InFrame(Moved(f, up, inst.srcs[i]))
    {
      PlacedIsMoved(mask, f, up, inst.srcs[i]);
    }
  }

  /** The operands of a range instruction are taken in order. */
  lemma {:induction false} RangePositions(inst: Inst, n: nat, i: int)
    requires inst.Op? && inst.shape == Intrinsic(true) && n <= |inst.srcs|
    ensures n <= DataCount(inst) ==> |Positions(inst, n)| == RangeIndex(inst, n)
    ensures i < n && IsRangeOperand(inst, i) ==>
              RangeIndex(inst, i) < |Positions(inst, n)| && Positions(inst, n)[RangeIndex(inst, i)] == i
    decreases n
  {
    if n > 0 { RangePositions(inst, n - 1, i); }
  }

  lemma RangeIsWritten(inst: Inst, last: Inst, start: Register, moves: seq<Move>)
    requires inst.Op? && inst.shape == Intrinsic(true) && last.Op? && Spilled(inst, start, moves, last.srcs)
    ensures |last.srcs| == |inst.srcs|
    ensures forall i :: 0 <= i < |inst.srcs| ==>
              last.srcs[i] == if IsRangeOperand(inst, i) then start + RangeIndex(inst, i) else inst.srcs[i]
    ensures moves != [] <==> exists i :: IsRangeOperand(inst, i)
  {
    forall i | 0 <= i < |inst.srcs|
      ensures last.srcs[i] == if IsRangeOperand(inst, i) then start + RangeIndex(inst, i) else inst.srcs[i]
      ensures IsRangeOperand(inst, i) ==> moves != []
    {
      RangePositions(inst, |inst.srcs|, i);
      assert Selected(inst, i) <==> IsRangeOperand(inst, i);
    }
    if moves != [] {
      assert Feeds(inst, TempStart(inst, start), moves[0]);
      assert FromSelected(inst, moves[0]);
      var i :| Selected(inst, i) && inst.srcs[i] == moves[0].src;
      assert IsRangeOperand(inst, i);
    }
  }

  lemma NarrowIsWritten(inst: Inst, last: Inst, start: Register, moves: seq<Move>)
    requires inst.Op? && inst.shape == Fixed(true) && last.Op? && Spilled(inst, start, moves, last.srcs)
    ensures |last.srcs| == |inst.srcs|
    ensures forall i :: 0 <= i < |inst.srcs| ==>
              if IsHigh(inst.srcs[i]) then 0 <= last.srcs[i] < NumSelected(inst) else last.srcs[i] == inst.srcs[i]
    ensures forall i, j :: 0 <= i < |inst.srcs| && 0 <= j < |inst.srcs| && IsHigh(inst.srcs[i]) && IsHigh(inst.srcs[j])
                           ==> (last.srcs[i] == last.srcs[j] <==> inst.srcs[i] == inst.srcs[j])
    ensures moves != [] <==> exists i :: 0 <= i < |inst.srcs| && IsHigh(inst.srcs[i])
  {
    assert forall i :: Selected(inst, i) <==> 0 <= i < |inst.srcs| && IsHigh(inst.srcs[i]);
    forall i | 0 <= i < |inst.srcs| && IsHigh(inst.srcs[i])
      ensures 0 <= last.srcs[i] < NumSelected(inst) && moves != []
    {
      var k :| 0 <= k < |moves| && moves[k] == Move(inst.srcs[i], last.srcs[i]);
      assert Feeds(inst, TempStart(inst, start), moves[k]);
    }
    if moves != [] {
      assert Feeds(inst, TempStart(inst, start), moves[0]);
      assert FromSelected(inst, moves[0]);
    }
  }

  lemma RangeOpIsWritten(mask: seq<bool>, f: Frame, up: nat, inst: Inst, last: Inst, moves: seq<Move>)
    requires Fits(mask, f, up) && inst.Op? && inst.shape == Intrinsic(true) && RegistersInMask(mask, inst)
    requires last.Op? && Spilled(PlacedInst(f, up, inst), f.locals + up, moves, last.srcs)
    ensures |last.srcs| == |inst.srcs| && RangeWritten(f, up, inst, last.srcs, moves != [])
  {
    var placed := PlacedInst(f, up, inst);
    OperandsPlaced(mask, f, up, inst);
    RangeIsWritten(placed, last, f.locals + up, moves);
    forall i
      ensures IsRangeOperand(inst, i) <==> IsRangeOperand(placed, i)
      ensures RangeIndex(inst, i) == RangeIndex(placed, i)
    {
    }
  }

  lemma NarrowOpIsWritten(mask: seq<bool>, f: Frame, up: nat, inst: Inst, last: Inst, moves: seq<Move>)
    requires Fits(mask, f, up) && up <= 4 && inst.Op? && inst.shape == Fixed(true) && RegistersInMask(mask, inst)
    requires NumSelected(PlacedInst(f, up, inst)) <= up
    requires last.Op? && Spilled(PlacedInst(f, up, inst), f.locals + up, moves, last.srcs)
    ensures |last.srcs| == |inst.srcs| && NarrowWritten(f, up, inst, last.srcs, moves != [])
  {
    var placed := PlacedInst(f, up, inst);
    OperandsPlaced(mask, f, up, inst);
    NarrowIsWritten(placed, last, f.locals + up, moves);
    forall i, j | HighAt(f, up, inst, i) && HighAt(f, up, inst, j)
      ensures placed.srcs[i] == placed.srcs[j] <==> inst.srcs[i] == inst.srcs[j]
    {
      if placed.srcs[i] == placed.srcs[j] { PlaceIsInjective(mask, f, up, inst.srcs[i], inst.srcs[j]); }
    }
    forall i
      ensures HighAt(f, up, inst, i) <==> 0 <= i < |placed.srcs| && IsHigh(placed.srcs[i])
    {
    }
  }

  lemma OpIsWritten(mask: seq<bool>, f: Frame, up: nat, inst: Inst, out: seq<Inst>)
    requires Fits(mask, f, up) && up <= 4 && inst.Op? && Ready(mask, f, up, inst)
    requires SpilledInst(PlacedInst(f, up, inst), f.locals + up, out)
    ensures 1 <= |out| <= 2 && Written(f, up, inst, out[|out| - 1], |out| == 2)
  {
    OperandsPlaced(mask, f, up, inst);
    var moves := if |out| == 2 then out[0].moves else [];
    if inst.srcs == [] || !(inst.shape == Intrinsic(true) || inst.shape == Fixed(true)) {
      assert out == [PlacedInst(f, up, inst)];
    } else if inst.shape == Intrinsic(true) {
      RangeOpIsWritten(mask, f, up, inst, out[|out| - 1], moves);
    } else {
      NarrowOpIsWritten(mask, f, up, inst, out[|out| - 1], moves);
    }
  }

  lemma InstIsWritten(mask: seq<bool>, f: Frame, up: nat, inst: Inst, out: seq<Inst>)
    requires Fits(mask, f, up) && up <= 4 && Ready(mask, f, up, inst)
    requires SpilledInst(PlacedInst(f, up, inst), f.locals + up, out)
    ensures 1 <= |out| <= 2 && Written(f, up, inst, out[|out| - 1], |out| == 2)
    ensures |out| == 2 ==> out[0].SpillFill? && out[0].moves != []
  {
    match inst
    case Phi(d) => PlacedIsMoved(mask, f, up, d);
    case SpillFill(ms) => MovesAreMoved(mask, f, up, ms);
    case Op(_, _, _, _, _, _) => OpIsWritten(mask, f, up, inst, out);
  }

  lemma MovesAreMoved(mask: seq<bool>, f: Frame, up: nat, ms: seq<Move>)
    requires Fits(mask, f, up) && RegistersInMask(mask, SpillFill(ms))
    ensures MovesMoved(f, up, ms, PlacedInst(f, up, SpillFill(ms)).moves)
  {
    forall i | 0 <= i < |ms|
      ensures Placed(f, up, ms[i].src) == Moved(f, up, ms[i].src)
      ensures Placed(f, up, ms[i].dst) == Moved(f, up, ms[i].dst)
    {
      PlacedIsMoved(mask, f, up, ms[i].src);
      PlacedIsMoved(mask, f, up, ms[i].dst);
    }
  }

  // ----- blocks -----

  /** The instructions of a block stand at `at`, in order, each behind its moves if it has any. */
  ghost predicate BlockWritten(f: Frame, up: nat, b: Block, out: Block, at: seq<nat>) {
    && |at| == |b| && |out| == (if b == [] then 0 else at[|b| - 1] + 1)
    && forall i :: 0 <= i < |b| ==> InstWritten(f, up, b, out, at, i)
  }

  ghost predicate InstWritten(f: Frame, up: nat, b: Block, out: Block, at: seq<nat>, i: nat)
    requires |at| == |b| && i < |b|
  {
    var from := if i == 0 then 0 else at[i - 1] + 1;
    && from <= at[i] <= from + 1 && at[i] < |out|
    && Written(f, up, b[i], out[at[i]], at[i] != from)
    && (at[i] != from ==> out[from].SpillFill? && out[from].moves != [])
  }

  lemma {:induction false} BlockIsWritten(mask: seq<bool>, f: Frame, up: nat, b: Block, out: Block)
    returns (at: seq<nat>)
    requires Fits(mask, f, up) && up <= 4 && BlockReady(mask, f, up, b)
    requires SpilledBlock(PlacedBlock(f, up, b), f.locals + up, out)
    ensures BlockWritten(f, up, b, out, at)
    decreases |b|
  {
    at := [];
    if b != [] {
      var n := |b| - 1;
      var k := SpilledBlockSplit(f, up, b, out);
      at := BlockIsWritten(mask, f, up, b[..n], out[..k]);
      at := LastIsWritten(mask, f, up, b, out, k, at);
    }
  }

  lemma LastIsWritten(mask: seq<bool>, f: Frame, up: nat, b: Block, out: Block, k: nat, init: seq<nat>)
    returns (at: seq<nat>)
    requires Fits(mask, f, up) && up <= 4 && b != [] && Ready(mask, f, up, b[|b| - 1]) && k <= |out|
    requires SpilledInst(PlacedInst(f, up, b[|b| - 1]), f.locals + up, out[k..])
    requires BlockWritten(f, up, b[..|b| - 1], out[..k], init)
    ensures BlockWritten(f, up, b, out, at)
  {
    InstIsWritten(mask, f, up, b[|b| - 1], out[k..]);
    at := OneMoreWritten(f, up, b, out, k, init);
  }

  lemma OneMoreWritten(f: Frame, up: nat, b: Block, out: Block, k: nat, init: seq<nat>) returns (at: seq<nat>)
    requires b != [] && k <= |out| && BlockWritten(f, up, b[..|b| - 1], out[..k], init)
    requires 1 <= |out| - k <= 2 && Written(f, up, b[|b| - 1], out[|out| - 1], |out| - k == 2)
    requires |out| - k == 2 ==> out[k].SpillFill? && out[k].moves != []
    ensures BlockWritten(f, up, b, out, at)
  {
    var n := |b| - 1;
    at := init + [|out| - 1];
    forall i | 0 <= i < |b|
      ensures InstWritten(f, up, b, out, at, i)
    {
      if i < n { assert InstWritten(f, up, b[..n], out[..k], init, i); }
    }
  }

  /**
   * After the pass every block holds its old instructions in order, each with the registers that its shape demands and
   * with moves in front of it exactly where it has operands to be moved.
   */
  lemma EncodedInstructions(p: seq<Block>, mask: seq<bool>, args: nat, temps: nat, out: seq<Block>, b: nat)
    returns (at: seq<nat>)
    requires WellFormed(p, mask, args) && Encoded(p, FrameOf(mask, args, RangeTemps(p)), temps, out) && b < |p|
    ensures |out| == |p| && BlockWritten(FrameOf(mask, args, RangeTemps(p)), temps, p[b], out[b], at)
  {
    EncodedIsRewritten(p, mask, args, temps, out);
    at := RewrittenBlock(mask, FrameOf(mask, args, RangeTemps(p)), temps, p, out, b);
  }

  lemma RewrittenBlock(mask: seq<bool>, f: Frame, up: nat, p: seq<Block>, out: seq<Block>, b: nat)
    returns (at: seq<nat>)
    requires Rewritten(mask, f, up, p, out) && up <= 4 && b < |p|
    ensures |out| == |p| && BlockWritten(f, up, p[b], out[b], at)
  {
    at := BlockIsWritten(mask, f, up, p[b], out[b]);
  }

  /** Every operation of a written block is an old instruction. */
  lemma {:induction false} OpIsOld(f: Frame, up: nat, b: Block, out: Block, at: seq<nat>, n: nat, j: nat)
    returns (i: nat)
    requires BlockWritten(f, up, b, out, at) && n <= |b| && j < (if n == 0 then 0 else at[n - 1] + 1) <= |out|
    requires out[j].Op?
    ensures i < n && at[i] == j
    decreases n
  {
    i := n - 1;
    assert InstWritten(f, up, b, out, at, n - 1);
    if j != at[n - 1] { i := OpIsOld(f, up, b, out, at, n - 1, j); }
  }

  /** The operands of an operation are such that its encoding can express them. */
  ghost predicate OperandsFit(inst: Inst, start: Register)
    requires inst.Op?
  {
    && (inst.shape == Intrinsic(true) ==>
          forall i :: IsRangeOperand(inst, i) ==> inst.srcs[i] == start + RangeIndex(inst, i))
    && (inst.shape == Fixed(true) ==>
          forall i :: 0 <= i < |inst.srcs| && InFrame(inst.srcs[i]) ==> 0 <= inst.srcs[i] < 16)
  }

  lemma WrittenFits(mask: seq<bool>, f: Frame, up: nat, inst: Inst, now: Inst, fed: bool)
    requires Fits(mask, f, up) && RegistersInMask(mask, inst) && Written(f, up, inst, now, fed) && now.Op?
    ensures OperandsFit(now, f.locals + up)
  {
    OperandsPlaced(mask, f, up, inst);
    if inst.shape == Fixed(true) {
      forall i | 0 <= i < |now.srcs| && InFrame(now.srcs[i])
        ensures 0 <= now.srcs[i] < 16
      {
        PlacedIsMoved(mask, f, up, inst.srcs[i]);
      }
    }
  }

  /**
   * After the pass every operation of every block has operands its encoding can express: a narrow one reads r0..r15
   * only, a range one consecutive registers.
   */
  lemma EncodedOperands(p: seq<Block>, mask: seq<bool>, args: nat, temps: nat, out: seq<Block>, b: nat, j: nat)
    requires WellFormed(p, mask, args) && Encoded(p, FrameOf(mask, args, RangeTemps(p)), temps, out)
    requires b < |out| && j < |out[b]| && out[b][j].Op?
    ensures OperandsFit(out[b][j], FrameOf(mask, args, RangeTemps(p)).locals + temps)
  {
    var f := FrameOf(mask, args, RangeTemps(p));
    EncodedIsRewritten(p, mask, args, temps, out);
    var at := RewrittenBlock(mask, f, temps, p, out, b);
    var i := OpIsOld(f, temps, p[b], out[b], at, |at|, j);
    assert InstWritten(f, temps, p[b], out[b], at, i) && Ready(mask, f, temps, p[b][i]);
    WrittenFits(mask, f, temps, p[b][i], out[b][j], at[i] != (if i == 0 then 0 else at[i - 1] + 1));
  }

  // ----- the reservations -----

  /** The operands of a narrow instruction that are high once everything has moved up by `up`. */
  ghost function HighOperands(f: Frame, up: nat, inst: Inst): set<int>
    requires inst.Op?
  {
    set i | 0 <= i < |inst.srcs| && HighAt(f, up, inst, i)
  }

  ghost predicate NeedsExactly(f: Frame, up: nat, inst: Inst, n: nat) {
    inst.Op? && inst.shape == Fixed(true) && |HighOperands(f, up, inst)| == n
  }

  /** `t` is the greatest number of high operands that a narrow instruction has once everything moved up by `t`. */
  ghost predicate JustEnough(f: Frame, p: seq<Block>, t: nat) {
    && (forall b, i, n: nat :: 0 <= b < |p| && 0 <= i < |p[b]| && NeedsExactly(f, t, p[b][i], n) ==> n <= t)
    && (t == 0 || exists b, i :: 0 <= b < |p| && 0 <= i < |p[b]| && NeedsExactly(f, t, p[b][i], t))
  }

  lemma {:induction false} CountPositions(inst: Inst, n: nat)
    requires inst.Op? && inst.shape == Fixed(true) && n <= |inst.srcs|
    ensures |Positions(inst, n)| == |set i | 0 <= i < n && IsHigh(inst.srcs[i])|
    decreases n
  {
    var now := set i | 0 <= i < n && IsHigh(inst.srcs[i]);
    if n > 0 {
      CountPositions(inst, n - 1);
      var before := set i | 0 <= i < n - 1 && IsHigh(inst.srcs[i]);
      assert now == if IsHigh(inst.srcs[n - 1]) then before + {n - 1} else before;
    } else {
      assert now == {};
    }
  }

  lemma NeededIsCount(mask: seq<bool>, f: Frame, up: nat, inst: Inst)
    requires Fits(mask, f, up) && RegistersInMask(mask, inst)
    ensures inst.Op? && inst.shape == Fixed(true) ==>
              Needed(PlacedInst(f, up, inst)) == |HighOperands(f, up, inst)|
    ensures !(inst.Op? && inst.shape == Fixed(true)) ==> Needed(PlacedInst(f, up, inst)) == 0
  {
    if inst.Op? && inst.shape == Fixed(true) {
      var placed := PlacedInst(f, up, inst);
      OperandsPlaced(mask, f, up, inst);
      CountPositions(placed, |placed.srcs|);
      assert HighOperands(f, up, inst) == set i | 0 <= i < |placed.srcs| && IsHigh(placed.srcs[i]);
    }
  }

  /** A reservation that fits is one with just enough temporaries for the narrow instructions. */
  lemma ReservationIsEnough(p: seq<Block>, mask: seq<bool>, f: Frame, t: nat)
    requires FrameFits(f, p, mask)
    ensures Reservation(p, f, t) <==> f.locals + f.temps + f.range + f.args + t <= 254 && JustEnough(f, p, t)
  {
    var q := PlacedProgram(f, t, p);
    if f.NumRegs() + t <= VIRTUAL_FRAME_SIZE {
      forall b, i | 0 <= b < |p| && 0 <= i < |p[b]|
        ensures q[b][i] == PlacedInst(f, t, p[b][i])
        ensures NeedsExactly(f, t, p[b][i], Needed(q[b][i])) || Needed(q[b][i]) == 0
        ensures forall n :: NeedsExactly(f, t, p[b][i], n) ==> n == Needed(q[b][i])
      {
        NeededIsCount(mask, f, t, p[b][i]);
      }
      assert IsMaxNeeded(q, t) <==> JustEnough(f, p, t) by {
        if IsMaxNeeded(q, t) && t > 0 {
          var b, i :| 0 <= b < |q| && 0 <= i < |q[b]| && Needed(q[b][i]) == t;
          assert NeedsExactly(f, t, p[b][i], t);
        }
        if JustEnough(f, p, t) {
          forall b, i | 0 <= b < |q| && 0 <= i < |q[b]|
            ensures Needed(q[b][i]) <= t
          {
            assert NeedsExactly(f, t, p[b][i], Needed(q[b][i])) || Needed(q[b][i]) == 0;
          }
        }
      }
    }
  }

  ghost predicate HasRangeOf(p: seq<Block>, n: int) {
    exists b, i :: 0 <= b < |p| && 0 <= i < |p[b]| && RangeOf(p[b][i], n)
  }

  /** A range instruction with `n` data operands. */
  predicate RangeOf(inst: Inst, n: int) {
    inst.Op? && inst.shape == Intrinsic(true) && DataCount(inst) == n
  }

  lemma {:induction false} RangeTempsInBlockMet(ret: Register, b: Block)
    requires 0 <= ret < 256 && forall i :: 0 <= i < |b| && b[i].Op? && b[i].shape == Intrinsic(true) ==>
               DataCount(b[i]) < 256
    ensures RangeTempsInBlock(ret, b) == ret || exists i :: 0 <= i < |b| && RangeOf(b[i], RangeTempsInBlock(ret, b))
    decreases |b|
  {
    if b != [] {
      var n := |b| - 1;
      RangeTempsInBlockMet(ret, b[..n]);
      var before := RangeTempsInBlock(ret, b[..n]);
      if RangeTempsInBlock(ret, b) != before {
        assert RangeOf(b[n], RangeTempsInBlock(ret, b));
      } else if before != ret {
        var i :| 0 <= i < n && RangeOf(b[..n][i], before);
        assert RangeOf(b[i], before);
      }
    }
  }

  /** The range block is no greater than some range instruction asks for. */
  lemma {:induction false} RangeTempsIsMet(p: seq<Block>)
    requires forall b, i :: 0 <= b < |p| && 0 <= i < |p[b]| && p[b][i].Op? && p[b][i].shape == Intrinsic(true) ==>
               DataCount(p[b][i]) < 256
    ensures RangeTemps(p) == 0 || HasRangeOf(p, RangeTemps(p))
    decreases |p|
  {
    if p != [] {
      var n := |p| - 1;
      RangeTempsIsMet(p[..n]);
      RangeTempsInBlockMet(RangeTemps(p[..n]), p[n]);
      if RangeTemps(p) != RangeTemps(p[..n]) {
        var i :| 0 <= i < |p[n]| && RangeOf(p[n][i], RangeTemps(p));
      } else if RangeTemps(p) != 0 {
        var b, i :| 0 <= b < n && 0 <= i < |p[..n][b]| && RangeOf(p[..n][b][i], RangeTemps(p));
        assert RangeOf(p[b][i], RangeTemps(p));
      }
    }
  }

  /** The block of range temporaries is just what the range instruction with most operands asks for. */
  lemma RangeTempsIsExact(p: seq<Block>, mask: seq<bool>, args: nat)
    requires WellFormed(p, mask, args)
    ensures forall b, i, n: nat :: 0 <= b < |p| && 0 <= i < |p[b]| && RangeOf(p[b][i], n) ==> n <= RangeTemps(p)
    ensures RangeTemps(p) == 0 || HasRangeOf(p, RangeTemps(p))
  {
    forall b, i | 0 <= b < |p| && 0 <= i < |p[b]| && p[b][i].Op? && p[b][i].shape == Intrinsic(true)
      ensures DataCount(p[b][i]) < 256
    {
      assert Encodable(p[b][i]);
    }
    RangeReservationIsExact(p);
    RangeTempsIsMet(p);
    forall b, i, n: nat | 0 <= b < |p| && 0 <= i < |p[b]| && RangeOf(p[b][i], n)
      ensures n <= RangeTemps(p)
    {
      assert IsRange(p[b][i]) && NumArgs(p[b][i]) == n;
    }
  }

  // ----- the frame -----

  /** The used registers of the frame without the arguments: `l` at its beginning, `t` at its end behind a gap. */
  predicate TwoAreas(mask: seq<bool>, size: int, l: int, t: int)
    requires 0 <= size <= |mask|
  {
    && 0 <= l && 0 <= t && l + t <= size
    && (forall r :: 0 <= r < size ==> (mask[r] <==> r < l || size - t <= r))
    && (l + t == size ==> t == 0)
  }

  /** A mask is accepted if and only if it has just two such areas, and then these are the locals and the temps. */
  lemma FrameIsRead(mask: seq<bool>, args: nat, range: nat, l: int, t: int)
    requires |mask| == 254 && args <= 254
    ensures var f := FrameOf(mask, args, range);
            f.args == args && f.range == range
            && (Dense(mask, FrameOf(mask, args, 0)) && f.locals == l && f.temps == t <==>
                TwoAreas(mask, 254 - args, l, t))
  {
    FrameAreas(mask, args, range);
    FrameAreas(mask, args, 0);
    var free := mask[..254 - args];
    if TwoAreas(mask, 254 - args, l, t) {
      LeadingIs(free, l);
      if l < |free| { TrailingIs(free, t); }
    }
  }

  lemma LeadingIs(s: seq<bool>, l: int)
    requires 0 <= l <= |s| && (forall r :: 0 <= r < l ==> s[r]) && (l < |s| ==> !s[l])
    ensures LeadingTrue(s) == l
  {
  }

  lemma TrailingIs(s: seq<bool>, t: int)
    requires 0 <= t <= |s| && (forall r :: |s| - t <= r < |s| ==> s[r]) && (t < |s| ==> !s[|s| - t - 1])
    ensures TrailingTrue(s) == t
  {
  }

  // ----- operands -----

  /** What is moved to temporaries: of a range instruction all data operands outside the acc slot, else high ones. */
  lemma SelectedExactly(inst: Inst, i: int)
    requires inst.Op?
    ensures Selected(inst, i) <==>
            match inst.shape
            case Fixed(_) => 0 <= i < |inst.srcs| && IsHigh(inst.srcs[i])
            case Intrinsic(range) => IsRangeOperand(inst, i) && (range || IsHigh(inst.srcs[i]))
  {
  }

  /** The assertion of the pass about a narrow instruction is one about the number of its registers. */
  lemma {:induction false} RealOperandsCount(rs: seq<Register>, n: nat)
    requires n <= |rs|
    ensures RealOperands(rs, n) == |set i | 0 <= i < n && InFrame(rs[i])|
    decreases n
  {
    var now := set i | 0 <= i < n && InFrame(rs[i]);
    if n > 0 {
      RealOperandsCount(rs, n - 1);
      var before := set i | 0 <= i < n - 1 && InFrame(rs[i]);
      assert now == if InFrame(rs[n - 1]) then before + {n - 1} else before;
    } else {
      assert now == {};
    }
  }
}
