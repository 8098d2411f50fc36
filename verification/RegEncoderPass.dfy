/** The pass itself: the loops of the register encoder over a graph it changes in place. */
module RegEncoderPass {
  import opened Options
  import opened RegIr
  import opened RegEncoder
  import opened RegEncoderLemmas

  datatype Phase = Idle | RenumberArgs | ReserveTemps | InsertSpillMoves

  class Encoder {
    // the graph
    var blocks: seq<Block>
    var usageMask: seq<bool>
    var stackSlots: int
    const numArgs: nat

    // the pass
    var numTemps: Register
    var phase: Phase
    var numMaxRangeInput: Register
    var rangeTempsStart: Register

    constructor (blocks: seq<Block>, usageMask: seq<bool>, stackSlots: int, numArgs: nat)
      ensures this.blocks == blocks && this.usageMask == usageMask && this.numArgs == numArgs
      ensures numTemps == 0 && phase == Idle && numMaxRangeInput == 0 && rangeTempsStart == 0
    {
      this.blocks, this.usageMask, this.stackSlots, this.numArgs := blocks, usageMask, stackSlots, numArgs;
      numTemps, phase, numMaxRangeInput, rangeTempsStart := 0, Idle, 0, 0;
    }

    method CalculateNumNeededRangeTemps() returns (ret: Register)
      ensures ret == RangeTemps(blocks)
    {
      ret := 0;
      for b := 0 to |blocks|
        invariant 0 <= ret < REGISTER_MODULUS && ret == RangeTemps(blocks[..b])
      {
        var before := ret;
        for i := 0 to |blocks[b]|
          invariant 0 <= ret < REGISTER_MODULUS && ret == RangeTempsInBlock(before, blocks[b][..i])
        {
          assert blocks[b][..i + 1][..i] == blocks[b][..i];
          if IsRange(blocks[b][i]) && ret < NumArgs(blocks[b][i]) {
            ret := NumArgs(blocks[b][i]) % REGISTER_MODULUS;
          }
        }
        assert blocks[b][..|blocks[b]|] == blocks[b];
        assert blocks[..b + 1][..b] == blocks[..b];
      }
      assert blocks[..|blocks|] == blocks;
    }

    static method RenumberInst(inst: Inst, minReg: Register, delta: Register) returns (r: Inst)
      ensures r == RenumberedInst(inst, minReg, delta)
    {
      match inst
      case Phi(d) =>
        r := if IsReal(d) && d >= minReg then Phi(RenumberReg(d, delta)) else inst;
      case SpillFill(ms) =>
        var out: seq<Move> := [];
        for i := 0 to |ms|
          invariant out == RenumberedMoves(ms[..i], minReg, delta)
        {
          var m := ms[i];
          if m.src >= minReg { m := m.(src := RenumberReg(m.src, delta)); }
          if m.dst >= minReg { m := m.(dst := RenumberReg(m.dst, delta)); }
          out := out + [m];
        }
        assert ms[..|ms|] == ms;
        r := SpillFill(out);
      case Op(_, d, rs, _, _, _) =>
        var out := rs;
        for i := 0 to |rs|
          invariant |out| == |rs|
          invariant out[..i] == RenumberedSrcs(rs[..i], minReg, delta)
          invariant out[i..] == rs[i..]
        {
          assert out[i] == rs[i];
          if IsReal(out[i]) && out[i] >= minReg {
            out := out[i := RenumberReg(out[i], delta)];
          }
        }
        assert rs[..|rs|] == rs && out[..|rs|] == out;
        r := inst.(dst := if IsReal(d) && d >= minReg then RenumberReg(d, delta) else d, srcs := out);
    }

    method RenumberRegs(minReg: Register, delta: Register)
      requires 0 < delta
      modifies this`blocks
      ensures blocks == RenumberedProgram(old(blocks), minReg, delta)
    {
      var out: seq<Block> := [];
      for b := 0 to |blocks|
        invariant blocks == old(blocks)
        invariant out == RenumberedProgram(blocks[..b], minReg, delta)
      {
        var block: Block := [];
        for i := 0 to |blocks[b]|
          invariant blocks == old(blocks)
          invariant block == RenumberedBlock(blocks[b][..i], minReg, delta)
        {
          var inst := RenumberInst(blocks[b][i], minReg, delta);
          block := block + [inst];
        }
        assert blocks[b][..|blocks[b]|] == blocks[b];
        out := out + [block];
      }
      assert blocks[..|blocks|] == blocks;
      blocks := out;
    }

    method CalculateNumNeededTemps()
      requires phase == ReserveTemps
      modifies this`numTemps
      ensures 0 <= numTemps && IsMaxNeeded(blocks, numTemps)
    {
      numTemps := 0;
      for b := 0 to |blocks|
        invariant 0 <= numTemps
        invariant forall c, i :: 0 <= c < b && 0 <= i < |blocks[c]| ==> Needed(blocks[c][i]) <= numTemps
        invariant numTemps == 0 ||
          exists c, i :: 0 <= c < b && 0 <= i < |blocks[c]| && Needed(blocks[c][i]) == numTemps
      {
        for j := 0 to |blocks[b]|
          invariant 0 <= numTemps
          invariant forall c, i :: 0 <= c < b && 0 <= i < |blocks[c]| ==> Needed(blocks[c][i]) <= numTemps
          invariant forall i :: 0 <= i < j ==> Needed(blocks[b][i]) <= numTemps
          invariant numTemps == 0 ||
            (exists c, i :: 0 <= c < b && 0 <= i < |blocks[c]| && Needed(blocks[c][i]) == numTemps) ||
            (exists i :: 0 <= i < j && Needed(blocks[b][i]) == numTemps)
        {
          if Checked(blocks[b][j]) {
            CalculateNumNeededTempsForInst(blocks[b][j]);
          }
        }
      }
    }

    method CalculateNumNeededTempsForInst(inst: Inst)
      requires phase == ReserveTemps && inst.Op? && 0 <= numTemps
      modifies this`numTemps
      ensures numTemps == if old(numTemps) < NeededForInst(inst) then NeededForInst(inst) else old(numTemps)
    {
      var n := 0;
      match inst.shape {
        case Intrinsic(range) =>
          if range || NumArgs(inst) > MAX_NUM_NON_RANGE_ARGS {
            return;
          }
          for i := 0 to |inst.srcs|
            invariant n == |Positions(inst, i)|
          {
            if i < NumArgs(inst) && inst.accPos != Some(i) {
              if IsReal(inst.srcs[i]) && inst.srcs[i] >= NUM_COMPACTLY_ENCODED_REGS { n := n + 1; }
            }
          }
        case Fixed(_) =>
          for i := 0 to |inst.srcs|
            invariant n == |Positions(inst, i)|
          {
            if IsReal(inst.srcs[i]) && inst.srcs[i] >= NUM_COMPACTLY_ENCODED_REGS { n := n + 1; }
          }
      }
      numTemps := if numTemps < n then n else numTemps;
    }

    static method Pick(rest: set<Register>) returns (s: Register)
      requires rest != {}
      ensures s in rest
    {
      NonEmpty(rest);
      s :| s in rest;
    }

    /** The moves held by an unordered map, in whatever order it yields them. */
    static method MovesOf(spills: map<Register, Register>) returns (moves: seq<Move>)
      requires forall s, t :: s in spills && t in spills && s != t ==> spills[s] != spills[t]
      ensures forall s :: s in spills ==> Move(s, spills[s]) in moves
      ensures forall k :: 0 <= k < |moves| ==> moves[k].src in spills && moves[k].dst == spills[moves[k].src]
      ensures DistinctTargets(moves) && |moves| == |spills|
    {
      moves := [];
      var rest := spills.Keys;
      while rest != {}
        invariant rest <= spills.Keys && |moves| + |rest| == |spills|
        invariant forall s :: s in spills && s !in rest ==> Move(s, spills[s]) in moves
        invariant forall k :: 0 <= k < |moves| ==>
          moves[k].src in spills && moves[k].src !in rest && moves[k].dst == spills[moves[k].src]
        invariant DistinctTargets(moves)
        decreases |rest|
      {
        var s := Pick(rest);
        rest := rest - {s};
        ghost var before := moves;
        moves := moves + [Move(s, spills[s])];
        assert forall m :: m in before ==> m in moves;
        assert moves[|before|] == Move(s, spills[s]);
      }
    }

    /** Spills every selected operand once, sharing the temporary between equal operands. */
    static method SpillShared(inst: Inst) returns (srcs: seq<Register>, spills: map<Register, Register>)
      requires inst.Op? && !IsRange(inst)
      ensures SharedTo(inst, |inst.srcs|, srcs, spills)
    {
      srcs, spills := inst.srcs, map[];
      var temp := 0;
      for i := 0 to |inst.srcs|
        invariant SharedTo(inst, i, srcs, spills) && temp == |spills|
      {
        SharedStep(inst, i, srcs, spills);
        var reg := srcs[i];
        var skip := inst.shape.Intrinsic? && (i >= NumArgs(inst) || inst.accPos == Some(i));
        if !skip && IsReal(reg) && reg >= NUM_COMPACTLY_ENCODED_REGS {
          if reg !in spills {
            spills := spills[reg := temp];
            srcs := srcs[i := temp];
            temp := temp + 1;
          } else {
            srcs := srcs[i := spills[reg]];
          }
        }
      }
    }

    /** Copies every operand outside the accumulator slot into the block that starts at `start`. */
    static method SpillRange(inst: Inst, start: Register) returns (srcs: seq<Register>, moves: seq<Move>)
      requires IsRange(inst)
      ensures InOrder(inst, start, |inst.srcs|, srcs, moves)
    {
      srcs, moves := inst.srcs, [];
      var temp := start;
      for i := 0 to |inst.srcs|
        invariant temp == start + |moves|
        invariant InOrder(inst, start, i, srcs, moves)
      {
        InOrderStep(inst, start, i, srcs, moves);
        if i < NumArgs(inst) && inst.accPos != Some(i) {
          moves := moves + [Move(srcs[i], temp)];
          srcs := srcs[i := temp];
          temp := temp + 1;
        }
      }
    }

    method InsertSpillsForInst(inst: Inst) returns (out: seq<Inst>)
      requires phase == InsertSpillMoves && Checked(inst)
      ensures SpilledInst(inst, rangeTempsStart, out)
    {
      var srcs: seq<Register>, moves: seq<Move>;
      if IsRange(inst) {
        srcs, moves := SpillRange(inst, rangeTempsStart);
        InOrderIsSpilled(inst, rangeTempsStart, srcs, moves);
      } else {
        var spills: map<Register, Register>;
        srcs, spills := SpillShared(inst);
        moves := MovesOf(spills);
        SharedIsSpilled(inst, rangeTempsStart, srcs, spills, moves);
      }
      var last := inst.(srcs := srcs);
      if moves == [] {
        out := [last];
      } else {
        out := [SpillFill(moves), last];
      }
    }

    method VisitInstruction(inst: Inst) returns (out: seq<Inst>)
      requires phase == InsertSpillMoves
      ensures SpilledInst(inst, rangeTempsStart, out)
    {
      if Checked(inst) {
        out := InsertSpillsForInst(inst);
      } else {
        out := [inst];
      }
    }

    method InsertSpills()
      requires phase == InsertSpillMoves
      modifies this`blocks
      ensures SpilledProgram(old(blocks), rangeTempsStart, blocks)
    {
      var out: seq<Block> := [];
      for b := 0 to |blocks|
        invariant blocks == old(blocks) && |out| == b
        invariant forall c :: 0 <= c < b ==> SpilledBlock(blocks[c], rangeTempsStart, out[c])
      {
        var block: Block := [];
        for i := 0 to |blocks[b]|
          invariant blocks == old(blocks)
          invariant SpilledBlock(blocks[b][..i], rangeTempsStart, block)
        {
          var part := VisitInstruction(blocks[b][i]);
          SpilledBlockExtend(blocks[b], i, rangeTempsStart, block, part);
          block := block + part;
        }
        assert blocks[b][..|blocks[b]|] == blocks[b];
        out := out + [block];
      }
      blocks := out;
    }

    /** Moves temps and arguments down next to the locals; fails when the range block does not fit. */
    method RenumberArgRegs() returns (ok: bool)
      requires WellFormed(blocks, usageMask, numArgs) && 0 <= numMaxRangeInput
      modifies this`blocks, this`usageMask, this`stackSlots, this`rangeTempsStart
      ensures var f := FrameOf(old(usageMask), numArgs, numMaxRangeInput);
              && ok == (0 <= f.Down())
              && (ok ==>
                    && blocks == PlacedProgram(f, 0, old(blocks))
                    && f.NumRegs() <= VIRTUAL_FRAME_SIZE
                    && usageMask == PlacedMask(f, 0, old(usageMask))
                    && rangeTempsStart == f.locals
                    && stackSlots == f.locals + f.temps + f.range)
    {
      ghost var f := FrameOf(usageMask, numArgs, numMaxRangeInput);
      FrameAreas(usageMask, numArgs, numMaxRangeInput);
      var numNonArgs := VIRTUAL_FRAME_SIZE - numArgs;
      if numMaxRangeInput > numNonArgs {
        return false;
      }

      var numLocals := CountLocals(numNonArgs);
      var numTemps := CountTemps(numNonArgs, numLocals);
      assert numLocals == f.locals && numTemps == f.temps;

      if numLocals + numTemps > numNonArgs - numMaxRangeInput {
        return false;
      }
      WellFormedIsLaid(blocks, usageMask, numArgs, numMaxRangeInput);
      rangeTempsStart := numLocals;
      CompactFrame(f, numLocals, numTemps);
      stackSlots := numLocals + numTemps + numMaxRangeInput;
      return true;
    }

    method CompactFrame(ghost f: Frame, numLocals: nat, numTemps: nat)
      requires Laid(usageMask, f) && AllInMask(usageMask, blocks) && f.NumRegs() <= VIRTUAL_FRAME_SIZE
      requires forall r :: 0 <= r < f.locals ==> usageMask[r]
      requires 0 <= numMaxRangeInput && f == Frame(numLocals, numTemps, numArgs, numMaxRangeInput)
      modifies this`blocks, this`usageMask
      ensures blocks == PlacedProgram(f, 0, old(blocks))
      ensures usageMask == PlacedMask(f, 0, old(usageMask))
    {
      var numNonArgs := VIRTUAL_FRAME_SIZE - numArgs;
      var doRenumber := true;
      if numNonArgs == 0 && numMaxRangeInput == 0 { doRenumber := false; }
      if numLocals + numTemps + numMaxRangeInput == numNonArgs { doRenumber := false; }
      if numTemps + numArgs == 0 { doRenumber := false; }

      if doRenumber {
        var minReg := numNonArgs - numTemps;
        var delta := (numLocals + numTemps + numMaxRangeInput - numNonArgs) % REGISTER_MODULUS;
        CompactProgram(usageMask, f, blocks);
        RenumberRegs(minReg, delta);
        MoveMaskDown(f, minReg, delta);
      } else {
        AlreadyPlaced(usageMask, f, blocks);
        MaskAlreadyPlaced(usageMask, f);
      }
    }

    method CountLocals(numNonArgs: nat) returns (n: nat)
      requires numNonArgs <= |usageMask|
      ensures n == LeadingTrue(usageMask[..numNonArgs])
    {
      n := 0;
      while n != numNonArgs && usageMask[n]
        invariant n <= numNonArgs
        invariant LeadingTrue(usageMask[..numNonArgs]) == n + LeadingTrue(usageMask[n..numNonArgs])
      {
        assert usageMask[n..numNonArgs][1..] == usageMask[n + 1..numNonArgs];
        n := n + 1;
      }
    }

    method CountTemps(numNonArgs: nat, numLocals: nat) returns (n: nat)
      requires numNonArgs <= |usageMask|
      ensures n == if numLocals == numNonArgs then 0 else TrailingTrue(usageMask[..numNonArgs])
    {
      n := 0;
      if numLocals != numNonArgs {
        var r := numNonArgs;
        while 0 < r && usageMask[r - 1]
          invariant 0 <= r <= numNonArgs
          invariant TrailingTrue(usageMask[..numNonArgs]) == n + TrailingTrue(usageMask[..r])
        {
          assert usageMask[..r][..r - 1] == usageMask[..r - 1];
          n, r := n + 1, r - 1;
        }
      }
    }

    /** The in-place shift of the usage mask that goes with the renumbering. */
    method MoveMaskDown(ghost f: Frame, minReg: Register, delta: Register)
      requires Laid(usageMask, f) && f.Down() > 0 && f.NumRegs() <= VIRTUAL_FRAME_SIZE
      requires forall r :: 0 <= r < f.locals ==> usageMask[r]
      requires minReg == f.MinReg()
      requires delta == (f.locals + f.temps + f.range - f.NonArgs()) % REGISTER_MODULUS
      modifies this`usageMask
      ensures usageMask == PlacedMask(f, 0, old(usageMask))
    {
      ghost var was := usageMask;
      ShiftMaskDown(minReg, delta, f.Down());
      MaskIsPlaced(f, was, usageMask);
    }

    /** Everything from `minReg` on moves down; what is left behind at the top is free. */
    method ShiftMaskDown(minReg: Register, delta: Register, ghost down: int)
      requires |usageMask| == VIRTUAL_FRAME_SIZE && 0 < down <= minReg <= VIRTUAL_FRAME_SIZE
      requires delta == REGISTER_MODULUS - down
      requires forall i :: minReg - down <= i < minReg ==> !usageMask[i]
      modifies this`usageMask
      ensures ShiftedDown(old(usageMask), usageMask, minReg, down)
    {
      for r := minReg to VIRTUAL_FRAME_SIZE
        invariant |usageMask| == VIRTUAL_FRAME_SIZE
        invariant forall i :: 0 <= i < minReg - down ==> usageMask[i] == old(usageMask)[i]
        invariant forall i :: minReg - down <= i < r - down ==> usageMask[i] == old(usageMask)[i + down]
        invariant forall i :: r - down <= i < r ==> !usageMask[i]
        invariant forall i :: r <= i < VIRTUAL_FRAME_SIZE ==> usageMask[i] == old(usageMask)[i]
      {
        assert RenumberReg(r, delta) == r - down;
        usageMask := usageMask[RenumberReg(r, delta) := usageMask[r]];
        usageMask := usageMask[r := false];
      }
    }

    /** Makes room for the low temporaries in the usage mask. */
    method MoveMaskUp(ghost f: Frame, ghost mask: seq<bool>, numRegs: nat)
      requires |mask| == VIRTUAL_FRAME_SIZE && 0 <= f.Down() && numRegs == f.NumRegs()
      requires 0 <= numTemps && numRegs + numTemps <= VIRTUAL_FRAME_SIZE
      requires usageMask == PlacedMask(f, 0, mask)
      modifies this`usageMask
      ensures usageMask == PlacedMask(f, numTemps, mask)
    {
      MaskShifts(f, numTemps, mask);
      ShiftMask(numRegs, PlacedMask(f, numTemps, mask));
      FillLowTemps(PlacedMask(f, numTemps, mask));
    }

    /** The part of the mask in use, moved up from its top end. */
    method ShiftMask(numRegs: nat, ghost high: seq<bool>)
      requires |usageMask| == |high| == VIRTUAL_FRAME_SIZE && 0 <= numTemps && numRegs + numTemps <= VIRTUAL_FRAME_SIZE
      requires forall i :: numTemps <= i < numRegs + numTemps ==> high[i] == usageMask[i - numTemps]
      requires forall i :: numRegs + numTemps <= i < VIRTUAL_FRAME_SIZE ==> high[i] == usageMask[i]
      modifies this`usageMask
      ensures |usageMask| == VIRTUAL_FRAME_SIZE
      ensures forall i :: numTemps <= i < VIRTUAL_FRAME_SIZE ==> usageMask[i] == high[i]
    {
      ghost var low := usageMask;
      for r := 0 to numRegs
        invariant |usageMask| == VIRTUAL_FRAME_SIZE
        invariant forall i :: 0 <= i < numRegs - r ==> usageMask[i] == low[i]
        invariant forall i :: numRegs + numTemps - r <= i < VIRTUAL_FRAME_SIZE ==> usageMask[i] == high[i]
      {
        assert high[numRegs + numTemps - r - 1] == low[numRegs - r - 1];
        usageMask := usageMask[numRegs + numTemps - r - 1 := usageMask[numRegs - r - 1]];
      }
    }

    method FillLowTemps(ghost goal: seq<bool>)
      requires |usageMask| == |goal| && 0 <= numTemps <= |goal|
      requires forall i :: 0 <= i < |goal| ==> if i < numTemps then goal[i] else usageMask[i] == goal[i]
      modifies this`usageMask
      ensures usageMask == goal
    {
      for i := 0 to numTemps
        invariant |usageMask| == |goal|
        invariant forall k :: 0 <= k < |goal| && (k < i || numTemps <= k) ==> usageMask[k] == goal[k]
      {
        usageMask := usageMask[i := true];
      }
    }

    /** What holds whenever the reservation loop looks at its condition. */
    ghost predicate Reserving(f: Frame, p: seq<Block>, maxNumTemps: int)
      reads this
    {
      phase == ReserveTemps && ReservedAt(f, p, maxNumTemps, numTemps, blocks, rangeTempsStart)
    }

    /** Grows the reservation until the shifted program needs no more than what is reserved. */
    method ReserveLowTemps(ghost f: Frame, ghost p: seq<Block>, numRegs: int) returns (ok: bool)
      requires Shiftable(f, p) && Reserving(f, p, 0) && numRegs == f.NumRegs()
      requires CountsUp(f, p) && NoSmaller(p, f, numTemps)
      modifies this`numTemps, this`blocks, this`rangeTempsStart
      ensures 0 <= numTemps <= MAX_NUM_INPUTS
      ensures ok ==> Reserving(f, p, numTemps)
      ensures !ok ==> numRegs + numTemps > VIRTUAL_FRAME_SIZE
      ensures NoSmaller(p, f, numTemps)
    {
      var maxNumTemps := 0;
      while maxNumTemps != numTemps
        invariant Reserving(f, p, maxNumTemps) && NoSmaller(p, f, numTemps)
        decreases MAX_NUM_INPUTS - maxNumTemps
      {
        if numRegs > VIRTUAL_FRAME_SIZE - numTemps {
          return false;
        }
        var shifted := numTemps;
        ReserveMore(f, p, maxNumTemps);
        maxNumTemps := shifted;
      }
      return true;
    }

    /** One round of the reservation. */
    method ReserveMore(ghost f: Frame, ghost p: seq<Block>, maxNumTemps: int)
      requires Shiftable(f, p) && Reserving(f, p, maxNumTemps) && maxNumTemps != numTemps
      requires CountsUp(f, p) && NoSmaller(p, f, numTemps) && f.NumRegs() + numTemps <= VIRTUAL_FRAME_SIZE
      modifies this`numTemps, this`blocks, this`rangeTempsStart
      ensures Reserving(f, p, old(numTemps)) && NoSmaller(p, f, numTemps)
    {
      RoundLeadsOn(f, p, maxNumTemps, numTemps, blocks, rangeTempsStart);
      ReserveNext(f, p, maxNumTemps);
    }

    method ReserveNext(ghost f: Frame, ghost p: seq<Block>, maxNumTemps: int)
      requires phase == ReserveTemps && 0 < numTemps - maxNumTemps < REGISTER_MODULUS
      requires var delta := numTemps - maxNumTemps;
               RoundLeads(f, p, numTemps, RenumberedProgram(blocks, 0, delta), rangeTempsStart + delta)
      modifies this`numTemps, this`blocks, this`rangeTempsStart
      ensures Reserving(f, p, old(numTemps)) && NoSmaller(p, f, numTemps)
    {
      ShiftAndRecount(maxNumTemps);
    }

    /** Shift everything up by what is missing and count again. */
    method ShiftAndRecount(maxNumTemps: int)
      requires phase == ReserveTemps && 0 < numTemps - maxNumTemps < REGISTER_MODULUS
      modifies this`numTemps, this`blocks, this`rangeTempsStart
      ensures var delta := old(numTemps) - maxNumTemps;
              blocks == RenumberedProgram(old(blocks), 0, delta) && rangeTempsStart == old(rangeTempsStart) + delta
      ensures 0 <= numTemps && IsMaxNeeded(blocks, numTemps)
    {
      var delta := (numTemps - maxNumTemps) % REGISTER_MODULUS;
      rangeTempsStart := rangeTempsStart + delta;
      RenumberRegs(0, delta);
      CalculateNumNeededTemps();
    }

    method InsertWhereNeeded(ghost f: Frame, ghost p: seq<Block>)
      requires 0 <= numTemps && blocks == PlacedProgram(f, numTemps, p) && IsMaxNeeded(blocks, numTemps)
      requires AllEncodable(p) && numMaxRangeInput == RangeTemps(p)
      modifies this`blocks, this`phase
      ensures SpilledProgram(PlacedProgram(f, numTemps, p), rangeTempsStart, blocks)
    {
      if numTemps > 0 || numMaxRangeInput > 0 {
        phase := InsertSpillMoves;
        InsertSpills();
      } else {
        NoRangeOperands(f, p);
        NothingToSpill(blocks, rangeTempsStart);
      }
    }

    /** Compacts the frame and counts the temporaries that are needed before any is reserved. */
    method Compact() returns (ok: bool)
      requires WellFormed(blocks, usageMask, numArgs)
      modifies this
      ensures numMaxRangeInput == RangeTemps(old(blocks))
      ensures ok ==>
        var f := FrameOf(old(usageMask), numArgs, numMaxRangeInput);
        && FrameFits(f, old(blocks), old(usageMask)) && Reserving(f, old(blocks), 0)
        && f.NumRegs() <= VIRTUAL_FRAME_SIZE
        && usageMask == PlacedMask(f, 0, old(usageMask))
        && stackSlots == f.locals + f.temps + f.range
      ensures !ok ==> FrameOf(old(usageMask), numArgs, numMaxRangeInput).Down() < 0
    {
      numMaxRangeInput := CalculateNumNeededRangeTemps();
      phase := RenumberArgs;
      ok := RenumberArgRegs();
      if ok {
        phase := ReserveTemps;
        CalculateNumNeededTemps();
        ghost var f := FrameOf(old(usageMask), numArgs, numMaxRangeInput);
        WellFormedIsLaid(old(blocks), old(usageMask), numArgs, numMaxRangeInput);
        MaxNeededIsBounded(old(usageMask), f, 0, old(blocks), numTemps);
      }
    }

    /** Inserts the spill moves and makes room for the low temporaries in the mask. */
    method InsertAndMove(ghost f: Frame, ghost p: seq<Block>, ghost mask: seq<bool>, numRegs: int)
      requires FrameFits(f, p, mask) && Reserving(f, p, numTemps) && numRegs == f.NumRegs()
        && numMaxRangeInput == RangeTemps(p)
      requires usageMask == PlacedMask(f, 0, mask)
      modifies this`blocks, this`phase, this`usageMask, this`stackSlots
      ensures Encoded(p, f, numTemps, blocks)
      ensures usageMask == PlacedMask(f, numTemps, mask) && stackSlots == old(stackSlots) + numTemps
    {
      ghost var placed, start := blocks, rangeTempsStart;
      InsertWhereNeeded(f, p);
      ReservedIsEncoded(f, p, numTemps, placed, start, blocks);
      MoveMaskIfNeeded(f, mask, numRegs);
      stackSlots := stackSlots + numTemps;
    }

    method MoveMaskIfNeeded(ghost f: Frame, ghost mask: seq<bool>, numRegs: nat)
      requires |mask| == VIRTUAL_FRAME_SIZE && 0 <= f.Down() && numRegs == f.NumRegs()
      requires 0 <= numTemps && numRegs + numTemps <= VIRTUAL_FRAME_SIZE
      requires usageMask == PlacedMask(f, 0, mask)
      modifies this`usageMask
      ensures usageMask == PlacedMask(f, numTemps, mask)
    {
      if numTemps > 0 || numMaxRangeInput > 0 { MoveMaskUp(f, mask, numRegs); }
    }

    /**
     * The whole pass. On success the graph is the old one with every used register in its place and the spill
     * moves in front of the instructions that need them. It succeeds exactly when some number of low temporaries
     * fits and suffices, and reserves the smallest such number.
     */
    method RunImpl() returns (ok: bool)
      requires phase == Idle && numTemps == 0
      requires WellFormed(blocks, usageMask, numArgs)
      modifies this
      ensures ok ==> var f := FrameOf(old(usageMask), numArgs, RangeTemps(old(blocks)));
                     && Encoded(old(blocks), f, numTemps, blocks)
                     && rangeTempsStart == f.locals + numTemps
                     && usageMask == PlacedMask(f, numTemps, old(usageMask))
                     && stackSlots == f.locals + f.temps + f.range + numTemps
                     && phase == Idle
      ensures ok <==> CanReserve(old(blocks), FrameOf(old(usageMask), numArgs, RangeTemps(old(blocks))))
      ensures ok ==> NoSmaller(old(blocks), FrameOf(old(usageMask), numArgs, RangeTemps(old(blocks))), numTemps)
      ensures !ok ==> FrameOf(old(usageMask), numArgs, RangeTemps(old(blocks))).NumRegs() + MAX_NUM_INPUTS
                      > VIRTUAL_FRAME_SIZE
    {
      ghost var p, mask := blocks, usageMask;
      ok := Compact();
      if !ok {
        return false;
      }
      ghost var f := FrameOf(mask, numArgs, numMaxRangeInput);
      ok := ReserveAndInsert(f, p, mask);
    }

    /** The part of the pass behind the compaction of the frame. */
    method ReserveAndInsert(ghost f: Frame, ghost p: seq<Block>, ghost mask: seq<bool>) returns (ok: bool)
      requires FrameFits(f, p, mask) && Reserving(f, p, 0) && usageMask == PlacedMask(f, 0, mask)
      requires stackSlots == f.locals + f.temps + f.range && stackSlots + numArgs == f.NumRegs() <= VIRTUAL_FRAME_SIZE
      requires numMaxRangeInput == RangeTemps(p)
      modifies this
      ensures ok ==> Encoded(p, f, numTemps, blocks) && rangeTempsStart == f.locals + numTemps
      ensures ok ==> usageMask == PlacedMask(f, numTemps, mask)
      ensures ok ==> stackSlots == old(stackSlots) + numTemps && phase == Idle
      ensures ok <==> CanReserve(p, f)
      ensures ok ==> NoSmaller(p, f, numTemps)
      ensures !ok ==> f.NumRegs() + MAX_NUM_INPUTS > VIRTUAL_FRAME_SIZE
    {
      var numRegs := stackSlots + numArgs;
      ok := Reserve(f, p, mask, numRegs);
      if ok {
        InsertAndMove(f, p, mask, numRegs);
        EncodedIsReservation(p, f, numTemps, blocks);
        phase := Idle;
      }
    }

    /** The reservation finds the smallest number of temporaries that suffices, if one fits. */
    method Reserve(ghost f: Frame, ghost p: seq<Block>, ghost mask: seq<bool>, numRegs: int) returns (ok: bool)
      requires FrameFits(f, p, mask) && Reserving(f, p, 0) && numRegs == f.NumRegs() <= VIRTUAL_FRAME_SIZE
      modifies this`numTemps, this`blocks, this`rangeTempsStart
      ensures 0 <= numTemps && NoSmaller(p, f, numTemps)
      ensures if ok then Reserving(f, p, numTemps)
              else !CanReserve(p, f) && numRegs + MAX_NUM_INPUTS > VIRTUAL_FRAME_SIZE
    {
      FrameIsShiftable(f, p, mask);
      FrameCountsUp(f, p, mask);
      NothingIsSmaller(f, p, mask, numTemps);
      ok := ReserveLowTemps(f, p, numRegs);
      if !ok { NoRoom(f, p, numTemps); }
    }
  }
}
