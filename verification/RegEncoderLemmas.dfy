module RegEncoderLemmas {
  import opened RegIr
  import opened RegEncoder

  lemma SpilledBlockExtend(b: Block, i: nat, rangeStart: Register, out: Block, part: seq<Inst>)
    requires i < |b| && SpilledBlock(b[..i], rangeStart, out) && SpilledInst(b[i], rangeStart, part)
    ensures SpilledBlock(b[..i + 1], rangeStart, out + part)
  {
    var c, o := b[..i + 1], out + part;
    assert c[..|c| - 1] == b[..i] && o[..|out|] == out && o[|out|..] == part;
  }

  lemma NonEmpty(s: set<Register>)
    requires s != {}
    ensures exists x :: x in s
  {
    assert (forall x :: x !in s) ==> s == {};
  }

  lemma {:induction false} PositionsAre(inst: Inst, n: nat)
    requires inst.Op? && n <= |inst.srcs|
    ensures var ps := Positions(inst, n);
            && |ps| <= n && (forall k :: 0 <= k < |ps| ==> Selected(inst, ps[k]))
            && (forall j, k :: 0 <= j < k < |ps| ==> ps[j] < ps[k])
    decreases n
  {
    if n > 0 { PositionsAre(inst, n - 1); }
  }

  lemma SelectedAreListed(inst: Inst, n: nat, j: int)
    requires inst.Op? && 0 <= j < n <= |inst.srcs| && Selected(inst, j)
    ensures j in Positions(inst, n)
  {
    if j < n - 1 {
      SelectedAreListed(inst, n - 1, j);
    }
  }

  /** The first `n` operands have been copied, in order, to the block that starts at `start`. */
  ghost predicate InOrder(inst: Inst, start: Register, n: nat, srcs: seq<Register>, moves: seq<Move>)
    requires inst.Op? && n <= |inst.srcs|
  {
    var ps := Positions(inst, n);
    && |srcs| == |inst.srcs| && |moves| == |ps|
    && (forall j :: 0 <= j < |srcs| && (n <= j || !Selected(inst, j)) ==> srcs[j] == inst.srcs[j])
    && (forall k :: 0 <= k < |ps| ==> srcs[ps[k]] == start + k)
    && (forall k :: 0 <= k < |ps| ==> moves[k] == Move(inst.srcs[ps[k]], start + k))
  }

  lemma InOrderStep(inst: Inst, start: Register, i: nat, srcs: seq<Register>, moves: seq<Move>)
    requires inst.Op? && i < |inst.srcs| && InOrder(inst, start, i, srcs, moves)
    ensures srcs[i] == inst.srcs[i]
    ensures if Selected(inst, i)
            then InOrder(inst, start, i + 1, srcs[i := start + |moves|], moves + [Move(srcs[i], start + |moves|)])
            else InOrder(inst, start, i + 1, srcs, moves)
  {
    assert Positions(inst, i + 1) == Positions(inst, i) + if Selected(inst, i) then [i] else [];
  }

  lemma InOrderIsSpilled(inst: Inst, start: Register, srcs: seq<Register>, moves: seq<Move>)
    requires IsRange(inst) && InOrder(inst, start, |inst.srcs|, srcs, moves)
    ensures Spilled(inst, start, moves, srcs)
  {
    InOrderIsRedirected(inst, start, srcs, moves);
    InOrderFeeds(inst, start, srcs, moves);
  }

  lemma InOrderIsRedirected(inst: Inst, start: Register, srcs: seq<Register>, moves: seq<Move>)
    requires IsRange(inst) && InOrder(inst, start, |inst.srcs|, srcs, moves)
    ensures Redirected(inst, moves, srcs)
  {
    var ps := Positions(inst, |inst.srcs|);
    forall i | 0 <= i < |srcs| && Selected(inst, i)
      ensures Move(inst.srcs[i], srcs[i]) in moves
    {
      SelectedAreListed(inst, |inst.srcs|, i);
      var k :| 0 <= k < |ps| && ps[k] == i;
      assert moves[k] == Move(inst.srcs[i], srcs[i]);
    }
  }

  lemma InOrderFeeds(inst: Inst, start: Register, srcs: seq<Register>, moves: seq<Move>)
    requires IsRange(inst) && InOrder(inst, start, |inst.srcs|, srcs, moves)
    ensures (forall k :: 0 <= k < |moves| ==> Feeds(inst, start, moves[k])) && DistinctTargets(moves)
    ensures Consecutive(inst, start, srcs)
  {
    var ps := Positions(inst, |inst.srcs|);
    PositionsAre(inst, |inst.srcs|);
    forall k | 0 <= k < |moves|
      ensures Feeds(inst, start, moves[k])
    {
      assert Selected(inst, ps[k]) && inst.srcs[ps[k]] == moves[k].src;
    }
  }

  ghost predicate MetBefore(inst: Inst, n: nat, r: Register)
    requires inst.Op?
  {
    exists j :: Selected(inst, j) && j < n && inst.srcs[j] == r
  }

  /** The first `n` operands share temporaries, which were given out one after the other. */
  ghost predicate SharedTo(inst: Inst, n: nat, srcs: seq<Register>, spills: map<Register, Register>)
    requires inst.Op? && n <= |inst.srcs|
  {
    && |srcs| == |inst.srcs| && |spills| <= |Positions(inst, n)|
    && (forall j :: 0 <= j < n ==>
          if Selected(inst, j) then inst.srcs[j] in spills && srcs[j] == spills[inst.srcs[j]]
          else srcs[j] == inst.srcs[j])
    && (forall j :: n <= j < |srcs| ==> srcs[j] == inst.srcs[j])
    && (forall s :: s in spills ==> 0 <= spills[s] < |spills| && MetBefore(inst, n, s))
    && (forall s, t :: s in spills && t in spills && s != t ==> spills[s] != spills[t])
    && forall j, k :: Selected(inst, j) && FirstOf(inst, k) && j < k < n ==> srcs[j] < srcs[k]
  }

  lemma SharedStep(inst: Inst, n: nat, srcs: seq<Register>, spills: map<Register, Register>)
    requires inst.Op? && n < |inst.srcs| && SharedTo(inst, n, srcs, spills)
    ensures srcs[n] == inst.srcs[n]
    ensures !Selected(inst, n) ==> SharedTo(inst, n + 1, srcs, spills)
    ensures Selected(inst, n) && srcs[n] in spills ==> SharedTo(inst, n + 1, srcs[n := spills[srcs[n]]], spills)
    ensures Selected(inst, n) && srcs[n] !in spills ==>
              SharedTo(inst, n + 1, srcs[n := |spills|], spills[srcs[n] := |spills|])
  {
    if !Selected(inst, n) {
      SharedSkip(inst, n, srcs, spills);
    } else if srcs[n] in spills {
      SharedAgain(inst, n, srcs, spills);
    } else {
      SharedNew(inst, n, srcs, spills);
    }
  }

  lemma SharedSkip(inst: Inst, n: nat, srcs: seq<Register>, spills: map<Register, Register>)
    requires inst.Op? && n < |inst.srcs| && SharedTo(inst, n, srcs, spills) && !Selected(inst, n)
    ensures SharedTo(inst, n + 1, srcs, spills)
  {
    MetStays(inst, n, spills);
  }

  lemma MetStays(inst: Inst, n: nat, spills: map<Register, Register>)
    requires inst.Op? && forall s :: s in spills ==> MetBefore(inst, n, s)
    ensures forall s :: s in spills ==> MetBefore(inst, n + 1, s)
    ensures Selected(inst, n) ==> MetBefore(inst, n + 1, inst.srcs[n])
  {
    forall s | s in spills
      ensures MetBefore(inst, n + 1, s)
    {
      var j :| Selected(inst, j) && j < n && inst.srcs[j] == s;
    }
  }

  lemma SharedAgain(inst: Inst, n: nat, srcs: seq<Register>, spills: map<Register, Register>)
    requires inst.Op? && n < |inst.srcs| && SharedTo(inst, n, srcs, spills)
    requires Selected(inst, n) && inst.srcs[n] in spills
    ensures SharedTo(inst, n + 1, srcs[n := spills[inst.srcs[n]]], spills)
  {
    MetStays(inst, n, spills);
    assert MetBefore(inst, n, inst.srcs[n]);
    assert !FirstOf(inst, n);
  }

  lemma SharedNew(inst: Inst, n: nat, srcs: seq<Register>, spills: map<Register, Register>)
    requires inst.Op? && n < |inst.srcs| && SharedTo(inst, n, srcs, spills)
    requires Selected(inst, n) && inst.srcs[n] !in spills
    ensures SharedTo(inst, n + 1, srcs[n := |spills|], spills[inst.srcs[n] := |spills|])
  {
    MetStays(inst, n, spills);
  }

  /** All operands shared, the moves in any order are what the instruction needs. */
  lemma SharedIsSpilled(inst: Inst, rangeStart: Register, srcs: seq<Register>, spills: map<Register, Register>,
                        moves: seq<Move>)
    requires inst.Op? && !IsRange(inst) && SharedTo(inst, |inst.srcs|, srcs, spills)
    requires forall s :: s in spills ==> Move(s, spills[s]) in moves
    requires forall k :: 0 <= k < |moves| ==> moves[k].src in spills && moves[k].dst == spills[moves[k].src]
    requires DistinctTargets(moves) && |moves| == |spills|
    ensures Spilled(inst, rangeStart, moves, srcs)
  {
    forall k | 0 <= k < |moves|
      ensures Feeds(inst, 0, moves[k])
    {
      assert MetBefore(inst, |inst.srcs|, moves[k].src);
    }
    assert Redirected(inst, moves, srcs);
    assert Sharing(inst, moves, srcs);
  }

  // ----- where used registers go -----

  lemma FrameAreas(mask: seq<bool>, args: nat, range: nat)
    requires |mask| == VIRTUAL_FRAME_SIZE && args <= VIRTUAL_FRAME_SIZE
    ensures var f := FrameOf(mask, args, range);
            && f.locals + f.temps <= f.NonArgs()
            && (forall r :: 0 <= r < f.locals ==> mask[r])
            && (forall r :: f.MinReg() <= r < f.NonArgs() ==> mask[r])
            && (f.locals < f.NonArgs() ==> !mask[f.locals])
  {
    var free := mask[..VIRTUAL_FRAME_SIZE - args];
    assert forall r :: 0 <= r < |free| ==> free[r] == mask[r];
  }

  ghost predicate Laid(mask: seq<bool>, f: Frame) {
    && |mask| == VIRTUAL_FRAME_SIZE && f.args <= VIRTUAL_FRAME_SIZE
    && f.locals + f.temps <= f.NonArgs()
    && Dense(mask, f)
    && 0 <= f.Down()
  }

  ghost predicate AllInMask(mask: seq<bool>, p: seq<Block>) {
    forall b, i :: 0 <= b < |p| && 0 <= i < |p[b]| ==> RegistersInMask(mask, p[b][i])
  }

  ghost predicate AllEncodable(p: seq<Block>) {
    forall b, i :: 0 <= b < |p| && 0 <= i < |p[b]| ==> Encodable(p[b][i])
  }

  lemma WellFormedIsLaid(p: seq<Block>, mask: seq<bool>, args: nat, range: nat)
    requires WellFormed(p, mask, args)
    requires 0 <= FrameOf(mask, args, range).Down()
    ensures Laid(mask, FrameOf(mask, args, range)) && AllInMask(mask, p) && AllEncodable(p)
  {
    FrameAreas(mask, args, range);
    assert Dense(mask, FrameOf(mask, args, 0));
    assert FrameOf(mask, args, range).MinReg() == FrameOf(mask, args, 0).MinReg();
  }

  /** A used register lands inside the compact frame, past the low temporaries and outside the range block. */
  lemma PlaceOfUsed(mask: seq<bool>, f: Frame, up: nat, r: Register)
    requires Laid(mask, f) && InMask(mask, r) && IsReal(r)
    requires f.NumRegs() + up <= VIRTUAL_FRAME_SIZE
    ensures up <= Place(f, up, r) < f.NumRegs() + up
    ensures IsReal(Place(f, up, r))
    ensures Place(f, up, r) < f.locals + up || f.locals + f.range + up <= Place(f, up, r)
    ensures r < f.locals || f.MinReg() <= r
  {
  }

  /** No two used registers share a place, and locals only move by the low temporaries. */
  lemma PlaceIsInjective(mask: seq<bool>, f: Frame, up: nat, r: Register, s: Register)
    requires Laid(mask, f) && InMask(mask, r) && IsReal(r) && InMask(mask, s) && IsReal(s)
    requires f.NumRegs() + up <= VIRTUAL_FRAME_SIZE
    requires Place(f, up, r) == Place(f, up, s)
    ensures r == s
  {
    PlaceOfUsed(mask, f, up, r);
    PlaceOfUsed(mask, f, up, s);
  }

  /** Adding the wrapped negative delta in 8 bits moves a used register down without wrapping. */
  lemma WrappedDelta(mask: seq<bool>, f: Frame, r: Register)
    requires Laid(mask, f) && InMask(mask, r) && f.Down() > 0
    ensures Renumbered(r, f.MinReg(), (f.locals + f.temps + f.range - f.NonArgs()) % REGISTER_MODULUS)
      == Placed(f, 0, r)
  {
    if IsReal(r) && r >= f.MinReg() {
      var down := f.Down();
      assert (-down) % REGISTER_MODULUS == REGISTER_MODULUS - down;
      assert 0 <= r - down < REGISTER_MODULUS;
      assert (r + REGISTER_MODULUS - down) % REGISTER_MODULUS == r - down;
    }
  }

  lemma CompactInst(mask: seq<bool>, f: Frame, inst: Inst)
    requires Laid(mask, f) && RegistersInMask(mask, inst) && f.Down() > 0
    ensures RenumberedInst(inst, f.MinReg(), (f.locals + f.temps + f.range - f.NonArgs()) % REGISTER_MODULUS)
            == PlacedInst(f, 0, inst)
  {
    match inst
    case Phi(d) => WrappedDelta(mask, f, d);
    case SpillFill(ms) =>
      forall i | 0 <= i < |ms|
        ensures RenumberedMove(ms[i], f.MinReg(), (f.locals + f.temps + f.range - f.NonArgs()) % REGISTER_MODULUS)
                == Move(Placed(f, 0, ms[i].src), Placed(f, 0, ms[i].dst))
      {
        WrappedDelta(mask, f, ms[i].src);
        WrappedDelta(mask, f, ms[i].dst);
      }
    case Op(_, d, rs, _, _, _) =>
      WrappedDelta(mask, f, d);
      forall i | 0 <= i < |rs|
        ensures Renumbered(rs[i], f.MinReg(), (f.locals + f.temps + f.range - f.NonArgs()) % REGISTER_MODULUS)
                == Placed(f, 0, rs[i])
      {
        WrappedDelta(mask, f, rs[i]);
      }
  }

  /** Shifting everything up by `d` more. */
  lemma ShiftReg(mask: seq<bool>, f: Frame, up: nat, d: nat, r: Register)
    requires Laid(mask, f) && InMask(mask, r)
    requires f.NumRegs() + up + d <= VIRTUAL_FRAME_SIZE
    ensures Renumbered(Placed(f, up, r), 0, d) == Placed(f, up + d, r)
  {
    if IsReal(r) {
      PlaceOfUsed(mask, f, up, r);
    }
  }

  lemma ShiftInst(mask: seq<bool>, f: Frame, up: nat, d: nat, inst: Inst)
    requires Laid(mask, f) && RegistersInMask(mask, inst)
    requires f.NumRegs() + up + d <= VIRTUAL_FRAME_SIZE
    ensures RenumberedInst(PlacedInst(f, up, inst), 0, d) == PlacedInst(f, up + d, inst)
  {
    match inst
    case Phi(r) => ShiftReg(mask, f, up, d, r);
    case SpillFill(ms) =>
      forall i | 0 <= i < |ms|
        ensures RenumberedMove(Move(Placed(f, up, ms[i].src), Placed(f, up, ms[i].dst)), 0, d)
                == Move(Placed(f, up + d, ms[i].src), Placed(f, up + d, ms[i].dst))
      {
        ShiftReg(mask, f, up, d, ms[i].src);
        ShiftReg(mask, f, up, d, ms[i].dst);
        if IsReal(ms[i].src) { PlaceOfUsed(mask, f, up, ms[i].src); }
        if IsReal(ms[i].dst) { PlaceOfUsed(mask, f, up, ms[i].dst); }
      }
    case Op(_, r, rs, _, _, _) =>
      ShiftReg(mask, f, up, d, r);
      forall i | 0 <= i < |rs|
        ensures Renumbered(Placed(f, up, rs[i]), 0, d) == Placed(f, up + d, rs[i])
      {
        ShiftReg(mask, f, up, d, rs[i]);
      }
  }

  lemma CompactProgram(mask: seq<bool>, f: Frame, p: seq<Block>)
    requires Laid(mask, f) && AllInMask(mask, p) && f.Down() > 0
    ensures RenumberedProgram(p, f.MinReg(), (f.locals + f.temps + f.range - f.NonArgs()) % REGISTER_MODULUS)
            == PlacedProgram(f, 0, p)
  {
    var delta := (f.locals + f.temps + f.range - f.NonArgs()) % REGISTER_MODULUS;
    forall b | 0 <= b < |p|
      ensures RenumberedBlock(p[b], f.MinReg(), delta) == PlacedBlock(f, 0, p[b])
    {
      forall i | 0 <= i < |p[b]|
        ensures RenumberedInst(p[b][i], f.MinReg(), delta) == PlacedInst(f, 0, p[b][i])
      {
        CompactInst(mask, f, p[b][i]);
      }
    }
  }

  lemma ShiftProgram(mask: seq<bool>, f: Frame, up: nat, d: nat, p: seq<Block>)
    requires Laid(mask, f) && AllInMask(mask, p)
    requires f.NumRegs() + up + d <= VIRTUAL_FRAME_SIZE
    ensures RenumberedProgram(PlacedProgram(f, up, p), 0, d) == PlacedProgram(f, up + d, p)
  {
    forall b | 0 <= b < |p|
      ensures RenumberedBlock(PlacedBlock(f, up, p[b]), 0, d) == PlacedBlock(f, up + d, p[b])
    {
      forall i | 0 <= i < |p[b]|
        ensures RenumberedInst(PlacedInst(f, up, p[b][i]), 0, d) == PlacedInst(f, up + d, p[b][i])
      {
        ShiftInst(mask, f, up, d, p[b][i]);
      }
    }
  }

  /** When nothing has to move, or nothing that would move is used, every register already is in its place. */
  lemma AlreadyPlacedInst(mask: seq<bool>, f: Frame, inst: Inst)
    requires Laid(mask, f) && RegistersInMask(mask, inst)
    requires f.Down() == 0 || f.temps + f.args == 0
    ensures PlacedInst(f, 0, inst) == inst
  {
    match inst
    case Phi(_) =>
    case SpillFill(ms) =>
      assert forall i :: 0 <= i < |ms| ==> Move(Placed(f, 0, ms[i].src), Placed(f, 0, ms[i].dst)) == ms[i];
    case Op(_, _, rs, _, _, _) =>
      assert forall i :: 0 <= i < |rs| ==> Placed(f, 0, rs[i]) == rs[i];
  }

  lemma AlreadyPlaced(mask: seq<bool>, f: Frame, p: seq<Block>)
    requires Laid(mask, f) && AllInMask(mask, p)
    requires f.Down() == 0 || f.temps + f.args == 0
    ensures PlacedProgram(f, 0, p) == p
  {
    forall b | 0 <= b < |p|
      ensures PlacedBlock(f, 0, p[b]) == p[b]
    {
      forall i | 0 <= i < |p[b]|
        ensures PlacedInst(f, 0, p[b][i]) == p[b][i]
      {
        AlreadyPlacedInst(mask, f, p[b][i]);
      }
    }
  }

  // ----- temporaries needed -----

  /** A position selected before a shift is selected after it: high registers stay high. */
  lemma SelectedStays(mask: seq<bool>, f: Frame, up: nat, up': nat, inst: Inst, n: nat)
    requires Laid(mask, f) && RegistersInMask(mask, inst) && inst.Op? && n <= |inst.srcs|
    requires up <= up' && f.NumRegs() + up' <= VIRTUAL_FRAME_SIZE
    ensures |Positions(PlacedInst(f, up, inst), n)| <= |Positions(PlacedInst(f, up', inst), n)|
    decreases n
  {
    if n > 0 {
      SelectedStays(mask, f, up, up', inst, n - 1);
      var r := inst.srcs[n - 1];
      if IsReal(r) {
        PlaceOfUsed(mask, f, up, r);
        PlaceOfUsed(mask, f, up', r);
      }
    }
  }

  lemma SelectedAreReal(inst: Inst, n: nat)
    requires inst.Op? && inst.shape.Fixed? && n <= |inst.srcs|
    ensures |Positions(inst, n)| <= RealOperands(inst.srcs, n)
    decreases n
  {
    if n > 0 { SelectedAreReal(inst, n - 1); }
  }

  lemma RealOperandsPlaced(mask: seq<bool>, f: Frame, up: nat, inst: Inst, n: nat)
    requires Laid(mask, f) && RegistersInMask(mask, inst) && inst.Op? && n <= |inst.srcs|
    requires f.NumRegs() + up <= VIRTUAL_FRAME_SIZE
    ensures RealOperands(PlacedInst(f, up, inst).srcs, n) == RealOperands(inst.srcs, n)
    decreases n
  {
    if n > 0 {
      RealOperandsPlaced(mask, f, up, inst, n - 1);
      if IsReal(inst.srcs[n - 1]) { PlaceOfUsed(mask, f, up, inst.srcs[n - 1]); }
    }
  }

  lemma NeededIsBounded(mask: seq<bool>, f: Frame, up: nat, inst: Inst)
    requires Laid(mask, f) && RegistersInMask(mask, inst) && Encodable(inst)
    requires f.NumRegs() + up <= VIRTUAL_FRAME_SIZE
    ensures Needed(PlacedInst(f, up, inst)) <= MAX_NUM_INPUTS
  {
    var placed := PlacedInst(f, up, inst);
    if Checked(placed) && placed.shape.Fixed? {
      SelectedAreReal(placed, |placed.srcs|);
      RealOperandsPlaced(mask, f, up, inst, |inst.srcs|);
    }
  }

  lemma NeededGrows(mask: seq<bool>, f: Frame, up: nat, up': nat, inst: Inst)
    requires Laid(mask, f) && RegistersInMask(mask, inst)
    requires up <= up' && f.NumRegs() + up' <= VIRTUAL_FRAME_SIZE
    ensures Needed(PlacedInst(f, up, inst)) <= Needed(PlacedInst(f, up', inst))
  {
    if inst.Op? { SelectedStays(mask, f, up, up', inst, |inst.srcs|); }
  }

  lemma MaxNeededIsBounded(mask: seq<bool>, f: Frame, up: nat, p: seq<Block>, n: nat)
    requires Laid(mask, f) && AllInMask(mask, p) && AllEncodable(p)
    requires f.NumRegs() + up <= VIRTUAL_FRAME_SIZE
    requires IsMaxNeeded(PlacedProgram(f, up, p), n)
    ensures n <= MAX_NUM_INPUTS
  {
    var q := PlacedProgram(f, up, p);
    if n != 0 {
      var b, i :| 0 <= b < |q| && 0 <= i < |q[b]| && Needed(q[b][i]) == n;
      NeededIsBounded(mask, f, up, p[b][i]);
    }
  }

  /** Reserving temporaries never makes an instruction need fewer of them. */
  lemma MaxNeededGrows(mask: seq<bool>, f: Frame, up: nat, up': nat, p: seq<Block>, n: nat, n': nat)
    requires Laid(mask, f) && AllInMask(mask, p)
    requires up <= up' && f.NumRegs() + up' <= VIRTUAL_FRAME_SIZE
    requires IsMaxNeeded(PlacedProgram(f, up, p), n) && IsMaxNeeded(PlacedProgram(f, up', p), n')
    ensures n <= n'
  {
    var q, q' := PlacedProgram(f, up, p), PlacedProgram(f, up', p);
    if n != 0 {
      var b, i :| 0 <= b < |q| && 0 <= i < |q[b]| && Needed(q[b][i]) == n;
      NeededGrows(mask, f, up, up', p[b][i]);
      assert Needed(q'[b][i]) <= n';
    }
  }

  // ----- range temporaries -----

  lemma RangeTempsInBlockBounds(ret: Register, b: Block, i: nat)
    requires 0 <= ret < REGISTER_MODULUS && i <= |b|
    requires forall j :: 0 <= j < |b| && IsRange(b[j]) ==> NumArgs(b[j]) < REGISTER_MODULUS
    ensures ret <= RangeTempsInBlock(ret, b) < REGISTER_MODULUS
    ensures i < |b| && IsRange(b[i]) ==> NumArgs(b[i]) <= RangeTempsInBlock(ret, b)
    decreases |b|
  {
    if b != [] {
      RangeTempsInBlockBounds(ret, b[..|b| - 1], if i < |b| then i else 0);
    }
  }

  lemma RangeTempsIsBound(p: seq<Block>, b: nat, i: nat)
    requires forall c, j :: 0 <= c < |p| && 0 <= j < |p[c]| && IsRange(p[c][j]) ==> NumArgs(p[c][j]) < REGISTER_MODULUS
    ensures 0 <= RangeTemps(p) < REGISTER_MODULUS
    ensures b < |p| && i < |p[b]| && IsRange(p[b][i]) ==> NumArgs(p[b][i]) <= RangeTemps(p)
    decreases |p|
  {
    if p != [] {
      var last := |p| - 1;
      RangeTempsIsBound(p[..last], if b < last then b else 0, i);
      RangeTempsInBlockBounds(RangeTemps(p[..last]), p[last], 0);
      if b == last && i < |p[b]| { RangeTempsInBlockBounds(RangeTemps(p[..last]), p[last], i); }
    }
  }

  /** The reservation covers every range instruction exactly when no operand count is truncated to 8 bits. */
  lemma {:induction false} RangeReservationIsExact(p: seq<Block>)
    ensures (forall b, i :: 0 <= b < |p| && 0 <= i < |p[b]| && IsRange(p[b][i]) ==> NumArgs(p[b][i]) <= RangeTemps(p))
            <==>
            (forall b, i :: 0 <= b < |p| && 0 <= i < |p[b]| && IsRange(p[b][i]) ==> NumArgs(p[b][i]) < REGISTER_MODULUS)
  {
    if forall b, i :: 0 <= b < |p| && 0 <= i < |p[b]| && IsRange(p[b][i]) ==> NumArgs(p[b][i]) < REGISTER_MODULUS {
      forall b, i | 0 <= b < |p| && 0 <= i < |p[b]| && IsRange(p[b][i])
        ensures NumArgs(p[b][i]) <= RangeTemps(p)
      {
        RangeTempsIsBound(p, b, i);
      }
    }
  }

  // ----- nothing to insert -----

  lemma UnselectedIsSpilled(inst: Inst, rangeStart: Register)
    requires Checked(inst) && NumSelected(inst) == 0
    ensures SpilledInst(inst, rangeStart, [inst])
  {
    forall i | 0 <= i < |inst.srcs| && Selected(inst, i)
      ensures false
    {
      SelectedAreListed(inst, |inst.srcs|, i);
    }
    assert inst == inst.(srcs := inst.srcs);
  }

  lemma OneMore(b: Block, rangeStart: Register, n: nat)
    requires n < |b| && SpilledBlock(b[..n], rangeStart, b[..n]) && SpilledInst(b[n], rangeStart, [b[n]])
    ensures SpilledBlock(b[..n + 1], rangeStart, b[..n + 1])
  {
    assert b[..n] + [b[n]] == b[..n + 1];
    SpilledBlockExtend(b, n, rangeStart, b[..n], [b[n]]);
  }

  lemma {:induction false} NothingToSpillInBlock(b: Block, rangeStart: Register, n: nat)
    requires n <= |b|
    requires forall i :: 0 <= i < |b| ==> SpilledInst(b[i], rangeStart, [b[i]])
    ensures SpilledBlock(b[..n], rangeStart, b[..n])
    decreases n
  {
    if n > 0 {
      NothingToSpillInBlock(b, rangeStart, n - 1);
      OneMore(b, rangeStart, n - 1);
    }
  }

  lemma RangeSelectsAtMostArgs(inst: Inst, n: nat)
    requires IsRange(inst) && n <= |inst.srcs|
    ensures |Positions(inst, n)| <= if NumArgs(inst) < 0 then 0 else NumArgs(inst)
    decreases n
  {
    var ps := Positions(inst, n);
    if ps != [] {
      PositionsAre(inst, n);
      IncreasingBound(ps, |ps| - 1);
    }
  }

  lemma IncreasingBound(ps: seq<int>, k: nat)
    requires k < |ps| && 0 <= ps[0]
    requires forall i, j :: 0 <= i < j < |ps| ==> ps[i] < ps[j]
    ensures k <= ps[k]
  {
    if k > 0 { IncreasingBound(ps, k - 1); }
  }

  lemma StaysAsItIs(inst: Inst, rangeStart: Register)
    requires Needed(inst) == 0 && (IsRange(inst) ==> NumArgs(inst) <= 0)
    ensures SpilledInst(inst, rangeStart, [inst])
  {
    if Checked(inst) {
      if IsRange(inst) { RangeSelectsAtMostArgs(inst, |inst.srcs|); }
      UnselectedIsSpilled(inst, rangeStart);
    }
  }

  /** Without narrow high operands and without range operands the program is its own spilled form. */
  lemma NothingToSpill(p: seq<Block>, rangeStart: Register)
    requires IsMaxNeeded(p, 0)
    requires forall b, i :: 0 <= b < |p| && 0 <= i < |p[b]| && IsRange(p[b][i]) ==> NumArgs(p[b][i]) <= 0
    ensures SpilledProgram(p, rangeStart, p)
  {
    forall b | 0 <= b < |p|
      ensures SpilledBlock(p[b], rangeStart, p[b])
    {
      forall i | 0 <= i < |p[b]|
        ensures SpilledInst(p[b][i], rangeStart, [p[b][i]])
      {
        assert Needed(p[b][i]) <= 0;
        StaysAsItIs(p[b][i], rangeStart);
      }
      NothingToSpillInBlock(p[b], rangeStart, |p[b]|);
      assert p[b][..|p[b]|] == p[b];
    }
  }

  lemma NoRangeOperands(f: Frame, p: seq<Block>)
    requires AllEncodable(p) && RangeTemps(p) == 0
    ensures forall b, i :: 0 <= b < |p| && 0 <= i < |p[b]| && IsRange(PlacedProgram(f, 0, p)[b][i]) ==>
              NumArgs(PlacedProgram(f, 0, p)[b][i]) <= 0
  {
    RangeReservationIsExact(p);
    forall b, i | 0 <= b < |p| && 0 <= i < |p[b]| && IsRange(PlacedProgram(f, 0, p)[b][i])
      ensures NumArgs(PlacedProgram(f, 0, p)[b][i]) <= 0
    {
      assert IsRange(p[b][i]) && NumArgs(p[b][i]) <= 0;
    }
  }

  lemma MaskAlreadyPlaced(mask: seq<bool>, f: Frame)
    requires Laid(mask, f) && f.NumRegs() <= VIRTUAL_FRAME_SIZE && 0 <= f.range
    requires forall r :: 0 <= r < f.locals ==> mask[r]
    requires f.Down() == 0 || f.temps + f.args == 0
    ensures mask == PlacedMask(f, 0, mask)
  {
  }

  /** Some used register ends up at `i`. */
  ghost predicate InImage(mask: seq<bool>, f: Frame, up: nat, i: int) {
    exists r :: 0 <= r < |mask| && mask[r] && Place(f, up, r) == i
  }

  /** The register that a place of the compact frame was filled from. */
  function Origin(f: Frame, up: nat, i: int): int {
    if i - up < f.locals then i - up else i - up + f.Down()
  }

  lemma PlacedMaskAt(mask: seq<bool>, f: Frame, up: nat, i: int)
    requires |mask| == VIRTUAL_FRAME_SIZE && 0 <= f.Down() && f.NumRegs() + up <= VIRTUAL_FRAME_SIZE
      && up <= i < VIRTUAL_FRAME_SIZE
    ensures PlacedMask(f, up, mask)[i] == Bit(mask, f, up, i)
  {
  }

  /** Past the low temporaries the shifted mask is exactly the image of the old one; the range block stays unused. */
  lemma MaskIsImage(mask: seq<bool>, f: Frame, up: nat, i: int)
    requires Laid(mask, f) && f.NumRegs() + up <= VIRTUAL_FRAME_SIZE && up <= i < VIRTUAL_FRAME_SIZE
    ensures PlacedMask(f, up, mask)[i] <==> InImage(mask, f, up, i)
    ensures f.locals + up <= i < f.locals + f.range + up ==> !PlacedMask(f, up, mask)[i]
  {
    PlacedMaskAt(mask, f, up, i);
    OnIsImage(mask, f, up, i);
    ImageIsOn(mask, f, up, i);
  }

  /** The bit of the shifted mask at `i`. */
  predicate Bit(mask: seq<bool>, f: Frame, up: nat, i: int)
    requires |mask| == VIRTUAL_FRAME_SIZE && 0 <= f.Down() && f.NumRegs() + up <= VIRTUAL_FRAME_SIZE
      && up <= i < VIRTUAL_FRAME_SIZE
  {
    && i < f.NumRegs() + up
    && if i - up < f.locals + f.range then i - up < f.locals && mask[i - up] else mask[i - up + f.Down()]
  }

  lemma OnIsImage(mask: seq<bool>, f: Frame, up: nat, i: int)
    requires Laid(mask, f) && f.NumRegs() + up <= VIRTUAL_FRAME_SIZE && up <= i < VIRTUAL_FRAME_SIZE
    ensures Bit(mask, f, up, i) ==> InImage(mask, f, up, i)
  {
    var r := Origin(f, up, i);
    if Bit(mask, f, up, i) {
      UsedIsOutside(mask, f, r);
      assert 0 <= r < |mask| && mask[r] && Place(f, up, r) == i;
    }
  }

  lemma ImageIsOn(mask: seq<bool>, f: Frame, up: nat, i: int)
    requires Laid(mask, f) && f.NumRegs() + up <= VIRTUAL_FRAME_SIZE && up <= i < VIRTUAL_FRAME_SIZE
    ensures InImage(mask, f, up, i) ==> Bit(mask, f, up, i)
  {
    if InImage(mask, f, up, i) {
      var r :| 0 <= r < |mask| && mask[r] && Place(f, up, r) == i;
      UsedIsOutside(mask, f, r);
    }
  }

  lemma UsedIsOutside(mask: seq<bool>, f: Frame, r: int)
    requires Laid(mask, f) && 0 <= r < |mask| && mask[r]
    ensures r < f.locals || f.MinReg() <= r
  {
  }

  /** Putting `up` temporaries in front shifts the mask and leaves nothing used behind it. */
  ghost predicate ShiftedDown(was: seq<bool>, now: seq<bool>, minReg: int, down: int)
    requires |was| == VIRTUAL_FRAME_SIZE && 0 <= down <= minReg <= VIRTUAL_FRAME_SIZE
  {
    && |now| == VIRTUAL_FRAME_SIZE
    && (forall i :: 0 <= i < minReg - down ==> now[i] == was[i])
    && (forall i :: minReg - down <= i < VIRTUAL_FRAME_SIZE - down ==> now[i] == was[i + down])
    && (forall i :: VIRTUAL_FRAME_SIZE - down <= i < VIRTUAL_FRAME_SIZE ==> !now[i])
  }

  lemma MaskIsPlaced(f: Frame, was: seq<bool>, now: seq<bool>)
    requires Laid(was, f) && f.Down() > 0 && f.NumRegs() <= VIRTUAL_FRAME_SIZE
    requires forall r :: 0 <= r < f.locals ==> was[r]
    requires f.Down() <= f.MinReg() <= VIRTUAL_FRAME_SIZE && ShiftedDown(was, now, f.MinReg(), f.Down())
    ensures now == PlacedMask(f, 0, was)
  {
  }

  lemma MaskShifts(f: Frame, up: nat, mask: seq<bool>)
    requires |mask| == VIRTUAL_FRAME_SIZE && 0 <= f.Down() && f.NumRegs() + up <= VIRTUAL_FRAME_SIZE
    ensures var low, high := PlacedMask(f, 0, mask), PlacedMask(f, up, mask);
            && |low| == |high| == VIRTUAL_FRAME_SIZE && (forall i :: 0 <= i < up ==> high[i])
            && (forall i :: up <= i < f.NumRegs() + up ==> high[i] == low[i - up])
            && (forall i :: f.NumRegs() + up <= i < VIRTUAL_FRAME_SIZE ==> !high[i] && !low[i])
  {
  }

  // ----- the reservation loop -----

  /** A laid-out frame and a program that uses only registers of its mask. */
  ghost predicate FrameFits(f: Frame, p: seq<Block>, mask: seq<bool>) {
    Laid(mask, f) && AllInMask(mask, p) && AllEncodable(p)
  }

  /** Every register has moved up by `max`, and the program so shifted needs `needed` temporaries. */
  ghost predicate ReservedAt(f: Frame, p: seq<Block>, max: int, needed: int, blocks: seq<Block>, start: Register) {
    && 0 <= max <= needed <= MAX_NUM_INPUTS && f.NumRegs() + max <= VIRTUAL_FRAME_SIZE
    && blocks == PlacedProgram(f, max, p) && IsMaxNeeded(blocks, needed) && start == f.locals + max
  }

  /** Shifting the program from `max` to `needed` keeps what the reservation loop relies on. */
  ghost predicate ShiftsTo(f: Frame, p: seq<Block>, max: nat, needed: nat, start: Register) {
    && RenumberedProgram(PlacedProgram(f, max, p), 0, needed - max) == PlacedProgram(f, needed, p)
    && forall more: nat :: IsMaxNeeded(PlacedProgram(f, needed, p), more) ==>
         ReservedAt(f, p, needed, more, PlacedProgram(f, needed, p), start + (needed - max))
  }

  ghost predicate Shiftable(f: Frame, p: seq<Block>) {
    forall max: nat, needed: nat, start {:trigger ReservedAt(f, p, max, needed, PlacedProgram(f, max, p), start)} ::
      ReservedAt(f, p, max, needed, PlacedProgram(f, max, p), start) && f.NumRegs() + needed <= VIRTUAL_FRAME_SIZE ==>
        ShiftsTo(f, p, max, needed, start)
  }

  lemma FrameIsShiftable(f: Frame, p: seq<Block>, mask: seq<bool>)
    requires FrameFits(f, p, mask)
    ensures Shiftable(f, p)
  {
    forall max: nat, needed: nat, start |
      ReservedAt(f, p, max, needed, PlacedProgram(f, max, p), start) && f.NumRegs() + needed <= VIRTUAL_FRAME_SIZE
      ensures ShiftsTo(f, p, max, needed, start)
    {
      ReserveShift(f, p, mask, max, needed, start);
    }
  }

  lemma ReserveShift(f: Frame, p: seq<Block>, mask: seq<bool>, max: nat, needed: nat, start: Register)
    requires FrameFits(f, p, mask) && ReservedAt(f, p, max, needed, PlacedProgram(f, max, p), start)
    requires f.NumRegs() + needed <= VIRTUAL_FRAME_SIZE
    ensures ShiftsTo(f, p, max, needed, start)
  {
    ShiftProgram(mask, f, max, needed - max, p);
    forall more: nat | IsMaxNeeded(PlacedProgram(f, needed, p), more)
      ensures ReservedAt(f, p, needed, more, PlacedProgram(f, needed, p), start + (needed - max))
    {
      ReserveStep(f, p, mask, max, needed, start, more);
    }
  }

  lemma ReserveStep(f: Frame, p: seq<Block>, mask: seq<bool>, max: nat, needed: nat, start: Register, more: int)
    requires FrameFits(f, p, mask) && ReservedAt(f, p, max, needed, PlacedProgram(f, max, p), start)
    requires f.NumRegs() + needed <= VIRTUAL_FRAME_SIZE && 0 <= more && IsMaxNeeded(PlacedProgram(f, needed, p), more)
    ensures ReservedAt(f, p, needed, more, PlacedProgram(f, needed, p), start + (needed - max))
  {
    MaxNeededIsBounded(mask, f, needed, p, more);
    MaxNeededGrows(mask, f, max, needed, p, needed, more);
  }

  lemma ReservedIsEncoded(f: Frame, p: seq<Block>, temps: nat, placed: seq<Block>, start: Register, out: seq<Block>)
    requires 0 <= f.Down() && ReservedAt(f, p, temps, temps, placed, start)
    requires SpilledProgram(PlacedProgram(f, temps, p), start, out)
    ensures Encoded(p, f, temps, out)
  {
  }

  /** Counting again after a shift never passes a reservation that works: the loop finds the smallest one. */
  lemma NoSmallerStep(f: Frame, p: seq<Block>, mask: seq<bool>, n: nat, more: nat)
    requires FrameFits(f, p, mask) && f.NumRegs() + n <= VIRTUAL_FRAME_SIZE
    requires NoSmaller(p, f, n) && IsMaxNeeded(PlacedProgram(f, n, p), more)
    ensures NoSmaller(p, f, more)
  {
    forall t: nat | Reservation(p, f, t)
      ensures more <= t
    {
      MaxNeededGrows(mask, f, n, t, p, more, t);
    }
  }

  /** What `NoSmallerStep` says, for every round. */
  ghost predicate CountsUp(f: Frame, p: seq<Block>) {
    forall n: nat, more: nat {:trigger NoSmaller(p, f, more), PlacedProgram(f, n, p)} ::
      NoSmaller(p, f, n) && f.NumRegs() + n <= VIRTUAL_FRAME_SIZE && IsMaxNeeded(PlacedProgram(f, n, p), more) ==>
        NoSmaller(p, f, more)
  }

  /** One round of the reservation: shift by what is missing, then count again. */
  lemma RoundReserves(f: Frame, p: seq<Block>, max: nat, needed: nat, was: seq<Block>, start: Register,
      now: seq<Block>, more: nat)
    requires Shiftable(f, p) && CountsUp(f, p) && NoSmaller(p, f, needed)
    requires ReservedAt(f, p, max, needed, was, start) && f.NumRegs() + needed <= VIRTUAL_FRAME_SIZE
    requires now == RenumberedProgram(was, 0, needed - max) && IsMaxNeeded(now, more)
    ensures ReservedAt(f, p, needed, more, now, start + (needed - max)) && NoSmaller(p, f, more)
  {
    RoundShifts(f, p, max, needed, was, start, now);
    RoundCounts(f, p, needed, now, more);
  }

  /** Whatever is counted in `to`, the reservation goes on from there. */
  ghost predicate RoundLeads(f: Frame, p: seq<Block>, needed: int, to: seq<Block>, start: Register) {
    forall more: nat :: IsMaxNeeded(to, more) ==> ReservedAt(f, p, needed, more, to, start) && NoSmaller(p, f, more)
  }

  lemma RoundLeadsOn(f: Frame, p: seq<Block>, max: nat, needed: nat, was: seq<Block>, start: Register)
    requires Shiftable(f, p) && CountsUp(f, p) && NoSmaller(p, f, needed)
    requires ReservedAt(f, p, max, needed, was, start) && f.NumRegs() + needed <= VIRTUAL_FRAME_SIZE
    ensures RoundLeads(f, p, needed, RenumberedProgram(was, 0, needed - max), start + (needed - max))
  {
    var to := RenumberedProgram(was, 0, needed - max);
    forall more: nat | IsMaxNeeded(to, more)
      ensures ReservedAt(f, p, needed, more, to, start + (needed - max)) && NoSmaller(p, f, more)
    {
      RoundReserves(f, p, max, needed, was, start, to, more);
    }
  }

  lemma RoundShifts(f: Frame, p: seq<Block>, max: nat, needed: nat, was: seq<Block>, start: Register, now: seq<Block>)
    requires Shiftable(f, p) && ReservedAt(f, p, max, needed, was, start) && f.NumRegs() + needed <= VIRTUAL_FRAME_SIZE
    requires now == RenumberedProgram(was, 0, needed - max)
    ensures now == PlacedProgram(f, needed, p) && ShiftsTo(f, p, max, needed, start)
  {
    assert ReservedAt(f, p, max, needed, PlacedProgram(f, max, p), start);
  }

  lemma RoundCounts(f: Frame, p: seq<Block>, needed: nat, now: seq<Block>, more: nat)
    requires CountsUp(f, p) && NoSmaller(p, f, needed) && f.NumRegs() + needed <= VIRTUAL_FRAME_SIZE
    requires now == PlacedProgram(f, needed, p) && IsMaxNeeded(now, more)
    ensures NoSmaller(p, f, more)
  {
  }

  lemma FrameCountsUp(f: Frame, p: seq<Block>, mask: seq<bool>)
    requires FrameFits(f, p, mask)
    ensures CountsUp(f, p)
  {
    forall n: nat, more: nat | NoSmaller(p, f, n) && f.NumRegs() + n <= VIRTUAL_FRAME_SIZE
      && IsMaxNeeded(PlacedProgram(f, n, p), more)
      ensures NoSmaller(p, f, more)
    {
      NoSmallerStep(f, p, mask, n, more);
    }
  }

  lemma NothingIsSmaller(f: Frame, p: seq<Block>, mask: seq<bool>, n: nat)
    requires FrameFits(f, p, mask) && f.NumRegs() <= VIRTUAL_FRAME_SIZE && IsMaxNeeded(PlacedProgram(f, 0, p), n)
    ensures NoSmaller(p, f, n)
  {
    NoSmallerStep(f, p, mask, 0, n);
  }

  lemma NoRoom(f: Frame, p: seq<Block>, n: nat)
    requires NoSmaller(p, f, n) && f.NumRegs() + n > VIRTUAL_FRAME_SIZE
    ensures !CanReserve(p, f)
  {
  }

  lemma EncodedIsReservation(p: seq<Block>, f: Frame, temps: nat, out: seq<Block>)
    requires Encoded(p, f, temps, out)
    ensures CanReserve(p, f)
  {
    assert Reservation(p, f, temps);
  }
}
