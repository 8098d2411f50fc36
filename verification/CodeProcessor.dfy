/** The disassembler's side: pcs in jumps, exception tables and variable ranges become labels and indices. */
module CodeProcessor {
  import opened Options
  import opened CodeTables
  import opened TryBlocks
  import opened TryRoundTrip

  /** Both maps hold exactly the first `lim` instruction indices. */
  ghost predicate MapsHold(raw: seq<Raw>, pcIdx: map<int, int>, idxPc: map<int, int>, lim: int) {
    && 0 <= lim <= |raw| + 1 && (lim == 0 ==> pcIdx == map[])
    && (forall i :: i in idxPc <==> 0 <= i < lim)
    && (forall i {:trigger idxPc[i]} {:trigger i in idxPc} :: i in idxPc ==>
          0 <= i <= |raw| && idxPc[i] == Pc(raw, i) && idxPc[i] in pcIdx && pcIdx[idxPc[i]] == i)
    && (forall pc {:trigger pcIdx[pc]} {:trigger pc in pcIdx} :: pc in pcIdx ==>
          pcIdx[pc] in idxPc && idxPc[pcIdx[pc]] == pc)
  }

  /** Some pc that labels are made for leads to index `l`. */
  ghost predicate Wanted(raw: seq<Raw>, tries: seq<Try>, l: int) {
    || (exists i :: 0 <= i < |raw| && JumpOk(raw, i) && TargetOf(raw, i) == Some(l))
    || (exists k :: 0 <= k < |tries| && WantedByTry(raw, tries[k], l))
  }

  ghost predicate WantedByTry(raw: seq<Raw>, t: Try, l: int) {
    || IsIdx(raw, t.start, l) || IsIdx(raw, t.start + t.length, l)
    || exists k :: 0 <= k < |t.catches| && WantedByCatch(raw, t.catches[k], l)
  }

  predicate WantedByCatch(raw: seq<Raw>, c: Catch, l: int) {
    IsIdx(raw, c.handler, l) || IsIdx(raw, c.handler + c.size, l)
  }

  predicate EndsCode(raw: seq<Raw>, c: Catch) {
    c.handler + c.size == Pc(raw, |raw|)
  }

  /** The indices of the jumps among the first `n` instructions. */
  function JumpIndices(raw: seq<Raw>, n: int): seq<int>
    requires 0 <= n <= |raw|
    decreases n
  {
    if n == 0 then [] else JumpIndices(raw, n - 1) + if raw[n - 1].jump.Some? then [n - 1] else []
  }

  lemma {:induction false} JumpIndicesAre(raw: seq<Raw>, n: int)
    requires 0 <= n <= |raw|
    ensures forall k :: 0 <= k < |JumpIndices(raw, n)| ==>
      0 <= JumpIndices(raw, n)[k] < n && raw[JumpIndices(raw, n)[k]].jump.Some?
    ensures forall i :: 0 <= i < n && raw[i].jump.Some? ==> i in JumpIndices(raw, n)
    decreases n
  {
    if n > 0 { JumpIndicesAre(raw, n - 1); }
  }

  function Unlabelled(raw: seq<Raw>, n: int): seq<Item>
    requires 0 <= n <= |raw|
    decreases n
  {
    if n == 0 then [] else Unlabelled(raw, n - 1) + [Plain(raw[n - 1].size, None)]
  }

  lemma {:induction false} UnlabelledAt(raw: seq<Raw>, n: int)
    requires 0 <= n <= |raw|
    ensures |Unlabelled(raw, n)| == n && forall i :: 0 <= i < n ==> Unlabelled(raw, n)[i] == Plain(raw[i].size, None)
    decreases n
  {
    if n > 0 { UnlabelledAt(raw, n - 1); }
  }

  /** One pass over the code: the maps between pcs and indices, the jumps, and the instructions. */
  method Scan(raw: seq<Raw>) returns (pcIdx: map<int, int>, idxPc: map<int, int>, jumps: seq<int>, ins: seq<Item>)
    requires RawOk(raw)
    ensures MapsHold(raw, pcIdx, idxPc, |raw|) && jumps == JumpIndices(raw, |raw|) && ins == Unlabelled(raw, |raw|)
  {
    pcIdx, idxPc, jumps, ins := map[], map[], [], [];
    var pc, idx := 0, 0;
    while idx < |raw|
      invariant 0 <= idx <= |raw| && pc == Pc(raw, idx) && MapsHold(raw, pcIdx, idxPc, idx)
      invariant jumps == JumpIndices(raw, idx) && ins == Unlabelled(raw, idx)
    {
      MapsExtend(raw, pcIdx, idxPc, idx);
      if raw[idx].jump.Some? { jumps := jumps + [idx]; }
      ins := ins + [Plain(raw[idx].size, None)];
      pcIdx, idxPc := pcIdx[pc := idx], idxPc[idx := pc];
      pc := pc + raw[idx].size;
      idx := idx + 1;
    }
  }

  /** The instructions with labels in place of jump distances, those in `done` so far. */
  ghost function Targeted(raw: seq<Raw>, done: set<int>): (ins: seq<Item>)
    requires forall i :: 0 <= i < |raw| ==> JumpOk(raw, i)
    ensures |ins| == |raw|
    ensures forall i :: 0 <= i < |raw| ==> ins[i] == Plain(raw[i].size, if i in done then TargetOf(raw, i) else None)
  {
    seq(|raw|, i requires 0 <= i < |raw| => Plain(raw[i].size, if i in done then TargetOf(raw, i) else None))
  }

  ghost function AllTargeted(raw: seq<Raw>): (ins: seq<Item>)
    requires forall i :: 0 <= i < |raw| ==> JumpOk(raw, i)
    ensures TargetsAre(raw, ins)
  {
    seq(|raw|, i requires 0 <= i < |raw| => Plain(raw[i].size, TargetOf(raw, i)))
  }

  ghost predicate LabelsWanted(raw: seq<Raw>, tries: seq<Try>, labels: set<int>) {
    forall l :: l in labels ==> Wanted(raw, tries, l)
  }

  ghost predicate JumpsLabelled(raw: seq<Raw>, labels: set<int>)
    requires forall i :: 0 <= i < |raw| ==> JumpOk(raw, i)
  {
    forall i :: 0 <= i < |raw| && raw[i].jump.Some? ==> TargetOf(raw, i).value in labels
  }

  /** The first `k` jumps have their label. */
  ghost predicate Labelling(raw: seq<Raw>, jumps: seq<int>, k: int, done: set<int>, ins: seq<Item>, labels: set<int>)
    requires forall i :: 0 <= i < |raw| ==> JumpOk(raw, i)
  {
    && 0 <= k <= |jumps| && ins == Targeted(raw, done) && (forall j :: 0 <= j < k ==> jumps[j] in done)
    && forall i :: i in done ==> 0 <= i < |raw| && raw[i].jump.Some? && TargetOf(raw, i).value in labels
  }

  lemma LabellingStep(raw: seq<Raw>, jumps: seq<int>, k: int, done: set<int>, ins: seq<Item>, labels: set<int>)
    requires forall i :: 0 <= i < |raw| ==> JumpOk(raw, i)
    requires Labelling(raw, jumps, k, done, ins, labels) && k < |jumps| && 0 <= jumps[k] < |raw|
      && raw[jumps[k]].jump.Some?
    ensures Labelling(raw, jumps, k + 1, done + {jumps[k]},
                      ins[jumps[k] := Plain(raw[jumps[k]].size, TargetOf(raw, jumps[k]))],
                        labels + {TargetOf(raw, jumps[k]).value})
  {
    TargetStep(raw, done, jumps[k]);
  }

  lemma LabellingDone(raw: seq<Raw>, jumps: seq<int>, done: set<int>, ins: seq<Item>, labels: set<int>)
    requires forall i :: 0 <= i < |raw| ==> JumpOk(raw, i)
    requires jumps == JumpIndices(raw, |raw|) && Labelling(raw, jumps, |jumps|, done, ins, labels)
    ensures ins == AllTargeted(raw) && JumpsLabelled(raw, labels)
  {
    JumpIndicesAre(raw, |raw|);
    forall i | 0 <= i < |raw| && raw[i].jump.Some?
      ensures i in done
    {
      assert i in jumps;
    }
    JumpsSuffice(raw, done);
  }

  lemma TargetStep(raw: seq<Raw>, done: set<int>, i: int)
    requires (forall k :: 0 <= k < |raw| ==> JumpOk(raw, k)) && 0 <= i < |raw|
    ensures Targeted(raw, done)[i := Plain(raw[i].size, TargetOf(raw, i))] == Targeted(raw, done + {i})
  {
  }

  lemma NothingTargeted(raw: seq<Raw>)
    requires forall k :: 0 <= k < |raw| ==> JumpOk(raw, k)
    ensures Unlabelled(raw, |raw|) == Targeted(raw, {})
  {
    UnlabelledAt(raw, |raw|);
  }

  lemma JumpsSuffice(raw: seq<Raw>, done: set<int>)
    requires forall k :: 0 <= k < |raw| ==> JumpOk(raw, k)
    requires forall i :: 0 <= i < |raw| && raw[i].jump.Some? ==> i in done
    ensures Targeted(raw, done) == AllTargeted(raw)
  {
  }

  lemma TargetIsWanted(raw: seq<Raw>, tries: seq<Try>, i: int)
    requires 0 <= i < |raw| && JumpOk(raw, i) && raw[i].jump.Some?
    ensures Wanted(raw, tries, TargetOf(raw, i).value)
  {
  }

  lemma TryIsWanted(raw: seq<Raw>, tries: seq<Try>, k: int, l: int)
    requires 0 <= k < |tries| && WantedByTry(raw, tries[k], l)
    ensures Wanted(raw, tries, l)
  {
  }

  lemma CatchIsWanted(raw: seq<Raw>, tries: seq<Try>, k: int, j: int, l: int)
    requires 0 <= k < |tries| && 0 <= j < |tries[k].catches| && WantedByCatch(raw, tries[k].catches[j], l)
    ensures Wanted(raw, tries, l)
  {
    TryIsWanted(raw, tries, k, l);
  }

  /** The entry with the largest pc. */
  ghost predicate IsLast(m: map<int, int>, last: int) {
    last in m && forall p :: p in m ==> p <= last
  }

  ghost predicate Listed(m: map<int, int>) {
    m != map[] ==> exists last :: last in m && forall p :: p in m ==> p <= last
  }

  class CodeProcessor {
    const raw: seq<Raw>
    const tries: seq<Try>
    var pcIdx: map<int, int>
    var idxPc: map<int, int>
    var labels: set<int>
    var jumps: seq<int>
    var ins: seq<Item>
    var catchBlocks: seq<CatchBlock>

    constructor (raw: seq<Raw>, tries: seq<Try>)
      ensures this.raw == raw && this.tries == tries
      ensures pcIdx == map[] && idxPc == map[] && labels == {} && jumps == [] && ins == [] && catchBlocks == []
    {
      this.raw, this.tries := raw, tries;
      pcIdx, idxPc, labels, jumps, ins, catchBlocks := map[], map[], {}, [], [], [];
    }

    method FillInsWithoutLabels()
      requires RawOk(raw) && pcIdx == map[] && idxPc == map[] && ins == [] && jumps == []
      modifies this`pcIdx, this`idxPc, this`jumps, this`ins
      ensures MapsHold(raw, pcIdx, idxPc, |raw|) && jumps == JumpIndices(raw, |raw|) && ins == Unlabelled(raw, |raw|)
    {
      pcIdx, idxPc, jumps, ins := Scan(raw);
    }

    /** Whether some handler reaches to the end of the code. */
    method NeedToAddDummyEndIns() returns (need: bool)
      ensures need <==> HandlerEndsCode(raw, tries)
    {
      need := false;
      for k := 0 to |tries|
        invariant need <==>
          exists k', j :: 0 <= k' < k && 0 <= j < |tries[k'].catches| && EndsCode(raw, tries[k'].catches[j])
      {
        for j := 0 to |tries[k].catches|
          invariant need <==>
            || (exists k', j' :: 0 <= k' < k && 0 <= j' < |tries[k'].catches| && EndsCode(raw, tries[k'].catches[j']))
            || (exists j' :: 0 <= j' < j && EndsCode(raw, tries[k].catches[j']))
        {
          if EndsCode(raw, tries[k].catches[j]) { need := true; }
        }
      }
    }

    method AddDummyEndIns()
      requires RawOk(raw) && MapsHold(raw, pcIdx, idxPc, |raw|) && |ins| == |raw|
      modifies this`pcIdx, this`idxPc, this`labels
      ensures MapsHold(raw, pcIdx, idxPc, |raw| + 1) && labels == old(labels) + {|raw|}
    {
      MapsExtend(raw, pcIdx, idxPc, |raw|);
      pcIdx := pcIdx[Pc(raw, |raw|) := |raw|];
      idxPc := idxPc[|raw| := Pc(raw, |raw|)];
      labels := labels + {|ins|};
    }

    /** The index listed for a pc; a pc that is not listed is taken for the end of the code. */
    method FindIdx(pc: int) returns (idx: int)
      requires Listed(pcIdx)
      ensures pcIdx == map[] ==> idx == 0
      ensures pcIdx != map[] ==>
                if pc in pcIdx then idx == pcIdx[pc] else exists last :: IsLast(pcIdx, last) && idx == pcIdx[last] + 1
    {
      if pcIdx == map[] {
        return 0;
      }
      if pc !in pcIdx {
        var last :| last in pcIdx && forall p :: p in pcIdx ==> p <= last;
        assert IsLast(pcIdx, last);
        return pcIdx[last] + 1;
      }
      return pcIdx[pc];
    }

    method GetInstIdxByInstPc(pc: int, ghost lim: int) returns (idx: int)
      requires RawOk(raw) && MapsHold(raw, pcIdx, idxPc, lim) && |raw| <= lim && Boundary(raw, pc)
      ensures idx == Idx(raw, pc)
    {
      LastListed(raw, pcIdx, idxPc, lim);
      idx := FindIdx(pc);
      FoundIsIdx(raw, pcIdx, idxPc, lim, pc, idx);
    }

    method AddLabel4InsAtPc(pc: int, ghost lim: int)
      requires RawOk(raw) && MapsHold(raw, pcIdx, idxPc, lim) && |raw| <= lim && Boundary(raw, pc)
      modifies this`labels
      ensures labels == old(labels) + {Idx(raw, pc)}
    {
      var idx := GetInstIdxByInstPc(pc, lim);
      labels := labels + {idx};
    }

    method AddJumpLabel4InsAtIndex(i: int, ghost lim: int)
      requires RawOk(raw) && Pc(raw, |raw|) < UINT32 && MapsHold(raw, pcIdx, idxPc, lim) && |raw| <= lim
        && |ins| == |raw|
      requires 0 <= i < |raw| && raw[i].jump.Some? && JumpOk(raw, i)
      modifies this`labels, this`ins
      ensures labels == old(labels) + {TargetOf(raw, i).value}
      ensures ins == old(ins)[i := Plain(raw[i].size, TargetOf(raw, i))]
    {
      var pc := idxPc[i];
      var target := (pc + raw[i].jump.value) % UINT32;
      BoundaryInRange(raw, pc + raw[i].jump.value);
      var idx := GetInstIdxByInstPc(target, lim);
      labels := labels + {idx};
      ins := ins[i := Plain(raw[i].size, Some(idx))];
    }

    ghost predicate Ready(lim: int)
      reads this
    {
      InputOk(raw, tries) && MapsHold(raw, pcIdx, idxPc, lim) && |raw| <= lim && LabelsWanted(raw, tries, labels)
    }

    method AddJumpLabels(ghost lim: int)
      requires Ready(lim) && jumps == JumpIndices(raw, |raw|) && ins == Unlabelled(raw, |raw|)
      modifies this`labels, this`ins
      ensures Ready(lim) && old(labels) <= labels
      ensures ins == AllTargeted(raw) && JumpsLabelled(raw, labels)
    {
      JumpIndicesAre(raw, |raw|);
      NothingTargeted(raw);
      ghost var done: set<int> := {};
      for k := 0 to |jumps|
        invariant Labelling(raw, jumps, k, done, ins, labels) && LabelsWanted(raw, tries, labels)
          && old(labels) <= labels
      {
        TargetIsWanted(raw, tries, jumps[k]);
        LabellingStep(raw, jumps, k, done, ins, labels);
        AddJumpLabel4InsAtIndex(jumps[k], lim);
        done := done + {jumps[k]};
      }
      LabellingDone(raw, jumps, done, ins, labels);
    }

    method HandleTryBlock(k: nat, ghost lim: int)
      requires Ready(lim) && k < |tries|
      modifies this`labels
      ensures Ready(lim)
      ensures labels == old(labels) + {Idx(raw, tries[k].start), Idx(raw, tries[k].start + tries[k].length)}
    {
      assert TryOk(raw, tries[k]);
      TryIsWanted(raw, tries, k, Idx(raw, tries[k].start));
      TryIsWanted(raw, tries, k, Idx(raw, tries[k].start + tries[k].length));
      AddLabel4InsAtPc(tries[k].start, lim);
      AddLabel4InsAtPc(tries[k].start + tries[k].length, lim);
    }

    method HandleCatchBlock(k: nat, j: nat, ghost lim: int)
      requires Ready(lim) && k < |tries| && TryOk(raw, tries[k]) && j < |tries[k].catches|
      modifies this`labels, this`catchBlocks
      ensures Ready(lim)
      ensures var c := tries[k].catches[j]; labels == old(labels) + {Idx(raw, c.handler), Idx(raw, c.handler + c.size)}
      ensures catchBlocks == old(catchBlocks) + [BlockOf(raw, tries[k], tries[k].catches[j])]
    {
      var t, c := tries[k], tries[k].catches[j];
      assert CatchOk(raw, c);
      CatchIsWanted(raw, tries, k, j, Idx(raw, c.handler));
      CatchIsWanted(raw, tries, k, j, Idx(raw, c.handler + c.size));
      AddLabel4InsAtPc(c.handler, lim);
      AddLabel4InsAtPc(c.handler + c.size, lim);
      var tryBegin := GetInstIdxByInstPc(t.start, lim);
      var tryEnd := GetInstIdxByInstPc(t.start + t.length, lim);
      var catchBegin := GetInstIdxByInstPc(c.handler, lim);
      var catchEnd := GetInstIdxByInstPc(c.handler + c.size, lim);
      catchBlocks := catchBlocks + [CatchBlock(tryBegin, tryEnd, catchBegin, catchEnd, c.record)];
    }

    /** A try block and all its handlers. */
    method FillTry(k: nat, ghost lim: int)
      requires Ready(lim) && k < |tries| && TryOk(raw, tries[k])
      modifies this`labels, this`catchBlocks
      ensures Ready(lim) && old(labels) <= labels && HasLabels(raw, tries[k], labels)
      ensures catchBlocks == old(catchBlocks) + BlocksOf(raw, tries[k], |tries[k].catches|)
    {
      HandleTryBlock(k, lim);
      var t := tries[k];
      for j := 0 to |t.catches|
        invariant Ready(lim) && old(labels) <= labels
        invariant Idx(raw, t.start) in labels && Idx(raw, t.start + t.length) in labels
        invariant CatchesLabelled(raw, t, j, labels)
        invariant catchBlocks == old(catchBlocks) + BlocksOf(raw, t, j)
      {
        BlocksStep(raw, t, j);
        HandleCatchBlock(k, j, lim);
      }
    }

    method FillCatchBlocks(ghost lim: int)
      requires Ready(lim) && catchBlocks == []
      modifies this`labels, this`catchBlocks
      ensures Ready(lim) && old(labels) <= labels && catchBlocks == AllBlocks(raw, tries, |tries|)
      ensures TriesLabelled(raw, tries, |tries|, labels)
    {
      for k := 0 to |tries|
        invariant FilledTo(k, lim, old(labels))
      {
        FillNextTry(k, lim, old(labels));
      }
    }

    /** The first `k` try blocks are done. */
    ghost predicate FilledTo(k: int, lim: int, before: set<int>)
      reads this
    {
      && Ready(lim) && before <= labels && TriesLabelled(raw, tries, k, labels)
      && catchBlocks == AllBlocks(raw, tries, k)
    }

    method FillNextTry(k: nat, ghost lim: int, ghost before: set<int>)
      requires k < |tries| && FilledTo(k, lim, before)
      modifies this`labels, this`catchBlocks
      ensures FilledTo(k + 1, lim, before)
    {
      ghost var was := labels;
      FillTry(k, lim);
      TriesLabelledStep(raw, tries, k, was, labels);
      AllBlocksStep(raw, tries, k);
    }

    /**
     * Puts the labels into the list and moves the indices behind them. Without an entry for the end of the code the
     * last round lands on pc 0, whose index is then moved by the number of labels.
     */
    method AddLabels(ghost lim: int)
      requires MapsHold(raw, pcIdx, idxPc, lim) && 0 < |raw| == |ins| <= lim
      modifies this`ins, this`pcIdx, this`idxPc
      ensures ins == AllLabelled(old(ins), labels)
      ensures Moved(raw, labels, lim, old(idxPc), pcIdx) && pcIdx.Keys == old(pcIdx.Keys)
    {
      var newIns: seq<Item> := [];
      var inserted := 0;
      ghost var m0 := pcIdx;
      for i := 0 to |ins|
        invariant ins == old(ins) && idxPc == old(idxPc) && AddedTo(i, newIns, inserted, lim, m0)
      {
        newIns, inserted := AddLabelAt(i, newIns, inserted, lim, m0);
      }
      if |ins| in labels {
        newIns := newIns + [LabelIns(|ins|)];
        inserted := inserted + 1;
      }
      MoveEnd(inserted, lim, m0);
      ins := newIns;
    }

    /** Labels in front of the first `i` instructions are in, and the indices of those instructions have moved. */
    ghost predicate AddedTo(i: int, newIns: seq<Item>, inserted: int, lim: int, m0: map<int, int>)
      reads this
    {
      && MapsHold(raw, m0, idxPc, lim) && 0 < |raw| == |ins| <= lim && 0 <= i <= |ins|
      && newIns == Labelled(ins, labels, i) && inserted == (if i == 0 then 0 else LabelsUpTo(labels, i - 1))
      && MovedUpTo(idxPc, pcIdx, labels, i) && pcIdx.Keys == m0.Keys
    }

    method AddLabelAt(i: nat, newIns: seq<Item>, inserted: int, ghost lim: int, ghost m0: map<int, int>)
      returns (newIns': seq<Item>, inserted': int)
      requires AddedTo(i, newIns, inserted, lim, m0) && i < |ins|
      modifies this`pcIdx
      ensures AddedTo(i + 1, newIns', inserted', lim, m0)
    {
      newIns', inserted' := newIns, inserted;
      if i in labels {
        newIns' := newIns' + [LabelIns(i)];
        inserted' := inserted' + 1;
      }
      MoveStep(raw, m0, idxPc, pcIdx, labels, i, lim);
      pcIdx := pcIdx[idxPc[i] := pcIdx[idxPc[i]] + inserted'];
      newIns' := newIns' + [ins[i]];
    }

    /** The index behind the last instruction; without an entry of its own it is taken to be at pc 0. */
    method MoveEnd(inserted: int, ghost lim: int, ghost m0: map<int, int>)
      requires MapsHold(raw, m0, idxPc, lim) && 0 < |raw| == |ins| <= lim
      requires MovedUpTo(idxPc, pcIdx, labels, |raw|) && pcIdx.Keys == m0.Keys && inserted == LabelsUpTo(labels, |raw|)
      modifies this`pcIdx, this`idxPc
      ensures Moved(raw, labels, lim, old(idxPc), pcIdx) && pcIdx.Keys == m0.Keys
    {
      LastMove(raw, m0, idxPc, pcIdx, labels, lim);
      var pc := if |ins| in idxPc then idxPc[|ins|] else 0;
      idxPc := idxPc[|ins| := pc];
      pcIdx := pcIdx[pc := pcIdx[pc] + inserted];
    }

    method FillIns() returns (ghost lim: int)
      requires InputOk(raw, tries) && pcIdx == map[] && idxPc == map[] && labels == {} && jumps == [] && ins == []
      modifies this`pcIdx, this`idxPc, this`labels, this`jumps, this`ins
      ensures Ready(lim) && ins == AllTargeted(raw) && JumpsLabelled(raw, labels)
      ensures lim == |raw| + 1 <==> HandlerEndsCode(raw, tries)
    {
      FillInsWithoutLabels();
      UnlabelledAt(raw, |raw|);
      var need := NeedToAddDummyEndIns();
      lim := if need then |raw| + 1 else |raw|;
      if need {
        EndIsWanted(raw, tries);
        AddDummyEndIns();
      }
      AddJumpLabels(lim);
    }

    /**
     * Labels stand in front of every instruction that a jump or an exception table refers to, and of no other; jumps
     * and catch blocks name them.
     */
    method FillProgramData() returns (ghost lim: int, ghost m0: map<int, int>, ghost idx0: map<int, int>)
      requires InputOk(raw, tries) && raw != [] && pcIdx == map[] && idxPc == map[] && labels == {} && jumps == []
        && ins == []
      requires catchBlocks == []
      modifies this
      ensures Rebuilt(raw, tries, AllTargeted(raw), labels) && ins == AllLabelled(AllTargeted(raw), labels)
      ensures LabelsWanted(raw, tries, labels) && catchBlocks == AllBlocks(raw, tries, |tries|)
      ensures lim == (if HandlerEndsCode(raw, tries) then |raw| + 1 else |raw|)
        && IndicesMoved(raw, labels, lim, m0, idx0, pcIdx)
    {
      lim := FillIns();
      ghost var early := labels;
      FillCatchBlocks(lim);
      StillTargets(raw, early, labels);
      m0, idx0 := pcIdx, idxPc;
      AddLabels(lim);
      AllRebuilt(raw, tries, labels);
    }

    /** The index range of a variable, from its pc range. */
    method VariableRange(start: int, end: int, ghost lim: int, ghost m0: map<int, int>, ghost idx0: map<int, int>)
      returns (startIdx: int, length: int)
      requires RawOk(raw) && |raw| > 0 && IndicesMoved(raw, labels, lim, m0, idx0, pcIdx)
      requires Boundary(raw, start) && Boundary(raw, end)
      ensures startIdx == VariableIndex(raw, labels, lim, Idx(raw, start))
      ensures startIdx + length == VariableIndex(raw, labels, lim, Idx(raw, end))
    {
      StillListed(raw, labels, lim, m0, idx0, pcIdx);
      startIdx := FindIdx(start);
      FoundIsVariableIndex(raw, labels, lim, m0, idx0, pcIdx, start, startIdx);
      var endIdx := FindIdx(end);
      FoundIsVariableIndex(raw, labels, lim, m0, idx0, pcIdx, end, endIdx);
      length := endIdx - startIdx;
    }
  }

  ghost predicate HandlerEndsCode(raw: seq<Raw>, tries: seq<Try>) {
    exists k, j :: 0 <= k < |tries| && 0 <= j < |tries[k].catches|
                   && tries[k].catches[j].handler + tries[k].catches[j].size == Pc(raw, |raw|)
  }

  lemma EndIsWanted(raw: seq<Raw>, tries: seq<Try>)
    requires HandlerEndsCode(raw, tries)
    ensures Wanted(raw, tries, |raw|)
  {
    var k, j :| 0 <= k < |tries| && 0 <= j < |tries[k].catches|
                && tries[k].catches[j].handler + tries[k].catches[j].size == Pc(raw, |raw|);
    assert IsIdx(raw, tries[k].catches[j].handler + tries[k].catches[j].size, |raw|);
    CatchIsWanted(raw, tries, k, j, |raw|);
  }

  lemma StillTargets(raw: seq<Raw>, before: set<int>, after: set<int>)
    requires (forall i :: 0 <= i < |raw| ==> JumpOk(raw, i)) && JumpsLabelled(raw, before) && before <= after
    ensures JumpsLabelled(raw, after)
  {
  }

  lemma AllRebuilt(raw: seq<Raw>, tries: seq<Try>, labels: set<int>)
    requires InputOk(raw, tries) && JumpsLabelled(raw, labels) && TriesLabelled(raw, tries, |tries|, labels)
    ensures Rebuilt(raw, tries, AllTargeted(raw), labels)
  {
  }

  /** The pc map after the labels went in: the same pcs, each with its moved index. */
  ghost predicate IndicesMoved(raw: seq<Raw>, labels: set<int>, lim: int, m0: map<int, int>, idx0: map<int, int>,
      pcIdx: map<int, int>) {
    MapsHold(raw, m0, idx0, lim) && |raw| <= lim && Moved(raw, labels, lim, idx0, pcIdx) && pcIdx.Keys == m0.Keys
  }

  lemma StillListed(raw: seq<Raw>, labels: set<int>, lim: int, m0: map<int, int>, idx0: map<int, int>,
      pcIdx: map<int, int>)
    requires RawOk(raw) && |raw| > 0 && IndicesMoved(raw, labels, lim, m0, idx0, pcIdx)
    ensures pcIdx != map[] && IsLast(pcIdx, Pc(raw, lim - 1)) && Listed(pcIdx)
    ensures pcIdx[Pc(raw, lim - 1)] == MovedIndex(raw, labels, lim, lim - 1)
  {
    LastIsEnd(raw, m0, idx0, lim);
    assert lim - 1 in idx0;
  }

  lemma FoundIsVariableIndex(raw: seq<Raw>, labels: set<int>, lim: int, m0: map<int, int>, idx0: map<int, int>,
      pcIdx: map<int, int>, pc: int, idx: int)
    requires RawOk(raw) && |raw| > 0 && IndicesMoved(raw, labels, lim, m0, idx0, pcIdx) && Boundary(raw, pc)
    requires if pc in pcIdx then idx == pcIdx[pc] else exists last :: IsLast(pcIdx, last) && idx == pcIdx[last] + 1
    ensures idx == VariableIndex(raw, labels, lim, Idx(raw, pc))
  {
    var i := Idx(raw, pc);
    assert i < lim ==> i in idx0;
    StillListed(raw, labels, lim, m0, idx0, pcIdx);
    if pc in pcIdx {
      assert pc in m0;
      PcInjective(raw, i, m0[pc]);
    }
  }

  /** Where a variable's pc, that of instruction `i`, is looked up in the list with labels. */
  function VariableIndex(raw: seq<Raw>, labels: set<int>, lim: int, i: int): int
    requires 0 <= i && 0 < |raw|
  {
    if i < lim then MovedIndex(raw, labels, lim, i) else MovedIndex(raw, labels, lim, |raw| - 1) + 1
  }

  lemma EndStays(raw: seq<Raw>, ins: seq<Item>, labels: set<int>)
    requires TargetsAre(raw, ins)
    ensures var all := AllLabelled(ins, labels);
            |all| == NewIndex(labels, |raw|) && ItemPc(all, |all|) == Pc(raw, |raw|)
  {
    LabelledLength(ins, labels, |ins|);
    LabelledPc(raw, ins, labels, 0, |raw|);
    HerePc(Labelled(ins, labels, |ins|), labels, |ins|, 0);
  }

  /**
   * A variable's index has the variable's pc, when the end of the code is listed or the pc is not that of instruction
   * 0.
   */
  lemma VariableIndexIsRight(raw: seq<Raw>, labels: set<int>, lim: int, i: int)
    requires RawOk(raw) && (forall k :: 0 <= k < |raw| ==> JumpOk(raw, k)) && 0 < |raw|
      && 0 <= i <= |raw| <= lim <= |raw| + 1
    requires lim == |raw| + 1 || (0 < i && 1 < |raw|)
    ensures var all := AllLabelled(AllTargeted(raw), labels);
            0 <= VariableIndex(raw, labels, lim, i) <= |all|
              && ItemPc(all, VariableIndex(raw, labels, lim, i)) == Pc(raw, i)
  {
    EndStays(raw, AllTargeted(raw), labels);
    if i < |raw| {
      InstructionStays(raw, AllTargeted(raw), labels, i);
    } else if i == lim {
      InstructionStays(raw, AllTargeted(raw), labels, |raw| - 1);
    }
  }

  lemma {:induction false} LaterPc(items: seq<Item>, i: int, j: int)
    requires 0 <= i <= j <= |items| && forall k :: 0 <= k < |items| ==> SizeOf(items[k]) >= 0
    ensures ItemPc(items, i) <= ItemPc(items, j)
    decreases j
  {
    if i < j { LaterPc(items, i, j - 1); }
  }

  lemma {:induction false} SizesStay(ins: seq<Item>, labels: set<int>, n: int)
    requires 0 <= n <= |ins| && forall k :: 0 <= k < |ins| ==> SizeOf(ins[k]) >= 0
    ensures forall k :: 0 <= k < |Labelled(ins, labels, n)| ==> SizeOf(Labelled(ins, labels, n)[k]) >= 0
    decreases n
  {
    if n > 0 { SizesStay(ins, labels, n - 1); }
  }

  /**
   * Without an entry for the end of the code, a variable that starts at pc 0 is placed right if and only if there are
   * no labels.
   */
  lemma {:induction false} PcZeroIsRight(raw: seq<Raw>, labels: set<int>)
    requires RawOk(raw) && (forall k :: 0 <= k < |raw| ==> JumpOk(raw, k)) && 0 < |raw|
    ensures var all, idx := AllLabelled(AllTargeted(raw), labels), VariableIndex(raw, labels, |raw|, 0);
            0 <= idx <= |all| && (ItemPc(all, idx) == 0 <==> LabelsUpTo(labels, |raw|) == 0)
  {
    var ins := AllTargeted(raw);
    var all, idx := AllLabelled(ins, labels), VariableIndex(raw, labels, |raw|, 0);
    EndStays(raw, ins, labels);
    InstructionStays(raw, ins, labels, 0);
    assert idx <= |all| by { assert LabelsUpTo(labels, 0) <= 1; }
    if LabelsUpTo(labels, |raw|) > 0 {
      SizesStay(ins, labels, |ins|);
      LaterPc(all, NewIndex(labels, 0) + 1, idx);
    }
  }

  /** The index of a variable's pc is an index of the list, and the code in front of it has that pc. */
  ghost predicate PlacedRight(raw: seq<Raw>, labels: set<int>, lim: int, i: int)
    requires (forall k :: 0 <= k < |raw| ==> JumpOk(raw, k)) && 0 < |raw| && 0 <= i <= |raw|
  {
    var all, idx := AllLabelled(AllTargeted(raw), labels), VariableIndex(raw, labels, lim, i);
    0 <= idx <= |all| && ItemPc(all, idx) == Pc(raw, i)
  }

  /** Exactly when a variable's start or end is placed right, for every variable of every function. */
  lemma VariableIndexIsExact(raw: seq<Raw>, labels: set<int>, lim: int, i: int)
    requires RawOk(raw) && (forall k :: 0 <= k < |raw| ==> JumpOk(raw, k)) && 0 < |raw|
      && 0 <= i <= |raw| <= lim <= |raw| + 1
    ensures PlacedRight(raw, labels, lim, i) <==>
            || lim == |raw| + 1 || (0 < i && 1 < |raw|)
            || (if i == 0 then LabelsUpTo(labels, |raw|) == 0 else 0 !in labels)
  {
    if lim == |raw| + 1 || (0 < i && 1 < |raw|) {
      VariableIndexIsRight(raw, labels, lim, i);
    } else if i == 0 {
      PcZeroIsRight(raw, labels);
    } else {
      EndStays(raw, AllTargeted(raw), labels);
      assert LabelsUpTo(labels, 0) == if 0 in labels then 1 else 0;
    }
  }

  /** The indices before `n` have been moved behind the labels. */
  ghost predicate MovedUpTo(idxPc: map<int, int>, pcIdx: map<int, int>, labels: set<int>, n: int) {
    forall j :: j in idxPc ==>
      0 <= j && idxPc[j] in pcIdx && pcIdx[idxPc[j]] == if j < n then NewIndex(labels, j) else j
  }

  /** What an index has become when all labels are in. */
  function MovedIndex(raw: seq<Raw>, labels: set<int>, lim: int, j: int): int
    requires 0 <= j
  {
    NewIndex(labels, j) + if j == 0 && lim == |raw| then LabelsUpTo(labels, |raw|) else 0
  }

  ghost predicate Moved(raw: seq<Raw>, labels: set<int>, lim: int, idxPc: map<int, int>, pcIdx: map<int, int>) {
    forall j :: j in idxPc ==> 0 <= j && idxPc[j] in pcIdx && pcIdx[idxPc[j]] == MovedIndex(raw, labels, lim, j)
  }

  lemma MoveStep(raw: seq<Raw>, m0: map<int, int>, idxPc: map<int, int>, pcIdx: map<int, int>, labels: set<int>,
      i: int, lim: int)
    requires MapsHold(raw, m0, idxPc, lim) && 0 <= i < |raw| <= lim
    requires MovedUpTo(idxPc, pcIdx, labels, i) && pcIdx.Keys == m0.Keys
    ensures i in idxPc && idxPc[i] in pcIdx && pcIdx[idxPc[i]] == i
    ensures MovedUpTo(idxPc, pcIdx[idxPc[i] := i + LabelsUpTo(labels, i)], labels, i + 1)
    ensures pcIdx[idxPc[i] := i + LabelsUpTo(labels, i)].Keys == m0.Keys
  {
    assert i in idxPc;
    var moved := pcIdx[idxPc[i] := i + LabelsUpTo(labels, i)];
    forall j | j in idxPc
      ensures 0 <= j && idxPc[j] in moved && moved[idxPc[j]] == if j < i + 1 then NewIndex(labels, j) else j
    {
      assert m0[idxPc[j]] == j && m0[idxPc[i]] == i;
    }
  }

  lemma LastMove(raw: seq<Raw>, m0: map<int, int>, idxPc: map<int, int>, pcIdx: map<int, int>, labels: set<int>,
      lim: int)
    requires MapsHold(raw, m0, idxPc, lim) && 0 < |raw| <= lim
    requires MovedUpTo(idxPc, pcIdx, labels, |raw|) && pcIdx.Keys == m0.Keys
    ensures var pc := if |raw| in idxPc then idxPc[|raw|] else 0;
            && pc in pcIdx
            && Moved(raw, labels, lim, idxPc, pcIdx[pc := pcIdx[pc] + LabelsUpTo(labels, |raw|)])
            && pcIdx[pc := pcIdx[pc] + LabelsUpTo(labels, |raw|)].Keys == m0.Keys
  {
    assert 0 in idxPc && idxPc[0] == 0;
  }

  ghost predicate CatchesLabelled(raw: seq<Raw>, t: Try, n: int, labels: set<int>)
    requires TryOk(raw, t) && 0 <= n <= |t.catches|
  {
    forall k :: 0 <= k < n ==>
      Idx(raw, t.catches[k].handler) in labels && Idx(raw, t.catches[k].handler + t.catches[k].size) in labels
  }

  lemma BlocksStep(raw: seq<Raw>, t: Try, n: int)
    requires TryOk(raw, t) && 0 <= n < |t.catches|
    ensures BlocksOf(raw, t, n + 1) == BlocksOf(raw, t, n) + [BlockOf(raw, t, t.catches[n])]
  {
  }

  ghost predicate TriesLabelled(raw: seq<Raw>, tries: seq<Try>, n: int, labels: set<int>) {
    && 0 <= n <= |tries|
    && forall j :: 0 <= j < n ==> TryOk(raw, tries[j]) && HasLabels(raw, tries[j], labels)
  }

  lemma AllBlocksStep(raw: seq<Raw>, tries: seq<Try>, k: nat)
    requires k < |tries| && forall j :: 0 <= j < |tries| ==> TryOk(raw, tries[j])
    ensures AllBlocks(raw, tries, k + 1) == AllBlocks(raw, tries, k) + BlocksOf(raw, tries[k], |tries[k].catches|)
  {
  }

  lemma TriesLabelledStep(raw: seq<Raw>, tries: seq<Try>, n: int, before: set<int>, after: set<int>)
    requires TriesLabelled(raw, tries, n, before) && before <= after
    requires n < |tries| && TryOk(raw, tries[n]) && HasLabels(raw, tries[n], after)
    ensures TriesLabelled(raw, tries, n + 1, after)
  {
    forall j | 0 <= j < n + 1
      ensures TryOk(raw, tries[j]) && HasLabels(raw, tries[j], after)
    {
      assert j < n ==> HasLabels(raw, tries[j], before);
    }
  }

  lemma EmptyMaps(raw: seq<Raw>, pcIdx: map<int, int>, idxPc: map<int, int>, lim: int)
    requires MapsHold(raw, pcIdx, idxPc, lim)
    ensures pcIdx == map[] <==> lim == 0
  {
    assert lim > 0 ==> 0 in idxPc;
  }

  lemma MapsExtend(raw: seq<Raw>, pcIdx: map<int, int>, idxPc: map<int, int>, n: int)
    requires RawOk(raw) && 0 <= n <= |raw| && MapsHold(raw, pcIdx, idxPc, n)
    ensures MapsHold(raw, pcIdx[Pc(raw, n) := n], idxPc[n := Pc(raw, n)], n + 1)
  {
    EarlierPcsDiffer(raw, n);
  }

  lemma EarlierPcsDiffer(raw: seq<Raw>, n: int)
    requires RawOk(raw) && 0 <= n <= |raw|
    ensures forall i :: 0 <= i < n ==> Pc(raw, i) != Pc(raw, n)
  {
    forall i | 0 <= i < n
      ensures Pc(raw, i) != Pc(raw, n)
    {
      PcGrows(raw, i, n);
    }
  }

  lemma LastIsEnd(raw: seq<Raw>, pcIdx: map<int, int>, idxPc: map<int, int>, lim: int)
    requires RawOk(raw) && MapsHold(raw, pcIdx, idxPc, lim) && 0 < lim
    ensures IsLast(pcIdx, Pc(raw, lim - 1)) && pcIdx[Pc(raw, lim - 1)] == lim - 1
  {
    assert lim - 1 in idxPc;
    var last := idxPc[lim - 1];
    forall p | p in pcIdx
      ensures p <= last
    {
      if pcIdx[p] < lim - 1 { PcGrows(raw, pcIdx[p], lim - 1); }
    }
  }

  lemma LastListed(raw: seq<Raw>, pcIdx: map<int, int>, idxPc: map<int, int>, lim: int)
    requires RawOk(raw) && MapsHold(raw, pcIdx, idxPc, lim)
    ensures Listed(pcIdx) && (pcIdx == map[] <==> lim == 0)
  {
    EmptyMaps(raw, pcIdx, idxPc, lim);
    if lim > 0 { LastIsEnd(raw, pcIdx, idxPc, lim); }
  }

  lemma FoundIsIdx(raw: seq<Raw>, pcIdx: map<int, int>, idxPc: map<int, int>, lim: int, pc: int, idx: int)
    requires RawOk(raw) && MapsHold(raw, pcIdx, idxPc, lim) && |raw| <= lim && Boundary(raw, pc)
    requires pcIdx == map[] ==> idx == 0
    requires pcIdx != map[] ==>
                if pc in pcIdx then idx == pcIdx[pc] else exists last :: IsLast(pcIdx, last) && idx == pcIdx[last] + 1
    ensures idx == Idx(raw, pc)
  {
    var i := Idx(raw, pc);
    assert i < lim ==> i in idxPc;
    EmptyMaps(raw, pcIdx, idxPc, lim);
    if pc in pcIdx {
      PcInjective(raw, i, pcIdx[pc]);
    } else if lim > 0 {
      LastIsEnd(raw, pcIdx, idxPc, lim);
    }
  }

  lemma BoundaryInRange(raw: seq<Raw>, pc: int)
    requires RawOk(raw) && Boundary(raw, pc) && Pc(raw, |raw|) < UINT32
    ensures 0 <= pc < UINT32 && pc % UINT32 == pc
  {
    var i := Idx(raw, pc);
    if 0 < i { PcGrows(raw, 0, i); }
    if i < |raw| { PcGrows(raw, i, |raw|); }
  }

  /**
   * Disassembled and emitted again, the try table is the same exactly when its ranges are distinct and have handlers.
   */
  method DisassembleAndEmit(raw: seq<Raw>, tries: seq<Try>) returns (blocks: seq<Try>)
    requires InputOk(raw, tries) && raw != []
    ensures blocks == tries <==> Proper(tries, |tries|)
  {
    var p := new CodeProcessor(raw, tries);
    ghost var lim, m0, idx0 := p.FillProgramData();
    blocks := BuildTryBlocks(p.ins, p.catchBlocks);
    EndStays(raw, AllTargeted(raw), p.labels);
    TriesComeBack(raw, tries, AllTargeted(raw), p.labels);
  }
}
