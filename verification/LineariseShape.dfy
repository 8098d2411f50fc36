/** The emitted list, position by position. */
module LineariseShape {
  import opened Options
  import opened Linearise

  // ----- the list that a graph asks for -----

  predicate Is(list: seq<Ins>, i: int, ins: Ins) {
    0 <= i < |list| && list[i] == ins
  }

  function One(c: bool): nat {
    if c then 1 else 0
  }

  /** A register is loaded unless it is the accumulator; control goes on at `to`. */
  predicate Loads(list: seq<Ins>, from: nat, reg: int, to: nat) {
    to == from + One(reg != 254) && (reg != 254 ==> Is(list, from, Lda(reg)))
  }

  /** The jump that a block ends with, if it needs one. */
  predicate Jumps(list: seq<Ins>, from: nat, needed: bool, target: nat, to: nat) {
    to == from + One(needed) && (needed ==> Is(list, from, Jmp(target)))
  }

  /** A comparison of the value in `reg` with `flag`, and a branch to `target` where the condition holds. */
  predicate Compares(list: seq<Ins>, from: nat, equal: bool, flag: bool, reg: int, target: nat, to: nat) {
    var at := from + One(reg != 254);
    && Loads(list, from, reg, at)
    && if equal then to == at + 1 && Is(list, at, if flag then Jtrue(target) else Jfalse(target))
       else to == at + 2 && Is(list, at, if flag then IsTrue else IsFalse) && Is(list, at + 1, Jfalse(target))
  }

  predicate TailStands(list: seq<Ins>, from: nat, blk: Block, to: nat) {
    match blk.term
    case Return => to == from + 1 && Is(list, from, Ret)
    case Goto(n) => Jumps(list, from, blk.needsJump, n, to)
    case IfImmZero(cc, reg, yes, no) =>
      var at := from + One(reg != 254);
      && Loads(list, from, reg, at) && cc != Cond.Unsupported
      && Is(list, at, if cc == EQ then Jeqz(yes) else Jnez(yes)) && Jumps(list, at + 1, blk.needsJump, no, to)
    case If(cc, lhs, rhs, yes, no) =>
      && cc != Cond.Unsupported && from + One(blk.needsJump) <= to
      && Jumps(list, to - One(blk.needsJump), blk.needsJump, no, to)
      && var at := to - One(blk.needsJump);
         if lhs.known == Some(Bool(true)) then Compares(list, from, cc == EQ, true, rhs.reg, yes, at)
         else if lhs.known == Some(Bool(false)) then Compares(list, from, cc == EQ, false, rhs.reg, yes, at)
         else if rhs.known == Some(Bool(true)) then Compares(list, from, cc == EQ, true, lhs.reg, yes, at)
         else rhs.known == Some(Bool(false)) && Compares(list, from, cc == EQ, false, lhs.reg, yes, at)
  }

  /** The code of a block: its label, its end label if it closes a region, its body, its branch and its jump. */
  ghost predicate BlockStands(list: seq<Ins>, from: nat, b: nat, blk: Block, to: nat) {
    HeadStands(list, from, b, blk) && TailStands(list, from + 1 + One(blk.closes) + |blk.body|, blk, to)
  }

  ghost predicate HeadStands(list: seq<Ins>, from: nat, b: nat, blk: Block) {
    && Is(list, from, Label(b)) && (blk.closes ==> Is(list, from + 1, EndLabel(b)))
    && forall i :: 0 <= i < |blk.body| ==> Is(list, from + 1 + One(blk.closes) + i, Body(blk.body[i]))
  }

  /** Block `order[k]` stands from `at[k]` up to `at[k + 1]`, behind the `nop` that try regions ask for. */
  ghost predicate Stands(list: seq<Ins>, g: Graph, order: seq<nat>, hasTry: bool, at: seq<nat>) {
    && |at| == |order| + 1 && at[0] == One(hasTry) && at[|order|] == |list| && (hasTry ==> Is(list, 0, Nop))
    && forall k :: 0 <= k < |order| ==> order[k] < |g| && BlockStands(list, at[k], order[k], g[order[k]], at[k + 1])
  }

  // ----- that is what is emitted -----

  lemma HeadIsEmitted(front: seq<Ins>, b: nat, blk: Block, rest: seq<Ins>)
    ensures HeadStands(front + HeadCode(b, blk) + BodyCode(blk.body) + rest, |front|, b, blk)
    ensures |front| + 1 + One(blk.closes) + |blk.body| == |front + HeadCode(b, blk) + BodyCode(blk.body)|
  {
    var list := front + HeadCode(b, blk) + BodyCode(blk.body) + rest;
    forall i | 0 <= i < |blk.body|
      ensures list[|front| + 1 + One(blk.closes) + i] == Body(blk.body[i])
    {
      assert BodyCode(blk.body)[i] == Body(blk.body[i]);
    }
  }

  lemma Regroup(front: seq<Ins>, h: seq<Ins>, b: seq<Ins>, t: seq<Ins>, j: seq<Ins>)
    ensures front + (h + b + t + j) == front + h + b + (t + j)
  {
  }

  lemma BlockIsEmitted(g: Graph, b: nat, front: seq<Ins>)
    requires b < |g| && Supported(g[b].term) && (g[b].term.Return? ==> !g[b].needsJump)
    ensures BlockStands(front + BlockCode(g, b), |front|, b, g[b], |front + BlockCode(g, b)|)
  {
    var blk := g[b];
    PartsAreEmitted(front, b, blk);
    Regroup(front, HeadCode(b, blk), BodyCode(blk.body), BranchCode(blk.term), JumpCode(blk));
  }

  lemma JoinParts(list: seq<Ins>, from: nat, mid: nat, b: nat, blk: Block, to: nat)
    requires mid == from + 1 + One(blk.closes) + |blk.body|
    requires HeadStands(list, from, b, blk) && TailStands(list, mid, blk, to)
    ensures BlockStands(list, from, b, blk, to)
  {
  }

  lemma PartsAreEmitted(front: seq<Ins>, b: nat, blk: Block)
    requires Supported(blk.term) && (blk.term.Return? ==> !blk.needsJump)
    ensures var list := front + HeadCode(b, blk) + BodyCode(blk.body) + (BranchCode(blk.term) + JumpCode(blk));
            BlockStands(list, |front|, b, blk, |list|)
  {
    var before, tail := front + HeadCode(b, blk) + BodyCode(blk.body), BranchCode(blk.term) + JumpCode(blk);
    HeadIsEmitted(front, b, blk, tail);
    TailIsEmitted(before, blk);
    JoinParts(before + tail, |front|, |before|, b, blk, |before + tail|);
  }

  lemma TailIsEmitted(front: seq<Ins>, blk: Block)
    requires Supported(blk.term) && (blk.term.Return? ==> !blk.needsJump)
    ensures TailStands(front + (BranchCode(blk.term) + JumpCode(blk)), |front|, blk,
                       |front + (BranchCode(blk.term) + JumpCode(blk))|)
  {
  }

  lemma ComparesStill(list: seq<Ins>, more: seq<Ins>, from: nat, equal: bool, flag: bool, reg: int, target: nat,
      to: nat)
    requires list <= more
    ensures Compares(list, from, equal, flag, reg, target, to) ==> Compares(more, from, equal, flag, reg, target, to)
  {
  }

  lemma TailStillStands(list: seq<Ins>, more: seq<Ins>, from: nat, blk: Block, to: nat)
    requires TailStands(list, from, blk, to) && list <= more
    ensures TailStands(more, from, blk, to)
  {
    if blk.term.If? {
      var at := to - One(blk.needsJump);
      var cc, lhs, rhs, yes := blk.term.cc, blk.term.lhs, blk.term.rhs, blk.term.onTrue;
      ComparesStill(list, more, from, cc == EQ, true, rhs.reg, yes, at);
      ComparesStill(list, more, from, cc == EQ, false, rhs.reg, yes, at);
      ComparesStill(list, more, from, cc == EQ, true, lhs.reg, yes, at);
      ComparesStill(list, more, from, cc == EQ, false, lhs.reg, yes, at);
    }
  }

  /** What stands in a list stands in every longer one. */
  lemma StillStands(list: seq<Ins>, more: seq<Ins>, from: nat, b: nat, blk: Block, to: nat)
    requires BlockStands(list, from, b, blk, to) && list <= more
    ensures BlockStands(more, from, b, blk, to)
  {
    TailStillStands(list, more, from + 1 + One(blk.closes) + |blk.body|, blk, to);
    forall i, ins | Is(list, i, ins)
      ensures Is(more, i, ins)
    {
    }
    assert HeadStands(more, from, b, blk);
  }

  lemma {:induction false} CodeStands(g: Graph, order: seq<nat>, hasTry: bool, n: nat) returns (at: seq<nat>)
    requires n <= |order| && AllEmittable(g, order) && AllSupported(g, order, n)
    ensures Stands(Code(g, order, hasTry, n), g, order[..n], hasTry, at)
    decreases n
  {
    if n == 0 {
      at := NothingStands(g, order, hasTry);
    } else {
      var before := CodeStands(g, order, hasTry, n - 1);
      NextStands(g, order, hasTry, n - 1);
      at := StandsNext(Code(g, order, hasTry, n - 1), Code(g, order, hasTry, n), g, order, hasTry, n - 1, before);
    }
  }

  lemma NothingStands(g: Graph, order: seq<nat>, hasTry: bool) returns (at: seq<nat>)
    requires AllEmittable(g, order)
    ensures Stands(Code(g, order, hasTry, 0), g, order[..0], hasTry, at)
  {
    at := [One(hasTry)];
    assert Code(g, order, hasTry, 0) == if hasTry then [Nop] else [];
  }

  lemma StandsNext(list: seq<Ins>, more: seq<Ins>, g: Graph, order: seq<nat>, hasTry: bool, n: nat, before: seq<nat>)
    returns (at: seq<nat>)
    requires n < |order| && order[n] < |g| && list <= more && Stands(list, g, order[..n], hasTry, before)
    requires BlockStands(more, |list|, order[n], g[order[n]], |more|)
    ensures Stands(more, g, order[..n + 1], hasTry, at)
  {
    at := MoreStands(list, more, g, order[..n], order[n], hasTry, before);
    assert order[..n + 1] == order[..n] + [order[n]];
  }

  lemma NextStands(g: Graph, order: seq<nat>, hasTry: bool, n: nat)
    requires n < |order| && AllEmittable(g, order) && Supported(g[order[n]].term)
    ensures var list, more := Code(g, order, hasTry, n), Code(g, order, hasTry, n + 1);
            list <= more && BlockStands(more, |list|, order[n], g[order[n]], |more|)
  {
    assert Emittable(g, order[n]);
    CodeStep(g, order, hasTry, n);
    BlockIsEmitted(g, order[n], Code(g, order, hasTry, n));
  }

  lemma MoreStands(list: seq<Ins>, more: seq<Ins>, g: Graph, order: seq<nat>, b: nat, hasTry: bool, before: seq<nat>)
    returns (at: seq<nat>)
    requires list <= more && Stands(list, g, order, hasTry, before)
    requires b < |g| && BlockStands(more, |list|, b, g[b], |more|)
    ensures Stands(more, g, order + [b], hasTry, at)
  {
    at := before + [|more|];
    forall k | 0 <= k < |order|
      ensures BlockStands(more, before[k], order[k], g[order[k]], before[k + 1])
    {
      StillStands(list, more, before[k], order[k], g[order[k]], before[k + 1]);
    }
  }

  /** The list that the generator leaves is the one the graph asks for. */
  lemma EmittedStands(g: Graph, order: seq<nat>, hasTry: bool) returns (at: seq<nat>)
    requires AllEmittable(g, order) && AllSupported(g, order, |order|)
    ensures Stands(Code(g, order, hasTry, |order|), g, order, hasTry, at)
  {
    at := CodeStands(g, order, hasTry, |order|);
    assert order[..|order|] == order;
  }

  // ----- labels -----

  lemma {:induction false} BlockOf(list: seq<Ins>, g: Graph, order: seq<nat>, hasTry: bool, at: seq<nat>, n: nat,
      i: nat)
    returns (k: nat)
    requires Stands(list, g, order, hasTry, at) && n <= |order| && One(hasTry) <= i < at[n]
    ensures k < n && at[k] <= i < at[k + 1]
    decreases n
  {
    k := n - 1;
    if i < at[k] { k := BlockOf(list, g, order, hasTry, at, n - 1, i); }
  }

  lemma NoLabelInTail(list: seq<Ins>, from: nat, blk: Block, to: nat, i: nat)
    requires TailStands(list, from, blk, to) && from <= i < to
    ensures i < |list| && !list[i].Label? && !list[i].EndLabel? && list[i] != Nop
  {
  }

  lemma TailEnds(list: seq<Ins>, from: nat, blk: Block, to: nat)
    requires TailStands(list, from, blk, to)
    ensures from <= to
  {
  }

  /** In the code of a block only the first instruction is a label, and only the second one may be an end label. */
  lemma LabelsInBlock(list: seq<Ins>, from: nat, b: nat, blk: Block, to: nat, i: nat)
    requires BlockStands(list, from, b, blk, to) && from <= i < to
    ensures i < |list| && list[i] != Nop
    ensures list[i].Label? ==> i == from && list[i] == Label(b)
    ensures list[i].EndLabel? ==> i == from + 1 && list[i] == EndLabel(b) && blk.closes
    ensures blk.closes ==> from + 1 < to
  {
    var body := from + 1 + One(blk.closes);
    TailEnds(list, body + |blk.body|, blk, to);
    if body + |blk.body| <= i {
      NoLabelInTail(list, body + |blk.body|, blk, to, i);
    } else if body <= i {
      assert Is(list, body + (i - body), Body(blk.body[i - body]));
    }
  }

  /**
   * An end label stands right behind the label of its block, for just those blocks that close a region; and nothing
   * but the `nop` in front, for try regions, is one.
   */
  lemma EndLabelsExactly(list: seq<Ins>, g: Graph, order: seq<nat>, hasTry: bool, at: seq<nat>, i: nat, b: nat)
    requires Stands(list, g, order, hasTry, at) && i < |list|
    ensures list[i] == EndLabel(b) <==> i > 0 && list[i - 1] == Label(b) && b < |g| && g[b].closes
    ensures list[i] == Label(b) ==> b in order
    ensures list[i] == Nop <==> i == 0 && hasTry
  {
    if One(hasTry) <= i {
      var k := BlockOf(list, g, order, hasTry, at, |order|, i);
      LabelsInBlock(list, at[k], order[k], g[order[k]], at[k + 1], i);
      if i > One(hasTry) {
        var l := BlockOf(list, g, order, hasTry, at, |order|, i - 1);
        LabelsInBlock(list, at[l], order[l], g[order[l]], at[l + 1], i - 1);
        if list[i - 1] == Label(b) && g[b].closes { assert Is(list, at[l] + 1, EndLabel(b)); }
      }
    }
  }

  /** Every block of the order has its label in the list, once. */
  lemma LabelsOnce(list: seq<Ins>, g: Graph, order: seq<nat>, hasTry: bool, at: seq<nat>, k: nat)
    requires Stands(list, g, order, hasTry, at) && k < |order|
    requires forall i, j :: 0 <= i < j < |order| ==> order[i] != order[j]
    ensures Is(list, at[k], Label(order[k]))
    ensures forall i :: Is(list, i, Label(order[k])) ==> i == at[k]
  {
    assert BlockStands(list, at[k], order[k], g[order[k]], at[k + 1]);
    forall i | Is(list, i, Label(order[k]))
      ensures i == at[k]
    {
      LabelIsAt(list, g, order, hasTry, at, k, i);
    }
  }

  lemma LabelIsAt(list: seq<Ins>, g: Graph, order: seq<nat>, hasTry: bool, at: seq<nat>, k: nat, i: nat)
    requires Stands(list, g, order, hasTry, at) && k < |order| && Is(list, i, Label(order[k]))
    requires forall i, j :: 0 <= i < j < |order| ==> order[i] != order[j]
    ensures i == at[k]
  {
    if One(hasTry) <= i {
      var l := BlockOf(list, g, order, hasTry, at, |order|, i);
      LabelsInBlock(list, at[l], order[l], g[order[l]], at[l + 1], i);
    }
  }

  // ----- what can be emitted -----

  predicate IsFlag(x: Side) {
    x.known == Some(Bool(true)) || x.known == Some(Bool(false))
  }

  /** Two conditions can be encoded, and a comparison only against a boolean constant. */
  predicate CanEncode(t: Term) {
    && (t.If? || t.IfImmZero? ==> t.cc == EQ || t.cc == NE)
    && (t.If? ==> IsFlag(t.lhs) || IsFlag(t.rhs))
  }

  lemma EncodedExactly(g: Graph, order: seq<nat>)
    requires AllEmittable(g, order)
    ensures AllSupported(g, order, |order|) <==> forall k :: 0 <= k < |order| ==> CanEncode(g[order[k]].term)
  {
    forall t: Term
      ensures Supported(t) <==> CanEncode(t)
    {
    }
  }
}
