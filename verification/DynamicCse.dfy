/** Common-subexpression elimination on SSA graphs and why replacing a duplicate is sound on every run. */
module DynamicCse {
  import opened Options
  import opened SsaGraph
  import opened SsaValues

  /** Value numbers; an instruction without an entry has the invalid value number. */
  type ValueNumbers = map<Pos, nat>

  const VOID: int := 0

  /** The two slots are zero-filled, so the count tells an unused slot from value number 0. */
  datatype ExpressionKey = ExpressionKey(op: Opcode, typ: int, vn0: nat, vn1: nat, count: nat)

  datatype SuperCheckKey = SuperCheckKey(input: Pos, immediate: nat)

  function ExpectedInputCount(op: Opcode): nat {
    match op
    case IsTrue => 1
    case IsFalse => 1
    case StrictEq => 2
    case StrictNotEq => 2
    case _ => 0
  }

  function KeyOf(inst: Inst, vns: ValueNumbers): Option<ExpressionKey> {
    var ds := DataDefs(inst.inputs);
    var n := ExpectedInputCount(inst.op);
    if n == 0 || |ds| != n || !(forall i :: 0 <= i < |ds| ==> ds[i] in vns) then None
    else Some(ExpressionKey(inst.op, inst.typ, vns[ds[0]], if n == 2 then vns[ds[1]] else 0, n))
  }

  function SuperKeyOf(inst: Inst): Option<SuperCheckKey> {
    var ds := DataDefs(inst.inputs);
    if inst.op.ThrowIfSuperNotCorrectCall? && inst.typ == VOID && |inst.op.imms| == 1 && inst.op.imms[0] <= 1
      && |ds| == 1
    then Some(SuperCheckKey(ds[0], inst.op.imms[0]))
    else None
  }

  // ----- what replacing means -----

  function ReplacedDef(x: Pos, c: Pos, p: Pos): Pos {
    if x == c then p else x
  }

  function ReplacedInputs(inputs: seq<Input>, c: Pos, p: Pos): seq<Input> {
    seq(|inputs|, i requires 0 <= i < |inputs| => inputs[i].(def := ReplacedDef(inputs[i].def, c, p)))
  }

  function ReplacedInst(inst: Inst, c: Pos, p: Pos): Inst {
    inst.(inputs := ReplacedInputs(inst.inputs, c, p),
          phi := map s | s in inst.phi :: ReplacedDef(inst.phi[s], c, p))
  }

  function ReplacedBlock(b: Block, c: Pos, p: Pos): Block {
    b.(insts := seq(|b.insts|, i requires 0 <= i < |b.insts| => ReplacedInst(b.insts[i], c, p)))
  }

  /** Every user of `c`, phis included, now uses `p`. */
  function ReplacedUsers(g: Graph, c: Pos, p: Pos): Graph {
    seq(|g|, b requires 0 <= b < |g| => ReplacedBlock(g[b], c, p))
  }

  // ----- well-formed graphs -----

  /** Definitions come before their uses on every run; a phi uses a value where control comes from. */
  ghost predicate UsesDefined(g: Graph, x: Pos)
    requires IsInst(g, x)
  {
    && (forall i :: 0 <= i < |At(g, x).inputs| ==>
          IsInst(g, At(g, x).inputs[i].def) && Precedes(g, At(g, x).inputs[i].def, x))
    && (forall s :: s in At(g, x).phi ==> IsInst(g, At(g, x).phi[s]) && Precedes(g, At(g, x).phi[s], s))
  }

  ghost predicate WellFormed(g: Graph) {
    forall x :: IsInst(g, x) ==> UsesDefined(g, x)
  }

  /** The one hypothesis about value numbering: equal numbers mean equal values wherever both are defined. */
  ghost predicate VnSound(g: Graph, sem: Semantics, vns: ValueNumbers) {
    forall r, x, y :: IsRun(g, r) && x in vns && y in vns && vns[x] == vns[y]
      && Precedes(g, x, Last(r)) && Precedes(g, y, Last(r))
      ==> Get(Exec(g, sem, r).env, x) == Get(Exec(g, sem, r).env, y)
  }

  ghost predicate SameInst(i: Inst, j: Inst) {
    && i.op == j.op && i.typ == j.typ && |i.inputs| == |j.inputs|
    && (forall k :: 0 <= k < |i.inputs| ==> i.inputs[k].data == j.inputs[k].data)
  }

  ghost predicate SameBlock(b: Block, c: Block) {
    && b.succs == c.succs && b.tries == c.tries && b.eh == c.eh && |b.insts| == |c.insts|
    && forall i :: 0 <= i < |b.insts| ==> SameInst(b.insts[i], c.insts[i])
  }

  ghost predicate SameShape(g: Graph, h: Graph) {
    |g| == |h| && forall b :: 0 <= b < |g| ==> SameBlock(g[b], h[b])
  }

  lemma SameShapeSteps(g: Graph, h: Graph, n: Pos, m: Pos)
    requires SameShape(g, h)
    ensures Step(g, n, m) <==> Step(h, n, m)
  {
    assert forall b :: 0 <= b < |g| ==> SameBlock(g[b], h[b]);
    if Throws(g, n, m) {
      var t :| t in g[n.b].tries && t < |g| && m.b in g[t].succs;
      assert t in h[n.b].tries && t < |h| && m.b in h[t].succs;
    }
    if Throws(h, n, m) {
      var t :| t in h[n.b].tries && t < |h| && m.b in h[t].succs;
      assert t in g[n.b].tries && t < |g| && m.b in g[t].succs;
    }
  }

  lemma SameShapeRuns(g: Graph, h: Graph, r: seq<Pos>)
    requires SameShape(g, h)
    ensures IsRun(g, r) <==> IsRun(h, r)
  {
    forall k | 0 <= k < |r| - 1
      ensures Step(g, r[k], r[k + 1]) <==> Step(h, r[k], r[k + 1])
    {
      SameShapeSteps(g, h, r[k], r[k + 1]);
    }
  }

  lemma SameShapePrecedes(g: Graph, h: Graph, x: Pos, n: Pos)
    requires SameShape(g, h)
    ensures Precedes(g, x, n) <==> Precedes(h, x, n)
  {
    forall r
      ensures IsRun(g, r) <==> IsRun(h, r)
    {
      SameShapeRuns(g, h, r);
    }
  }

  lemma ReplacedSameShape(g: Graph, c: Pos, p: Pos)
    ensures SameShape(g, ReplacedUsers(g, c, p))
  {
  }
}
