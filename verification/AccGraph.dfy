/**
 * Control-flow graphs as the accumulator pass sees them: which instructions read or write the accumulator, and
 * the linear stretches of code (one successor, one predecessor) along which it may be kept.
 */
module AccGraph {
  /** Instruction `i` of block `b`; `i` one past the last instruction is the end of the block. */
  datatype Pos = Pos(b: nat, i: nat)

  datatype Inst = Inst(
    isConst: bool, saveState: bool, accRead: bool, accWrite: bool, noDest: bool, intrinsic: bool, inputs: seq<Pos>)

  datatype Block = Block(insts: seq<Inst>, succs: seq<nat>, preds: seq<nat>)

  /** Blocks are numbered in reverse post-order; block 0 is the entry. */
  type Graph = seq<Block>

  predicate IsInst(g: Graph, p: Pos) {
    p.b < |g| && p.i < |g[p.b].insts|
  }

  predicate IsNode(g: Graph, p: Pos) {
    p.b < |g| && p.i <= |g[p.b].insts|
  }

  function At(g: Graph, p: Pos): Inst
    requires IsInst(g, p)
  {
    g[p.b].insts[p.i]
  }

  predicate IsEnd(g: Graph, p: Pos) {
    p.b < |g| && p.i == |g[p.b].insts|
  }

  function Next(p: Pos): Pos {
    Pos(p.b, p.i + 1)
  }

  predicate Less(p: Pos, q: Pos) {
    p.b < q.b || (p.b == q.b && p.i < q.i)
  }

  /** The input that is loaded into the accumulator: of an intrinsic, the one before its SaveState. */
  function AccReadIndex(inst: Inst): int {
    if inst.intrinsic && inst.accRead then |inst.inputs| - 2 else 0
  }

  predicate InstOk(g: Graph, p: Pos)
    requires IsInst(g, p)
  {
    var inst := At(g, p);
    && (inst.isConst ==> inst.inputs == [] && !inst.saveState && !inst.noDest)
    && (inst.saveState ==> !inst.accRead && !inst.accWrite)
    && (inst.accRead ==> 0 <= AccReadIndex(inst) < |inst.inputs|)
    && forall k :: 0 <= k < |inst.inputs| ==> IsInst(g, inst.inputs[k]) && Less(inst.inputs[k], p)
  }

  /** Edges agree, the entry has no predecessor, and what reverse post-order and dominance give about numbering. */
  ghost predicate GraphOk(g: Graph) {
    && |g| > 0 && g[0].preds == []
    && (forall a, c :: 0 <= a < |g| && 0 <= c < |g| && c in g[a].succs ==> a in g[c].preds)
    && (forall a, c :: 0 <= a < |g| && c in g[a].succs ==> c < |g|)
    && (forall c :: 0 <= c < |g| && |g[c].preds| == 1 ==> g[c].preds[0] < c)
    && (forall p :: IsInst(g, p) ==> InstOk(g, p))
  }

  function AccInput(g: Graph, p: Pos): Pos
    requires IsInst(g, p) && InstOk(g, p) && At(g, p).inputs != []
  {
    At(g, p).inputs[AccReadIndex(At(g, p))]
  }

  predicate Touches(inst: Inst) {
    inst.isConst || inst.accWrite || inst.accRead
  }

  predicate Produces(inst: Inst) {
    (inst.isConst || inst.accWrite) && !inst.noDest
  }

  predicate IsUser(g: Graph, x: Pos, u: Pos) {
    IsInst(g, u) && x in At(g, u).inputs
  }

  // ----- linear stretches -----

  /** The only way on from `p`, and the only way to get to `q`. */
  predicate LinearStep(g: Graph, p: Pos, q: Pos) {
    && IsNode(g, p) && IsNode(g, q)
    && if IsInst(g, p) then q == Next(p)
       else |g[p.b].succs| == 1 && q == Pos(g[p.b].succs[0], 0) && |g[q.b].preds| == 1
  }

  ghost predicate Linear(g: Graph, path: seq<Pos>) {
    forall k :: 0 <= k < |path| - 1 ==> LinearStep(g, path[k], path[k + 1])
  }

  ghost predicate From(g: Graph, path: seq<Pos>, x: Pos, u: Pos) {
    |path| >= 2 && path[0] == x && path[|path| - 1] == u && Linear(g, path)
  }

  /** Nothing strictly between `x` and `u` touches the accumulator. */
  ghost predicate CleanPath(g: Graph, path: seq<Pos>, x: Pos, u: Pos) {
    && From(g, path, x, u)
    && forall k :: 0 < k < |path| - 1 && IsInst(g, path[k]) ==> !Touches(At(g, path[k]))
  }

  ghost predicate Clean(g: Graph, x: Pos, u: Pos) {
    exists path :: CleanPath(g, path, x, u)
  }

  lemma StepGrows(g: Graph, p: Pos, q: Pos)
    requires GraphOk(g) && LinearStep(g, p, q)
    ensures Less(p, q)
  {
    if !IsInst(g, p) {
      assert q.b in g[p.b].succs;
      assert p.b in g[q.b].preds;
    }
  }

  lemma {:induction false} LinearGrows(g: Graph, path: seq<Pos>, j: nat, k: nat)
    requires GraphOk(g) && Linear(g, path) && j < k < |path|
    ensures Less(path[j], path[k])
    decreases k
  {
    StepGrows(g, path[k - 1], path[k]);
    if j < k - 1 { LinearGrows(g, path, j, k - 1); }
  }

  lemma StepBack(g: Graph, p: Pos, q: Pos, c: Pos)
    requires GraphOk(g) && LinearStep(g, p, c) && LinearStep(g, q, c)
    ensures p == q
  {
    if c.i == 0 {
      assert c.b in g[p.b].succs && c.b in g[q.b].succs;
      assert p.b in g[c.b].preds && q.b in g[c.b].preds;
    }
  }

  /** Two linear stretches with the same end agree backwards. */
  lemma {:induction false} SameBack(g: Graph, p: seq<Pos>, q: seq<Pos>, k: nat)
    requires GraphOk(g) && Linear(g, p) && Linear(g, q) && k < |p| && k < |q| && p[|p| - 1] == q[|q| - 1]
    ensures p[|p| - 1 - k] == q[|q| - 1 - k]
    decreases k
  {
    if k > 0 {
      SameBack(g, p, q, k - 1);
      assert LinearStep(g, p[|p| - 1 - k], p[|p| - 1 - k + 1]);
      assert LinearStep(g, q[|q| - 1 - k], q[|q| - 1 - k + 1]);
      StepBack(g, p[|p| - 1 - k], q[|q| - 1 - k], p[|p| - k]);
    }
  }

  /** Two linear stretches with the same start agree forwards. */
  lemma {:induction false} SameForward(g: Graph, p: seq<Pos>, q: seq<Pos>, k: nat)
    requires Linear(g, p) && Linear(g, q) && k < |p| && k < |q| && p[0] == q[0]
    ensures p[k] == q[k]
    decreases k
  {
    if k > 0 {
      SameForward(g, p, q, k - 1);
      assert LinearStep(g, p[k - 1], p[k - 1 + 1]) && LinearStep(g, q[k - 1], q[k - 1 + 1]);
    }
  }

  // ----- marks -----

  /**
   * `dst`: instructions whose result stays in the accumulator. `src`: instructions whose accumulator operand needs
   * no load. `cleared`: constants that lost their ACC_WRITE flag.
   */
  datatype Marks = Marks(dst: set<Pos>, src: set<Pos>, cleared: set<Pos>)

  predicate WritesAcc(g: Graph, m: Marks, x: Pos)
    requires IsInst(g, x)
  {
    At(g, x).accWrite || (At(g, x).isConst && x !in m.cleared)
  }

  predicate ReadsOnce(inst: Inst, x: Pos) {
    && inst.accRead && 0 <= AccReadIndex(inst) < |inst.inputs|
    && forall k :: 0 <= k < |inst.inputs| ==> (inst.inputs[k] == x <==> k == AccReadIndex(inst))
  }

  /** All uses of a value kept in the accumulator read it there, with nothing in between. */
  ghost predicate DstSound(g: Graph, x: Pos) {
    && IsInst(g, x) && Produces(At(g, x))
    && forall u :: IsUser(g, x, u) && !At(g, u).saveState ==> ReadsOnce(At(g, u), x) && Clean(g, x, u)
  }

  ghost predicate SrcSound(g: Graph, u: Pos) {
    && IsInst(g, u) && InstOk(g, u) && At(g, u).accRead
    && IsInst(g, AccInput(g, u)) && Produces(At(g, AccInput(g, u))) && Clean(g, AccInput(g, u), u)
  }

  ghost predicate Sound(g: Graph, m: Marks) {
    && (forall x :: x in m.dst ==> DstSound(g, x))
    && (forall u :: u in m.src ==> SrcSound(g, u))
  }

  /** Everything marked or cleared so far lies before `p`. */
  ghost predicate UpTo(g: Graph, m: Marks, p: Pos) {
    (forall x :: x in m.dst ==> Less(x, p)) && (forall x :: x in m.cleared ==> Less(x, p))
  }

  // ----- what the scan between two instructions accepts -----

  predicate Calm(g: Graph, m: Marks, x: Pos)
    requires IsInst(g, x) && InstOk(g, x)
  {
    !WritesAcc(g, m, x) && (At(g, x).accRead ==> AccInput(g, x) in m.dst)
  }

  ghost predicate CalmPath(g: Graph, m: Marks, path: seq<Pos>, x: Pos, u: Pos) {
    && From(g, path, x, u)
    && forall k :: 0 < k < |path| - 1 && IsInst(g, path[k]) ==> InstOk(g, path[k]) && Calm(g, m, path[k])
  }

  ghost predicate CalmBetween(g: Graph, m: Marks, x: Pos, u: Pos) {
    exists path :: CalmPath(g, m, path, x, u)
  }

  /**
   * What the scan accepts while `x` is being marked touches the accumulator nowhere in between: later constants
   * still have their flag, and an accumulator reader in between would have to read something marked across `x`.
   */
  lemma {:induction false} CalmIsClean(g: Graph, m: Marks, path: seq<Pos>, x: Pos, u: Pos, n: nat)
    requires GraphOk(g) && Sound(g, m) && UpTo(g, m, x) && IsInst(g, x) && Produces(At(g, x))
    requires CalmPath(g, m, path, x, u) && n < |path|
    ensures forall k :: 0 < k < n && IsInst(g, path[k]) ==> !Touches(At(g, path[k]))
    decreases n
  {
    if n > 1 {
      CalmIsClean(g, m, path, x, u, n - 1);
      var y := path[n - 1];
      LinearGrows(g, path, 0, n - 1);
      if IsInst(g, y) && At(g, y).accRead { NoReader(g, m, path, x, u, n - 1); }
    }
  }

  lemma NoReader(g: Graph, m: Marks, path: seq<Pos>, x: Pos, u: Pos, n: nat)
    requires GraphOk(g) && Sound(g, m) && UpTo(g, m, x) && IsInst(g, x) && Produces(At(g, x))
    requires CalmPath(g, m, path, x, u) && 0 < n < |path| - 1 && IsInst(g, path[n])
    ensures !At(g, path[n]).accRead
  {
    var y := path[n];
    if At(g, y).accRead {
      var z := AccInput(g, y);
      assert DstSound(g, z) && IsUser(g, z, y);
      assert Clean(g, z, y);
      var other :| CleanPath(g, other, z, y);
      assert Less(z, x);
      Crossing(g, path[..n + 1], other, x, z, y);
    }
  }

  /** A clean stretch that ends where another one ends cannot begin before it. */
  lemma Crossing(g: Graph, path: seq<Pos>, other: seq<Pos>, x: Pos, z: Pos, y: Pos)
    requires GraphOk(g) && IsInst(g, x) && Produces(At(g, x))
    requires From(g, path, x, y) && CleanPath(g, other, z, y)
    ensures !Less(z, x)
  {
    if |other| <= |path| {
      SameBack(g, path, other, |other| - 1);
      assert z == path[|path| - |other|];
      if |other| < |path| { LinearGrows(g, path, 0, |path| - |other|); }
    } else {
      SameBack(g, path, other, |path| - 1);
    }
  }
}
