/** Code generation: a control-flow graph in block order becomes one list with labels, branches and jumps. */
module Linearise {
  import opened Options

  const ACC_REG: int := 254

  datatype Val = Int(n: int) | Bool(b: bool) | Other(id: int)

  datatype Cond = EQ | NE | Unsupported

  /**
   * An operand of a comparison: a register, and the constant it stands for if the code generator knows one. A boolean
   * constant is `placed` in its register only if something else than a comparison uses it.
   */
  datatype Side = Side(known: Option<Val>, reg: int, placed: bool)

  datatype Term =
    | Goto(next: nat)
    | Return
    | IfImmZero(cc: Cond, reg: int, onTrue: nat, onFalse: nat)
    | If(cc: Cond, lhs: Side, rhs: Side, onTrue: nat, onFalse: nat)

  /** `closes` is set on the last block of a try or catch region. */
  datatype Block = Block(body: seq<int>, term: Term, closes: bool, needsJump: bool)

  type Graph = seq<Block>

  datatype Ins =
    | Nop
    | Label(b: nat)
    | EndLabel(b: nat)
    | Body(code: int)
    | Ret
    | Lda(reg: int)
    | Jmp(b: nat)
    | Jeqz(b: nat)
    | Jnez(b: nat)
    | Jtrue(b: nat)
    | Jfalse(b: nat)
    | IsTrue
    | IsFalse

  // ----- what is emitted -----

  function LdaCode(reg: int): seq<Ins> {
    if reg != ACC_REG then [Lda(reg)] else []
  }

  predicate KnownBool(x: Side) {
    x.known.Some? && x.known.value.Bool?
  }

  /** The boolean compared against and the register compared with it. */
  function Compared(lhs: Side, rhs: Side): Option<(bool, int)> {
    if KnownBool(lhs) then Some((lhs.known.value.b, rhs.reg))
    else if KnownBool(rhs) then Some((rhs.known.value.b, lhs.reg))
    else None
  }

  predicate Supported(t: Term) {
    match t
    case IfImmZero(cc, _, _, _) => !cc.Unsupported?
    case If(cc, lhs, rhs, _, _) => !cc.Unsupported? && Compared(lhs, rhs).Some?
    case _ => true
  }

  function BranchCode(t: Term): seq<Ins>
    requires Supported(t)
  {
    match t
    case Goto(_) => []
    case Return => [Ret]
    case IfImmZero(cc, reg, onTrue, _) => LdaCode(reg) + [if cc.EQ? then Jeqz(onTrue) else Jnez(onTrue)]
    case If(cc, lhs, rhs, onTrue, _) =>
      var (flag, reg) := Compared(lhs, rhs).value;
      LdaCode(reg) +
      if cc.EQ? then [if flag then Jtrue(onTrue) else Jfalse(onTrue)]
      else [if flag then IsTrue else IsFalse, Jfalse(onTrue)]
  }

  /** Where control goes when the branch is not taken. */
  function FallThrough(t: Term): nat
    requires !t.Return?
  {
    if t.Goto? then t.next else t.onFalse
  }

  function JumpCode(blk: Block): seq<Ins> {
    if blk.needsJump && !blk.term.Return? then [Jmp(FallThrough(blk.term))] else []
  }

  function BodyCode(body: seq<int>): (code: seq<Ins>)
    ensures |code| == |body| && forall i :: 0 <= i < |body| ==> code[i] == Body(body[i])
  {
    seq(|body|, i requires 0 <= i < |body| => Body(body[i]))
  }

  function HeadCode(b: nat, blk: Block): seq<Ins> {
    [Label(b)] + if blk.closes then [EndLabel(b)] else []
  }

  function BlockCode(g: Graph, b: nat): seq<Ins>
    requires b < |g| && Supported(g[b].term)
  {
    HeadCode(b, g[b]) + BodyCode(g[b].body) + BranchCode(g[b].term) + JumpCode(g[b])
  }

  ghost predicate GraphOk(g: Graph, order: seq<nat>) {
    && |order| > 0 && InRange(g, order)
    && (forall j, k :: 0 <= j < k < |order| ==> order[j] != order[k])
    && forall k :: 0 <= k < |order| ==> BlockOk(g, order, k)
  }

  /** Successors are laid out too, and a return needs no jump. */
  ghost predicate BlockOk(g: Graph, order: seq<nat>, k: nat)
    requires k < |order| && order[k] < |g|
  {
    var blk := g[order[k]];
    match blk.term
    case Return => !blk.needsJump
    case Goto(n) => n in order
    case IfImmZero(_, _, t, f) => t in order && f in order
    case If(_, _, _, t, f) => t in order && f in order
  }

  /** A block that does not jump is followed by the block it falls through to. */
  ghost predicate JumpsOk(g: Graph, order: seq<nat>)
    requires GraphOk(g, order)
  {
    forall k :: 0 <= k < |order| ==> FallsRight(g, order, k)
  }

  ghost predicate FallsRight(g: Graph, order: seq<nat>, k: nat)
    requires k < |order| && order[k] < |g|
  {
    g[order[k]].needsJump || g[order[k]].term.Return? ||
    (k + 1 < |order| && order[k + 1] == FallThrough(g[order[k]].term))
  }

  ghost predicate AllSupported(g: Graph, order: seq<nat>, n: nat)
    requires n <= |order| && InRange(g, order)
  {
    forall k :: 0 <= k < n ==> Supported(g[order[k]].term)
  }

  function Prologue(hasTry: bool): seq<Ins> {
    if hasTry then [Nop] else []
  }

  /** The pieces one behind the other, the first `n` of them. */
  function Concat(codes: seq<seq<Ins>>, n: nat): seq<Ins>
    requires n <= |codes|
    decreases n
  {
    if n == 0 then [] else Concat(codes, n - 1) + codes[n - 1]
  }

  ghost predicate InRange(g: Graph, order: seq<nat>) {
    forall k :: 0 <= k < |order| ==> order[k] < |g|
  }

  /** The code of every block, in order; a block that cannot be encoded has none. */
  ghost function BlockCodes(g: Graph, order: seq<nat>): (codes: seq<seq<Ins>>)
    requires InRange(g, order)
    ensures |codes| == |order|
  {
    seq(|order|, k requires 0 <= k < |order| => if Supported(g[order[k]].term) then BlockCode(g, order[k]) else [])
  }

  /** The code of the first `n` blocks. */
  ghost function Code(g: Graph, order: seq<nat>, hasTry: bool, n: nat): seq<Ins>
    requires n <= |order| && InRange(g, order)
  {
    Prologue(hasTry) + Concat(BlockCodes(g, order), n)
  }

  /** A zero test has one of the two conditions, and a block that returns is not followed by a jump. */
  predicate Emittable(g: Graph, b: nat) {
    && b < |g| && (g[b].term.IfImmZero? ==> Supported(g[b].term))
    && (g[b].term.Return? ==> !g[b].needsJump)
  }

  ghost predicate AllEmittable(g: Graph, order: seq<nat>) {
    InRange(g, order) && forall k :: 0 <= k < |order| ==> Emittable(g, order[k])
  }

  lemma BlockCodeAt(g: Graph, order: seq<nat>, k: nat)
    requires k < |order| && InRange(g, order) && Supported(g[order[k]].term)
    ensures BlockCodes(g, order)[k] == BlockCode(g, order[k])
  {
  }

  lemma ConcatStep(pro: seq<Ins>, codes: seq<seq<Ins>>, k: nat, own: seq<Ins>)
    requires k < |codes| && codes[k] == own
    ensures pro + Concat(codes, k + 1) == pro + Concat(codes, k) + own
  {
  }

  lemma CodeStep(g: Graph, order: seq<nat>, hasTry: bool, k: nat)
    requires k < |order| && InRange(g, order) && Supported(g[order[k]].term)
    ensures Code(g, order, hasTry, k + 1) == Code(g, order, hasTry, k) + BlockCode(g, order[k])
  {
    BlockCodeAt(g, order, k);
    ConcatStep(Prologue(hasTry), BlockCodes(g, order), k, BlockCode(g, order[k]));
  }

  lemma Joined(r: seq<Ins>, a: seq<Ins>, b: seq<Ins>, c: seq<Ins>, d: seq<Ins>)
    ensures r + a + b + c + d == r + (a + b + c + d)
  {
  }

  // ----- the generator -----

  class BytecodeGen {
    const g: Graph
    var result: seq<Ins>
    var success: bool

    constructor (g: Graph)
      ensures this.g == g && result == [] && success
    {
      this.g := g;
      result, success := [], true;
    }

    method DoLda(reg: int)
      modifies this`result
      ensures result == old(result) + LdaCode(reg)
    {
      if reg != ACC_REG { result := result + [Lda(reg)]; }
    }

    method VisitIfImmZero(t: Term)
      requires t.IfImmZero? && Supported(t)
      modifies this`result
      ensures result == old(result) + BranchCode(t)
    {
      DoLda(t.reg);
      if t.cc.EQ? { result := result + [Jeqz(t.onTrue)]; } else { result := result + [Jnez(t.onTrue)]; }
    }

    method IfEcma(t: Term)
      requires t.If?
      modifies this`result, this`success
      ensures success == (old(success) && Supported(t))
      ensures Supported(t) ==> result == old(result) + BranchCode(t)
    {
      var flag, reg;
      if KnownBool(t.lhs) {
        flag, reg := t.lhs.known.value.b, t.rhs.reg;
      } else if KnownBool(t.rhs) {
        flag, reg := t.rhs.known.value.b, t.lhs.reg;
      } else {
        success := false;
        return;
      }
      DoLda(reg);
      if t.cc.EQ? {
        result := result + [if flag then Jtrue(t.onTrue) else Jfalse(t.onTrue)];
      } else if t.cc.NE? {
        result := result + [if flag then IsTrue else IsFalse];
        result := result + [Jfalse(t.onTrue)];
      } else {
        success := false;
      }
    }

    method EmitJump(b: nat)
      requires b < |g| && !g[b].term.Return?
      modifies this`result
      ensures result == old(result) + [Jmp(FallThrough(g[b].term))]
    {
      var target := if g[b].term.Goto? then g[b].term.next else g[b].term.onFalse;
      result := result + [Jmp(target)];
    }

    method VisitTerm(t: Term)
      requires t.IfImmZero? ==> Supported(t)
      modifies this`result, this`success
      ensures success == (old(success) && Supported(t))
      ensures Supported(t) ==> result == old(result) + BranchCode(t)
    {
      match t
      case Goto(_) =>
      case Return => result := result + [Ret];
      case IfImmZero(_, _, _, _) => VisitIfImmZero(t);
      case If(_, _, _, _, _) => IfEcma(t);
    }

    method EmitHead(b: nat)
      requires b < |g|
      modifies this`result
      ensures result == old(result) + HeadCode(b, g[b])
    {
      result := result + [Label(b)];
      if g[b].closes { result := result + [EndLabel(b)]; }
    }

    method EmitBody(body: seq<int>)
      modifies this`result
      ensures result == old(result) + BodyCode(body)
    {
      for i := 0 to |body|
        invariant result == old(result) + BodyCode(body)[..i]
      {
        result := result + [Body(body[i])];
      }
    }

    /** A comparison the generator cannot encode stops it; a zero test always has one of the two conditions. */
    method EmitBlock(b: nat)
      requires success && Emittable(g, b)
      modifies this`result, this`success
      ensures success == Supported(g[b].term)
      ensures success ==> result == old(result) + BlockCode(g, b)
    {
      EmitHead(b);
      EmitBody(g[b].body);
      VisitTerm(g[b].term);
      if !success {
        return;
      }
      if g[b].needsJump { EmitJump(b); }
      ghost var t := g[b].term;
      Joined(old(result), HeadCode(b, g[b]), BodyCode(g[b].body), BranchCode(t), JumpCode(g[b]));
    }

    /** The list holds the blocks in order exactly when every comparison could be encoded. */
    method RunImpl(order: seq<nat>, hasTry: bool) returns (ok: bool)
      requires AllEmittable(g, order)
      modifies this
      ensures ok <==> AllSupported(g, order, |order|)
      ensures ok ==> result == Code(g, order, hasTry, |order|)
    {
      EmitPrologue(order, hasTry);
      for k := 0 to |order|
        invariant EmittedTo(order, hasTry, k)
      {
        var more := EmitNext(order, hasTry, k);
        if !more {
          return false;
        }
      }
      return true;
    }

    /** The first `k` blocks could be encoded and are in the list. */
    ghost predicate EmittedTo(order: seq<nat>, hasTry: bool, k: nat)
      requires AllEmittable(g, order) && k <= |order|
      reads this
    {
      success && AllSupported(g, order, k) && result == Code(g, order, hasTry, k)
    }

    method EmitPrologue(order: seq<nat>, hasTry: bool)
      requires AllEmittable(g, order)
      modifies this
      ensures EmittedTo(order, hasTry, 0)
    {
      result, success := [], true;
      if hasTry { result := result + [Nop]; }
    }

    method EmitNext(order: seq<nat>, hasTry: bool, k: nat) returns (more: bool)
      requires AllEmittable(g, order) && k < |order| && EmittedTo(order, hasTry, k)
      modifies this`result, this`success
      ensures if more then EmittedTo(order, hasTry, k + 1) else !AllSupported(g, order, |order|)
    {
      assert Emittable(g, order[k]);
      EmitBlock(order[k]);
      more := success;
      if success { CodeStep(g, order, hasTry, k); }
    }
  }
}
