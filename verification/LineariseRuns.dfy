/** Every run of the emitted list visits the blocks a run of the graph visits, in the same states. */
module LineariseRuns {
  import opened Linearise

  datatype State = State(regs: map<int, Val>, acc: Val)

  /**
   * `exec` is any meaning of the body instructions, `zero` the test of the zero branches, and `truth` the conversion
   * to a boolean that `istrue` and `isfalse` make; `jtrue` and `jfalse` test for the boolean itself.
   */
  datatype Semantics = Semantics(exec: (int, State) -> State, zero: Val -> bool, truth: Val -> bool)

  function Read(s: State, reg: int): Val {
    if reg == ACC_REG then s.acc else if reg in s.regs then s.regs[reg] else Other(0)
  }

  // ----- the graph -----

  function RunBody(sem: Semantics, body: seq<int>, n: nat, s: State): State
    requires n <= |body|
    decreases n
  {
    if n == 0 then s else sem.exec(body[n - 1], RunBody(sem, body, n - 1, s))
  }

  /** What a comparison compares: a constant if it is one, else what its register holds. */
  function ValueOf(s: State, x: Side): Val {
    if KnownBool(x) then x.known.value else Read(s, x.reg)
  }

  predicate Holds(cc: Cond, equal: bool) {
    if cc.EQ? then equal else !equal
  }

  function Successor(sem: Semantics, t: Term, s: State): nat
    requires !t.Return?
  {
    match t
    case Goto(n) => n
    case IfImmZero(cc, reg, onTrue, onFalse) => if Holds(cc, sem.zero(Read(s, reg))) then onTrue else onFalse
    case If(cc, lhs, rhs, onTrue, onFalse) => if Holds(cc, ValueOf(s, lhs) == ValueOf(s, rhs)) then onTrue else onFalse
  }

  datatype Visit = Visit(b: nat, s: State)

  /** One block; after a conditional branch the accumulator may hold anything. */
  predicate GraphStep(g: Graph, sem: Semantics, v: Visit, w: Visit) {
    && v.b < |g| && !g[v.b].term.Return?
    && var s := RunBody(sem, g[v.b].body, |g[v.b].body|, v.s);
       w.b == Successor(sem, g[v.b].term, s) && if g[v.b].term.Goto? then w.s == s else w.s.regs == s.regs
  }

  ghost predicate GraphRun(g: Graph, sem: Semantics, vs: seq<Visit>) {
    forall k :: 0 <= k < |vs| - 1 ==> GraphStep(g, sem, vs[k], vs[k + 1])
  }

  /** A run that begins at `first`. */
  ghost predicate RunOf(g: Graph, sem: Semantics, first: Visit, vs: seq<Visit>) {
    |vs| > 0 && vs[0] == first && GraphRun(g, sem, vs)
  }

  /** The block that is visited may compare what it compares. */
  predicate SoundAt(g: Graph, sem: Semantics, v: Visit) {
    v.b < |g| && Supported(g[v.b].term) ==> Sound(sem, g[v.b].term, RunBody(sem, g[v.b].body, |g[v.b].body|, v.s))
  }

  /** No run of the graph from `first` comes to a comparison that is not sound. */
  ghost predicate SoundRuns(g: Graph, sem: Semantics, first: Visit) {
    forall vs :: RunOf(g, sem, first, vs) ==> SoundAt(g, sem, vs[|vs| - 1])
  }

  // ----- the list -----

  /** Where a jump to block `b` goes. */
  function Target(list: seq<Ins>, b: nat): nat
    decreases |list|
  {
    if list == [] then 0 else if list[0] == Label(b) then 0 else 1 + Target(list[1..], b)
  }

  datatype Conf = Conf(pc: nat, s: State, visits: seq<Visit>, halted: bool)

  function JumpIf(list: seq<Ins>, c: Conf, taken: bool, b: nat): Conf {
    c.(pc := if taken then Target(list, b) else c.pc + 1)
  }

  function Step(sem: Semantics, list: seq<Ins>, c: Conf): Conf {
    if c.halted || c.pc >= |list| then c.(halted := true)
    else
      match list[c.pc]
      case Nop => c.(pc := c.pc + 1)
      case Label(b) => c.(pc := c.pc + 1, visits := c.visits + [Visit(b, c.s)])
      case EndLabel(_) => c.(pc := c.pc + 1)
      case Body(code) => c.(pc := c.pc + 1, s := sem.exec(code, c.s))
      case Ret => c.(halted := true)
      case Lda(reg) => c.(pc := c.pc + 1, s := c.s.(acc := Read(c.s, reg)))
      case Jmp(b) => JumpIf(list, c, true, b)
      case Jeqz(b) => JumpIf(list, c, sem.zero(c.s.acc), b)
      case Jnez(b) => JumpIf(list, c, !sem.zero(c.s.acc), b)
      case Jtrue(b) => JumpIf(list, c, c.s.acc == Bool(true), b)
      case Jfalse(b) => JumpIf(list, c, c.s.acc == Bool(false), b)
      case IsTrue => c.(pc := c.pc + 1, s := c.s.(acc := Bool(sem.truth(c.s.acc))))
      case IsFalse => c.(pc := c.pc + 1, s := c.s.(acc := Bool(!sem.truth(c.s.acc))))
  }

  function Iter(step: Conf -> Conf, c: Conf, n: nat): Conf
    decreases n
  {
    if n == 0 then c else step(Iter(step, c, n - 1))
  }

  lemma {:induction false} IterAdd(step: Conf -> Conf, c: Conf, n: nat, m: nat)
    ensures Iter(step, c, n + m) == Iter(step, Iter(step, c, n), m)
    decreases m
  {
    if m > 0 {
      IterAdd(step, c, n, m - 1);
      assert n + m - 1 == n + (m - 1);
    }
  }

  function StepOf(sem: Semantics, list: seq<Ins>): Conf -> Conf {
    (c: Conf) => Step(sem, list, c)
  }

  function Steps(sem: Semantics, list: seq<Ins>, c: Conf, n: nat): Conf {
    Iter(StepOf(sem, list), c, n)
  }

  lemma StepsAdd(sem: Semantics, list: seq<Ins>, c: Conf, n: nat, m: nat)
    ensures Steps(sem, list, c, n + m) == Steps(sem, list, Steps(sem, list, c, n), m)
  {
    IterAdd(StepOf(sem, list), c, n, m);
  }

  // ----- one block -----

  /** `part` stands in the list at `pc`. */
  predicate StandsAt(list: seq<Ins>, pc: nat, part: seq<Ins>) {
    pc + |part| <= |list| && list[pc..pc + |part|] == part
  }

  predicate InRow(list: seq<Ins>, pc: nat, a: seq<Ins>, b: seq<Ins>, c: seq<Ins>, d: seq<Ins>, end: nat) {
    && StandsAt(list, pc, a) && StandsAt(list, pc + |a|, b) && StandsAt(list, pc + |a| + |b|, c)
    && StandsAt(list, pc + |a| + |b| + |c|, d) && end == pc + |a| + |b| + |c| + |d|
  }

  lemma Parts(list: seq<Ins>, pc: nat, a: seq<Ins>, b: seq<Ins>, c: seq<Ins>, d: seq<Ins>)
    requires StandsAt(list, pc, a + b + c + d)
    ensures InRow(list, pc, a, b, c, d, pc + |a + b + c + d|)
  {
    assert a + b + c + d == a + (b + (c + d));
    TwoParts(list, pc, a, b + (c + d));
    TwoParts(list, pc + |a|, b, c + d);
    TwoParts(list, pc + |a| + |b|, c, d);
  }

  lemma TwoParts(list: seq<Ins>, pc: nat, a: seq<Ins>, b: seq<Ins>)
    requires StandsAt(list, pc, a + b)
    ensures StandsAt(list, pc, a) && StandsAt(list, pc + |a|, b)
  {
    var window := list[pc..pc + |a + b|];
    assert window[..|a|] == a && window[|a|..] == b;
    assert list[pc..pc + |a|] == window[..|a|];
    assert list[pc + |a|..pc + |a| + |b|] == window[|a|..];
  }

  lemma StepsOne(sem: Semantics, list: seq<Ins>, c: Conf)
    ensures Steps(sem, list, c, 1) == Step(sem, list, c)
  {
    assert Steps(sem, list, c, 0) == c;
  }

  lemma StepsTwo(sem: Semantics, list: seq<Ins>, c: Conf)
    ensures Steps(sem, list, c, 2) == Step(sem, list, Step(sem, list, c))
  {
    StepsOne(sem, list, c);
  }

  lemma HeadRuns(sem: Semantics, list: seq<Ins>, c: Conf, b: nat, blk: Block)
    requires !c.halted && StandsAt(list, c.pc, HeadCode(b, blk))
    ensures Steps(sem, list, c, |HeadCode(b, blk)|)
            == c.(pc := c.pc + |HeadCode(b, blk)|, visits := c.visits + [Visit(b, c.s)])
  {
    assert list[c.pc] == list[c.pc..c.pc + |HeadCode(b, blk)|][0];
    StepsOne(sem, list, c);
    if blk.closes {
      assert list[c.pc + 1] == list[c.pc..c.pc + 2][1];
      StepsTwo(sem, list, c);
    }
  }

  lemma {:induction false} BodyRuns(sem: Semantics, list: seq<Ins>, c: Conf, body: seq<int>, n: nat)
    requires !c.halted && StandsAt(list, c.pc, BodyCode(body)) && n <= |body|
    ensures Steps(sem, list, c, n) == c.(pc := c.pc + n, s := RunBody(sem, body, n, c.s))
    decreases n
  {
    if n > 0 {
      BodyRuns(sem, list, c, body, n - 1);
      assert list[c.pc + n - 1] == list[c.pc..c.pc + |body|][n - 1] == Body(body[n - 1]);
    }
  }

  predicate Taken(sem: Semantics, t: Term, s: State) {
    match t
    case IfImmZero(cc, reg, _, _) => Holds(cc, sem.zero(Read(s, reg)))
    case If(cc, lhs, rhs, _, _) => Holds(cc, ValueOf(s, lhs) == ValueOf(s, rhs))
    case _ => false
  }

  /** Of two constants the second is read from its register, so it has to be there, or the same one as the first. */
  predicate SidesOk(t: Term)
    requires t.If?
  {
    KnownBool(t.lhs) && KnownBool(t.rhs) ==> t.rhs.placed || (t.lhs.placed && t.lhs.(placed := false) == t.rhs)
  }

  /** A constant that is placed is in its register. */
  predicate Delivered(x: Side, s: State) {
    KnownBool(x) && x.placed ==> Read(s, x.reg) == x.known.value
  }

  /** Converted to a boolean, a value is `flag` exactly when it is the boolean `flag`. */
  predicate Converts(sem: Semantics, flag: bool, v: Val) {
    sem.truth(v) == flag <==> v == Bool(flag)
  }

  /** Only the test for inequality converts what it compares. */
  predicate Compares(sem: Semantics, t: Term, s: State)
    requires t.If? && Supported(t)
  {
    var (flag, reg) := Compared(t.lhs, t.rhs).value;
    t.cc.EQ? || Converts(sem, flag, Read(s, reg))
  }

  /** What a comparison needs of the state in front of it. */
  predicate Sound(sem: Semantics, t: Term, s: State)
    requires Supported(t)
  {
    t.If? ==> SidesOk(t) && Delivered(t.lhs, s) && Delivered(t.rhs, s) && Compares(sem, t, s)
  }

  /** What the branch leaves: the registers, and control at the true successor or behind the branch. */
  ghost predicate Branched(sem: Semantics, list: seq<Ins>, t: Term, c: Conf, d: Conf)
    requires Supported(t)
  {
    && d.s.regs == c.s.regs && d.visits == c.visits && !d.halted
    && (t.Goto? ==> d.s == c.s)
    && d.pc == if Taken(sem, t, c.s) && !t.Goto? && !t.Return? then Target(list, t.onTrue) else c.pc + |BranchCode(t)|
  }

  lemma LdaRuns(sem: Semantics, list: seq<Ins>, c: Conf, reg: int)
    requires !c.halted && StandsAt(list, c.pc, LdaCode(reg))
    ensures Steps(sem, list, c, |LdaCode(reg)|) == c.(pc := c.pc + |LdaCode(reg)|, s := c.s.(acc := Read(c.s, reg)))
  {
    if reg != ACC_REG {
      assert list[c.pc] == list[c.pc..c.pc + 1][0];
      StepsOne(sem, list, c);
    }
  }

  lemma ZeroBranchRuns(sem: Semantics, list: seq<Ins>, c: Conf, t: Term)
    requires !c.halted && t.IfImmZero? && Supported(t) && StandsAt(list, c.pc, BranchCode(t))
    ensures Branched(sem, list, t, c, Steps(sem, list, c, |BranchCode(t)|))
  {
    var lda := LdaCode(t.reg);
    var jump := if t.cc.EQ? then Jeqz(t.onTrue) else Jnez(t.onTrue);
    Parts(list, c.pc, lda, [jump], [], []);
    assert lda + [jump] + [] + [] == BranchCode(t);
    LdaRuns(sem, list, c, t.reg);
    var d := Steps(sem, list, c, |lda|);
    assert list[d.pc] == list[d.pc..d.pc + 1][0];
    StepsAdd(sem, list, c, |lda|, 1);
    StepsOne(sem, list, d);
  }

  function CompareCode(cc: Cond, flag: bool, onTrue: nat): seq<Ins> {
    if cc.EQ? then [if flag then Jtrue(onTrue) else Jfalse(onTrue)]
    else [if flag then IsTrue else IsFalse, Jfalse(onTrue)]
  }

  /** The emitted test of a value. */
  predicate Passes(sem: Semantics, cc: Cond, flag: bool, v: Val) {
    if cc.EQ? then v == Bool(flag) else sem.truth(v) != flag
  }

  /** The accumulator is compared with a boolean. */
  lemma CompareRuns(sem: Semantics, list: seq<Ins>, c: Conf, cc: Cond, flag: bool, onTrue: nat)
    requires !c.halted && StandsAt(list, c.pc, CompareCode(cc, flag, onTrue))
    ensures var d := Steps(sem, list, c, |CompareCode(cc, flag, onTrue)|);
            && d.s.regs == c.s.regs && d.visits == c.visits && !d.halted
            && d.pc == if Passes(sem, cc, flag, c.s.acc) then Target(list, onTrue)
              else c.pc + |CompareCode(cc, flag, onTrue)|
  {
    assert list[c.pc] == list[c.pc..c.pc + |CompareCode(cc, flag, onTrue)|][0];
    StepsOne(sem, list, c);
    if !cc.EQ? {
      assert list[c.pc + 1] == list[c.pc..c.pc + 2][1];
      StepsTwo(sem, list, c);
    }
  }

  lemma IfRuns(sem: Semantics, list: seq<Ins>, c: Conf, t: Term)
    requires !c.halted && t.If? && Supported(t) && Sound(sem, t, c.s) && StandsAt(list, c.pc, BranchCode(t))
    ensures Branched(sem, list, t, c, Steps(sem, list, c, |BranchCode(t)|))
  {
    var (flag, reg) := Compared(t.lhs, t.rhs).value;
    var lda, cmp := LdaCode(reg), CompareCode(t.cc, flag, t.onTrue);
    Parts(list, c.pc, lda, cmp, [], []);
    assert lda + cmp + [] + [] == BranchCode(t);
    LdaRuns(sem, list, c, reg);
    var d := c.(pc := c.pc + |lda|, s := c.s.(acc := Read(c.s, reg)));
    CompareRuns(sem, list, d, t.cc, flag, t.onTrue);
    StepsJoin(sem, list, c, |lda|, d, |cmp|, Steps(sem, list, d, |cmp|));
    TakenIsCompared(sem, t, c.s);
  }

  lemma TakenIsCompared(sem: Semantics, t: Term, s: State)
    requires t.If? && Supported(t) && Sound(sem, t, s)
    ensures Taken(sem, t, s) <==> Tested(sem, t, s)
  {
  }

  /** The emitted test, at the state in front of the branch. */
  predicate Tested(sem: Semantics, t: Term, s: State)
    requires t.If? && Supported(t)
  {
    var (flag, reg) := Compared(t.lhs, t.rhs).value;
    Passes(sem, t.cc, flag, Read(s, reg))
  }

  predicate TruthOk(sem: Semantics) {
    sem.truth(Bool(true)) && !sem.truth(Bool(false))
  }

  /** The comparison could be anything but the test, though the value tested converts as it should. */
  ghost predicate GoesWrong(sem: Semantics, t: Term, s: State)
    requires t.If? && Supported(t)
  {
    Delivered(t.lhs, s) && Delivered(t.rhs, s) && Compares(sem, t, s) && !(Taken(sem, t, s) <==> Tested(sem, t, s))
  }

  /**
   * With placed constants in their registers, the emitted test agrees with the comparison wherever the value tested
   * converts to a boolean as it should if and only if the second of two constants can be read; then it agrees nowhere
   * else.
   */
  lemma TestIsExact(sem: Semantics, t: Term)
    requires t.If? && Supported(t) && TruthOk(sem)
    ensures (forall s :: !GoesWrong(sem, t, s)) <==> SidesOk(t)
    ensures SidesOk(t) ==> forall s :: Delivered(t.lhs, s) && Delivered(t.rhs, s) ==>
              ((Taken(sem, t, s) <==> Tested(sem, t, s)) <==> Compares(sem, t, s))
  {
    if !SidesOk(t) {
      var first := t.lhs.known.value;
      var v := if first == t.rhs.known.value then Bool(!first.b) else first;
      var regs := map[t.rhs.reg := v];
      var acc := if t.rhs.reg == ACC_REG then v else first;
      var s := State(if t.lhs.placed then regs[t.lhs.reg := first] else regs, acc);
      assert GoesWrong(sem, t, s);
    }
  }

  lemma BranchRuns(sem: Semantics, list: seq<Ins>, c: Conf, t: Term)
    requires !c.halted && !t.Return? && Supported(t) && Sound(sem, t, c.s) && StandsAt(list, c.pc, BranchCode(t))
    ensures Branched(sem, list, t, c, Steps(sem, list, c, |BranchCode(t)|))
  {
    match t
    case Goto(_) =>
    case IfImmZero(_, _, _, _) => ZeroBranchRuns(sem, list, c, t);
    case If(_, _, _, _, _) => IfRuns(sem, list, c, t);
  }

  /** The parts of a block's code stand one behind the other from `start` to `end`. */
  predicate PartsStand(list: seq<Ins>, start: nat, b: nat, blk: Block, end: nat)
    requires Supported(blk.term)
  {
    InRow(list, start, HeadCode(b, blk), BodyCode(blk.body), BranchCode(blk.term), JumpCode(blk), end)
  }

  /** The configuration behind the body of a block. */
  function Behind(sem: Semantics, c: Conf, b: nat, blk: Block): Conf {
    Conf(c.pc + |HeadCode(b, blk)| + |blk.body|, RunBody(sem, blk.body, |blk.body|, c.s),
         c.visits + [Visit(b, c.s)], false)
  }

  lemma HeadAndBodyRun(sem: Semantics, list: seq<Ins>, c: Conf, b: nat, blk: Block)
    requires !c.halted && StandsAt(list, c.pc, HeadCode(b, blk))
    requires StandsAt(list, c.pc + |HeadCode(b, blk)|, BodyCode(blk.body))
    ensures Steps(sem, list, c, |HeadCode(b, blk)| + |blk.body|) == Behind(sem, c, b, blk)
  {
    HeadRuns(sem, list, c, b, blk);
    BodyRuns(sem, list, Steps(sem, list, c, |HeadCode(b, blk)|), blk.body, |blk.body|);
    StepsAdd(sem, list, c, |HeadCode(b, blk)|, |blk.body|);
  }

  lemma JumpRuns(sem: Semantics, list: seq<Ins>, c: Conf, blk: Block)
    requires !c.halted && !blk.term.Return? && StandsAt(list, c.pc, JumpCode(blk))
    ensures Steps(sem, list, c, |JumpCode(blk)|)
            == c.(pc := if blk.needsJump then Target(list, FallThrough(blk.term)) else c.pc)
  {
    if blk.needsJump {
      assert list[c.pc] == list[c.pc..c.pc + 1][0];
      StepsOne(sem, list, c);
    }
  }

  /** Where control is after the branch and the jump of a block, given the state behind its body. */
  function Exit(sem: Semantics, list: seq<Ins>, blk: Block, s: State, end: nat): nat
    requires !blk.term.Return?
  {
    if Taken(sem, blk.term, s) then (if blk.term.Goto? then end else Target(list, blk.term.onTrue))
    else if blk.needsJump then Target(list, FallThrough(blk.term)) else end
  }

  predicate Exited(sem: Semantics, list: seq<Ins>, blk: Block, c: Conf, d: Conf, end: nat)
    requires !blk.term.Return?
  {
    && d.s.regs == c.s.regs && (blk.term.Goto? ==> d.s == c.s) && d.visits == c.visits && !d.halted
    && d.pc == Exit(sem, list, blk, c.s, end)
  }

  lemma BranchAndJumpRun(sem: Semantics, list: seq<Ins>, c: Conf, blk: Block, end: nat) returns (n: nat, d: Conf)
    requires !c.halted && Supported(blk.term) && Sound(sem, blk.term, c.s) && !blk.term.Return?
    requires StandsAt(list, c.pc, BranchCode(blk.term)) && StandsAt(list, c.pc + |BranchCode(blk.term)|, JumpCode(blk))
    requires end == c.pc + |BranchCode(blk.term)| + |JumpCode(blk)|
    ensures d == Steps(sem, list, c, n) && Exited(sem, list, blk, c, d, end)
  {
    n, d := BranchPart(sem, list, c, blk.term);
    if !Taken(sem, blk.term, c.s) {
      var e := d.(pc := if blk.needsJump then Target(list, FallThrough(blk.term)) else d.pc);
      JumpRuns(sem, list, d, blk);
      StepsJoin(sem, list, c, n, d, |JumpCode(blk)|, e);
      n, d := n + |JumpCode(blk)|, e;
    }
  }

  lemma BranchPart(sem: Semantics, list: seq<Ins>, c: Conf, t: Term) returns (n: nat, d: Conf)
    requires !c.halted && !t.Return? && Supported(t) && Sound(sem, t, c.s) && StandsAt(list, c.pc, BranchCode(t))
    ensures d == Steps(sem, list, c, n) && Branched(sem, list, t, c, d)
  {
    n := |BranchCode(t)|;
    BranchRuns(sem, list, c, t);
    d := Steps(sem, list, c, n);
  }

  lemma StepsJoin(sem: Semantics, list: seq<Ins>, c: Conf, n1: nat, c1: Conf, n2: nat, d: Conf)
    requires Steps(sem, list, c, n1) == c1 && Steps(sem, list, c1, n2) == d
    ensures Steps(sem, list, c, n1 + n2) == d
  {
    StepsAdd(sem, list, c, n1, n2);
  }

  lemma TailRuns(sem: Semantics, list: seq<Ins>, start: nat, b: nat, blk: Block, end: nat, mid: Conf)
    returns (n: nat, d: Conf)
    requires Supported(blk.term) && Sound(sem, blk.term, mid.s) && !blk.term.Return?
    requires PartsStand(list, start, b, blk, end)
    requires !mid.halted && mid.pc == start + |HeadCode(b, blk)| + |blk.body|
    ensures d == Steps(sem, list, mid, n) && Exited(sem, list, blk, mid, d, end)
  {
    n, d := BranchAndJumpRun(sem, list, mid, blk, end);
  }

  lemma FrontRuns(sem: Semantics, list: seq<Ins>, c: Conf, b: nat, blk: Block, end: nat) returns (n: nat)
    requires !c.halted && Supported(blk.term) && PartsStand(list, c.pc, b, blk, end)
    ensures n > 0 && Steps(sem, list, c, n) == Behind(sem, c, b, blk)
  {
    n := |HeadCode(b, blk)| + |blk.body|;
    HeadAndBodyRun(sem, list, c, b, blk);
  }

  /** The whole block: from its label to the exit that its branch chooses. */
  lemma WholeBlockRuns(sem: Semantics, list: seq<Ins>, c: Conf, b: nat, blk: Block, end: nat) returns (n: nat, d: Conf)
    requires !c.halted && Supported(blk.term) && Sound(sem, blk.term, Behind(sem, c, b, blk).s) && !blk.term.Return?
    requires PartsStand(list, c.pc, b, blk, end)
    ensures n > 0 && d == Steps(sem, list, c, n) && Exited(sem, list, blk, Behind(sem, c, b, blk), d, end)
  {
    var n1 := FrontRuns(sem, list, c, b, blk, end);
    var n2;
    n2, d := TailRuns(sem, list, c.pc, b, blk, end, Behind(sem, c, b, blk));
    StepsJoin(sem, list, c, n1, Behind(sem, c, b, blk), n2, d);
    n := n1 + n2;
  }

  lemma ReturnRuns(sem: Semantics, list: seq<Ins>, c: Conf, b: nat, blk: Block, end: nat) returns (n: nat)
    requires !c.halted && blk.term.Return? && PartsStand(list, c.pc, b, blk, end)
    ensures n > 0
    ensures var d := Steps(sem, list, c, n); d.halted && d.visits == c.visits + [Visit(b, c.s)]
  {
    var n1 := FrontRuns(sem, list, c, b, blk, end);
    var d := Behind(sem, c, b, blk);
    RetRuns(sem, list, d);
    StepsJoin(sem, list, c, n1, d, 1, d.(halted := true));
    n := n1 + 1;
  }

  lemma RetRuns(sem: Semantics, list: seq<Ins>, d: Conf)
    requires !d.halted && StandsAt(list, d.pc, [Ret])
    ensures Steps(sem, list, d, 1) == d.(halted := true)
  {
    assert list[d.pc] == list[d.pc..d.pc + 1][0];
    StepsOne(sem, list, d);
  }
}
