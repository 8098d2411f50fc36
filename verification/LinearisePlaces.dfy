/** Where the code of each block stands in the emitted list. */
module LinearisePlaces {
  import opened Linearise
  import opened LineariseRuns
  import opened LineariseSim

  datatype Unit = Unit(g: Graph, order: seq<nat>, hasTry: bool)

  /** Everything can be encoded and blocks fall through only to where they should. */
  ghost predicate UnitOk(u: Unit) {
    GraphOk(u.g, u.order) && AllSupported(u.g, u.order, |u.order|) && JumpsOk(u.g, u.order)
  }

  ghost function Codes(u: Unit): (codes: seq<seq<Ins>>)
    requires UnitOk(u)
    ensures |codes| == |u.order|
  {
    BlockCodes(u.g, u.order)
  }

  lemma CodeOf(u: Unit, k: nat)
    requires UnitOk(u) && k < |u.order|
    ensures Codes(u)[k] == BlockCode(u.g, u.order[k])
  {
  }

  /** The list that is emitted. */
  ghost function List(u: Unit): seq<Ins>
    requires UnitOk(u)
  {
    Prologue(u.hasTry) + Concat(Codes(u), |Codes(u)|)
  }

  ghost function Start(u: Unit, k: nat): nat
    requires UnitOk(u) && k <= |u.order|
  {
    |Prologue(u.hasTry)| + |Concat(Codes(u), k)|
  }

  lemma {:induction false} ConcatPrefix(codes: seq<seq<Ins>>, k: nat, n: nat)
    requires k <= n <= |codes|
    ensures Concat(codes, k) <= Concat(codes, n)
    decreases n
  {
    if k < n {
      ConcatPrefix(codes, k, n - 1);
      assert Concat(codes, k) <= Concat(codes, n - 1) + codes[n - 1];
    }
  }

  /** Piece `k` sits between its start and the next one. */
  lemma PieceAt(pro: seq<Ins>, codes: seq<seq<Ins>>, k: nat)
    requires k < |codes|
    ensures var list, start := pro + Concat(codes, |codes|), |pro| + |Concat(codes, k)|;
            |pro| + |Concat(codes, k + 1)| == start + |codes[k]| <= |list| && StandsAt(list, start, codes[k])
  {
    ConcatPrefix(codes, k + 1, |codes|);
    Middle(pro + Concat(codes, k), codes[k], pro + Concat(codes, |codes|));
  }

  lemma Middle(a: seq<Ins>, b: seq<Ins>, list: seq<Ins>)
    requires a + b <= list
    ensures |a + b| == |a| + |b| <= |list| && list[|a|..|a| + |b|] == b
  {
  }

  lemma BlockParts(list: seq<Ins>, pc: nat, code: seq<Ins>, g: Graph, b: nat)
    requires b < |g| && Supported(g[b].term) && code == BlockCode(g, b) && StandsAt(list, pc, code)
    ensures PartsStand(list, pc, b, g[b], pc + |code|)
  {
    Parts(list, pc, HeadCode(b, g[b]), BodyCode(g[b].body), BranchCode(g[b].term), JumpCode(g[b]));
  }

  lemma OneLabel(g: Graph, b: nat, i: nat, c: nat)
    requires b < |g| && Supported(g[b].term) && i < |BlockCode(g, b)|
    ensures BlockCode(g, b)[i] == Label(c) <==> i == 0 && b == c
  {
  }

  ghost predicate NoLabel(code: seq<Ins>, b: nat) {
    forall i :: 0 <= i < |code| ==> code[i] != Label(b)
  }

  lemma {:induction false} NoLabelInConcat(codes: seq<seq<Ins>>, n: nat, b: nat)
    requires n <= |codes| && forall k :: 0 <= k < n ==> NoLabel(codes[k], b)
    ensures NoLabel(Concat(codes, n), b)
    decreases n
  {
    if n > 0 {
      NoLabelInConcat(codes, n - 1, b);
      assert NoLabel(codes[n - 1], b);
    }
  }

  lemma NoLabelBefore(u: Unit, n: nat, b: nat)
    requires UnitOk(u) && n <= |u.order| && forall k :: 0 <= k < n ==> u.order[k] != b
    ensures NoLabel(Prologue(u.hasTry) + Concat(Codes(u), n), b)
  {
    forall k | 0 <= k < n
      ensures NoLabel(Codes(u)[k], b)
    {
      CodeOf(u, k);
      forall i | 0 <= i < |BlockCode(u.g, u.order[k])|
        ensures BlockCode(u.g, u.order[k])[i] != Label(b)
      {
        OneLabel(u.g, u.order[k], i, b);
      }
    }
    NoLabelInConcat(Codes(u), n, b);
  }

  lemma {:induction false} TargetIs(list: seq<Ins>, b: nat, i: nat)
    requires i < |list| && list[i] == Label(b) && forall j :: 0 <= j < i ==> list[j] != Label(b)
    ensures Target(list, b) == i
    decreases i
  {
    if i > 0 { TargetIs(list[1..], b, i - 1); }
  }

  lemma TargetIsStart(u: Unit, k: nat)
    requires UnitOk(u) && k < |u.order|
    ensures Target(List(u), u.order[k]) == Start(u, k)
  {
    var front, b := Prologue(u.hasTry) + Concat(Codes(u), k), u.order[k];
    NoLabelBefore(u, k, b);
    PieceAt(Prologue(u.hasTry), Codes(u), k);
    CodeOf(u, k);
    OneLabel(u.g, b, 0, b);
    ConcatPrefix(Codes(u), k, |u.order|);
    assert front <= List(u);
    FirstLabel(List(u), front, Codes(u)[k], b);
  }

  lemma FirstLabel(list: seq<Ins>, front: seq<Ins>, own: seq<Ins>, b: nat)
    requires front <= list && NoLabel(front, b) && StandsAt(list, |front|, own) && own != [] && own[0] == Label(b)
    ensures Target(list, b) == |front|
  {
    assert list[|front|] == list[|front|..|front| + |own|][0];
    TargetIs(list, b, |front|);
  }

  // ----- the simulation, for the list that is emitted -----

  ghost function Starts(u: Unit): (starts: map<nat, nat>)
    requires UnitOk(u)
    ensures forall k :: 0 <= k < |u.order| ==> u.order[k] in starts && starts[u.order[k]] == Start(u, k)
    ensures forall b :: b in starts ==> b in u.order && starts[b] == Target(List(u), b)
  {
    forall k | 0 <= k < |u.order|
      ensures Target(List(u), u.order[k]) == Start(u, k)
    {
      TargetIsStart(u, k);
    }
    map b | b in u.order :: Target(List(u), b)
  }

  lemma BlockStands(u: Unit, k: nat)
    requires UnitOk(u) && k < |u.order|
    ensures PartsStand(List(u), Start(u, k), u.order[k], u.g[u.order[k]], Start(u, k + 1))
  {
    PieceAt(Prologue(u.hasTry), Codes(u), k);
    CodeOf(u, k);
    BlockParts(List(u), Start(u, k), Codes(u)[k], u.g, u.order[k]);
  }

  /** The facts about block `k` that its exit depends on. */
  ghost predicate SuccessorsStart(starts: map<nat, nat>, list: seq<Ins>, blk: Block, end: nat)
    requires !blk.term.Return?
  {
    && FallThrough(blk.term) in starts && starts[FallThrough(blk.term)] == Target(list, FallThrough(blk.term))
    && (!blk.term.Goto? ==> blk.term.onTrue in starts && starts[blk.term.onTrue] == Target(list, blk.term.onTrue))
    && (!blk.needsJump ==> end == starts[FallThrough(blk.term)])
  }

  lemma SuccessorsStand(u: Unit, k: nat)
    requires UnitOk(u) && k < |u.order| && !u.g[u.order[k]].term.Return?
    ensures SuccessorsStart(Starts(u), List(u), u.g[u.order[k]], Start(u, k + 1))
  {
    assert BlockOk(u.g, u.order, k) && FallsRight(u.g, u.order, k);
    var blk := u.g[u.order[k]];
    var f := FallThrough(blk.term);
    assert f in u.order;
    if !blk.needsJump { assert f == u.order[k + 1]; }
  }

  /** The exit of a block is the start of the block the graph goes to. */
  lemma ExitIsStart(sem: Semantics, starts: map<nat, nat>, list: seq<Ins>, blk: Block, s: State, end: nat)
    requires !blk.term.Return? && SuccessorsStart(starts, list, blk, end)
    ensures var b' := Successor(sem, blk.term, s); b' in starts && Exit(sem, list, blk, s, end) == starts[b']
  {
  }

  lemma IsSteady(sem: Semantics, list: seq<Ins>)
    ensures Steady(StepOf(sem, list))
  {
  }

  lemma FirstVisit(sem: Semantics, list: seq<Ins>, c: Conf, b: nat, blk: Block)
    requires !c.halted && StandsAt(list, c.pc, HeadCode(b, blk))
    ensures Iter(StepOf(sem, list), c, 1).visits == c.visits + [Visit(b, c.s)]
  {
    assert list[c.pc] == list[c.pc..c.pc + |HeadCode(b, blk)|][0];
    StepsOne(sem, list, c);
  }

  /** What the proof needs to know about one block of the list. */
  ghost predicate BlockReady(g: Graph, list: seq<Ins>, starts: map<nat, nat>, b: nat, end: nat) {
    && b < |g| && b in starts && Supported(g[b].term)
    && PartsStand(list, starts[b], b, g[b], end)
    && (!g[b].term.Return? ==> SuccessorsStart(starts, list, g[b], end))
  }

  lemma Ready(u: Unit, k: nat)
    requires UnitOk(u) && k < |u.order|
    ensures BlockReady(u.g, List(u), Starts(u), u.order[k], Start(u, k + 1))
  {
    assert BlockOk(u.g, u.order, k);
    BlockStands(u, k);
    if !u.g[u.order[k]].term.Return? { SuccessorsStand(u, k); }
  }

  lemma GoingMoves(g: Graph, sem: Semantics, list: seq<Ins>, starts: map<nat, nat>, b: nat, c: Conf, end: nat)
    returns (n: nat, b': nat)
    requires BlockReady(g, list, starts, b, end) && At(starts, b, c) && !g[b].term.Return?
    requires SoundAt(g, sem, Visit(b, c.s))
    ensures Leads(g, sem, StepOf(sem, list), starts, b, c, n, b')
  {
    var d;
    n, d := WholeBlockRuns(sem, list, c, b, g[b], end);
    var s := RunBody(sem, g[b].body, |g[b].body|, c.s);
    ExitIsStart(sem, starts, list, g[b], s, end);
    b' := Successor(sem, g[b].term, s);
    assert At(starts, b', d) && GraphStep(g, sem, Visit(b, c.s), Visit(b', d.s));
  }

  lemma BlockMoves(g: Graph, sem: Semantics, list: seq<Ins>, starts: map<nat, nat>, b: nat, c: Conf, end: nat)
    requires BlockReady(g, list, starts, b, end) && At(starts, b, c) && SoundAt(g, sem, Visit(b, c.s))
    ensures Moves(g, sem, StepOf(sem, list), starts, b, c)
  {
    FirstVisit(sem, list, c, b, g[b]);
    if g[b].term.Return? {
      var n := ReturnRuns(sem, list, c, b, g[b], end);
      assert Leads(g, sem, StepOf(sem, list), starts, b, c, n, b);
    } else {
      var n, b' := GoingMoves(g, sem, list, starts, b, c, end);
    }
  }

  lemma ListMoves(u: Unit, sem: Semantics, b: nat, c: Conf)
    requires UnitOk(u) && At(Starts(u), b, c) && SoundAt(u.g, sem, Visit(b, c.s))
    ensures Moves(u.g, sem, StepOf(sem, List(u)), Starts(u), b, c)
  {
    var k :| 0 <= k < |u.order| && u.order[k] == b;
    Ready(u, k);
    BlockMoves(u.g, sem, List(u), Starts(u), b, c, Start(u, k + 1));
  }

  lemma ListSimulates(u: Unit, sem: Semantics, first: Visit)
    requires UnitOk(u) && SoundRuns(u.g, sem, first)
    ensures Simulates(u.g, sem, first, StepOf(sem, List(u)), Starts(u))
  {
    IsSteady(sem, List(u));
    forall b, c | At(Starts(u), b, c) && Comes(u.g, sem, first, b, c)
      ensures Moves(u.g, sem, StepOf(sem, List(u)), Starts(u), b, c)
    {
      SoundHere(u, sem, first, b, c);
      ListMoves(u, sem, b, c);
    }
  }

  lemma SoundHere(u: Unit, sem: Semantics, first: Visit, b: nat, c: Conf)
    requires SoundRuns(u.g, sem, first) && Comes(u.g, sem, first, b, c)
    ensures SoundAt(u.g, sem, Visit(b, c.s))
  {
    var vs := c.visits + [Visit(b, c.s)];
    assert RunOf(u.g, sem, first, vs) && vs[|vs| - 1] == Visit(b, c.s);
  }

  /** Control at the first label, behind the `nop` that try regions ask for. */
  lemma ToFirstLabel(u: Unit, sem: Semantics, s: State) returns (n: nat)
    requires UnitOk(u)
    ensures Steps(sem, List(u), Conf(0, s, [], false), n) == Conf(Start(u, 0), s, [], false)
  {
    n := |Prologue(u.hasTry)|;
    if u.hasTry { StepsOne(sem, List(u), Conf(0, s, [], false)); }
  }

  /** After any number of steps the blocks visited so far, with their states, are a run of the graph. */
  lemma EveryRunIsAGraphRun(u: Unit, sem: Semantics, s: State, n: nat)
    requires UnitOk(u) && SoundRuns(u.g, sem, Visit(u.order[0], s))
    ensures var vs := Steps(sem, List(u), Conf(0, s, [], false), n).visits;
            GraphRun(u.g, sem, vs) && (|vs| > 0 ==> vs[0] == Visit(u.order[0], s))
  {
    var c := Conf(0, s, [], false);
    ListSimulates(u, sem, Visit(u.order[0], s));
    var m := ToFirstLabel(u, sem, s);
    RunFrom(u.g, sem, StepOf(sem, List(u)), Starts(u), u.order[0], c, m, n);
  }

  /** The list never gets stuck: it goes on to any number of blocks, or stops in a block that returns. */
  lemma ListGoesOn(u: Unit, sem: Semantics, s: State, m: nat) returns (n: nat, d: Conf)
    requires UnitOk(u) && SoundRuns(u.g, sem, Visit(u.order[0], s))
    ensures d == Steps(sem, List(u), Conf(0, s, [], false), n)
    ensures |d.visits| == m || Returned(u.g, d)
  {
    var n1, c := RunsToFirst(u, sem, s);
    var n2;
    n2, d := GoesOnFromStart(u, sem, s, c, m);
    n := Joined(u, sem, s, n1, c, n2, d);
  }

  lemma Joined(u: Unit, sem: Semantics, s: State, n1: nat, c: Conf, n2: nat, d: Conf) returns (n: nat)
    requires UnitOk(u) && Steps(sem, List(u), Conf(0, s, [], false), n1) == c && Steps(sem, List(u), c, n2) == d
    ensures d == Steps(sem, List(u), Conf(0, s, [], false), n)
  {
    n := n1 + n2;
    StepsJoin(sem, List(u), Conf(0, s, [], false), n1, c, n2, d);
  }

  lemma RunsToFirst(u: Unit, sem: Semantics, s: State) returns (n: nat, c: Conf)
    requires UnitOk(u)
    ensures Steps(sem, List(u), Conf(0, s, [], false), n) == c && AtFirst(u, s, c)
  {
    n := ToFirstLabel(u, sem, s);
    c := Conf(Start(u, 0), s, [], false);
  }

  ghost predicate AtFirst(u: Unit, s: State, c: Conf)
    requires UnitOk(u)
  {
    c == Conf(Start(u, 0), s, [], false)
  }

  lemma GoesOnFromStart(u: Unit, sem: Semantics, s: State, c: Conf, m: nat) returns (n: nat, d: Conf)
    requires UnitOk(u) && AtFirst(u, s, c) && SoundRuns(u.g, sem, Visit(u.order[0], s))
    ensures Steps(sem, List(u), c, n) == d
    ensures |d.visits| == m || Returned(u.g, d)
  {
    ListSimulates(u, sem, Visit(u.order[0], s));
    n, d := SimulationGoesOn(u, sem, StepOf(sem, List(u)), s, c, m);
  }

  lemma SimulationGoesOn(u: Unit, sem: Semantics, step: Conf -> Conf, s: State, c: Conf, m: nat)
    returns (n: nat, d: Conf)
    requires UnitOk(u) && AtFirst(u, s, c) && Simulates(u.g, sem, Visit(u.order[0], s), step, Starts(u))
    ensures Iter(step, c, n) == d && (|d.visits| == m || Returned(u.g, d))
  {
    ComesFirst(u.g, sem, u.order[0], c);
    n := GoesOn(u.g, sem, Visit(u.order[0], s), step, Starts(u), u.order[0], c, m);
    d := Iter(step, c, n);
  }

  /** The list is what the generator emits. */
  lemma ListIsEmitted(u: Unit)
    requires UnitOk(u)
    ensures List(u) == Code(u.g, u.order, u.hasTry, |u.order|)
  {
  }
}
