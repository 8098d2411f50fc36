/**
 * Code with loads and stores of the accumulator left out where the pass marked them computes, on every run, what
 * the code that loads and stores everywhere computes.
 */
module AccMeaning {
  import opened AccGraph
  import AccAlloc

  type Val = int

  /** What an instruction computes may depend on the moment, so on anything that happened before. */
  type Semantics = (nat, Pos, seq<Val>) -> Val

  datatype State = State(regs: map<Pos, Val>, acc: Val)

  function Get(regs: map<Pos, Val>, x: Pos): Val {
    if x in regs then regs[x] else 0
  }

  /**
   * No load is emitted for an operand marked in the accumulator, nor for one whose definition stays there: the
   * register allocator gives an unmarked operand the place of its definition.
   */
  predicate Elided(g: Graph, m: Marks, x: Pos)
    requires IsInst(g, x) && InstOk(g, x)
  {
    At(g, x).accRead && (x in m.src || AccInput(g, x) in m.dst)
  }

  function Operand(g: Graph, m: Marks, x: Pos, st: State, k: nat): Val
    requires IsInst(g, x) && InstOk(g, x) && k < |At(g, x).inputs|
  {
    if k == AccReadIndex(At(g, x)) && Elided(g, m, x) then st.acc else Get(st.regs, At(g, x).inputs[k])
  }

  function Operands(g: Graph, m: Marks, x: Pos, st: State): seq<Val>
    requires IsInst(g, x) && InstOk(g, x)
  {
    seq(|At(g, x).inputs|, k requires 0 <= k < |At(g, x).inputs| => Operand(g, m, x, st, k))
  }

  /** Load, compute, store. A SaveState emits no code. */
  function Exec(g: Graph, m: Marks, sem: Semantics, moment: nat, x: Pos, st: State): State
    requires IsInst(g, x) && InstOk(g, x)
  {
    var inst := At(g, x);
    if inst.saveState then st
    else
      var loaded := if inst.accRead && !Elided(g, m, x) then Get(st.regs, AccInput(g, x)) else st.acc;
      var result := sem(moment, x, Operands(g, m, x, st));
      State(if inst.noDest || x in m.dst then st.regs else st.regs[x := result],
            if inst.isConst || inst.accWrite then result else loaded)
  }

  // ----- runs -----

  predicate Step(g: Graph, p: Pos, q: Pos) {
    && IsNode(g, p) && IsNode(g, q)
    && if IsInst(g, p) then q == Next(p) else q.i == 0 && q.b in g[p.b].succs
  }

  ghost predicate IsRun(g: Graph, r: seq<Pos>) {
    && |r| > 0 && r[0] == Pos(0, 0)
    && forall k :: 0 <= k < |r| - 1 ==> Step(g, r[k], r[k + 1])
  }

  /** The state when control arrives at `r[n]`. */
  ghost function After(g: Graph, m: Marks, sem: Semantics, r: seq<Pos>, n: nat): State
    requires n <= |r| && forall p :: IsInst(g, p) ==> InstOk(g, p)
    decreases n
  {
    if n == 0 then State(map[], 0)
    else
      var st := After(g, m, sem, r, n - 1);
      if IsInst(g, r[n - 1]) then Exec(g, m, sem, n - 1, r[n - 1], st) else st
  }

  /** The only way to reach the end of a linear stretch is along it. */
  lemma {:induction false} RunFollows(g: Graph, r: seq<Pos>, path: seq<Pos>, t: nat, k: nat)
    requires GraphOk(g) && IsRun(g, r) && Linear(g, path) && t < |r| && |path| > 0 && r[t] == path[|path| - 1]
    requires k < |path|
    ensures k <= t && r[t - k] == path[|path| - 1 - k]
    decreases k
  {
    if k > 0 {
      RunFollows(g, r, path, t, k - 1);
      var c := path[|path| - k];
      assert LinearStep(g, path[|path| - 1 - k], path[|path| - 1 - k + 1]);
      OnlyWayIn(g, path[|path| - 1 - k], c);
      if 0 < t - (k - 1) {
        assert Step(g, r[t - k], r[t - k + 1]);
        SameWayIn(g, path[|path| - 1 - k], r[t - k], c);
      }
    }
  }

  lemma OnlyWayIn(g: Graph, p: Pos, c: Pos)
    requires GraphOk(g) && LinearStep(g, p, c)
    ensures c != Pos(0, 0)
  {
  }

  lemma SameWayIn(g: Graph, p: Pos, q: Pos, c: Pos)
    requires GraphOk(g) && LinearStep(g, p, c) && Step(g, q, c)
    ensures p == q
  {
    if c.i == 0 {
      assert c.b in g[p.b].succs && c.b in g[q.b].succs;
      assert p.b in g[c.b].preds && q.b in g[c.b].preds;
    }
  }

  // ----- refinement -----

  const EVERYWHERE: Marks := Marks({}, {}, {})

  /** Registers agree except where the result is kept in the accumulator. */
  ghost predicate Agree(m: Marks, full: State, lean: State) {
    forall x :: x !in m.dst ==> Get(lean.regs, x) == Get(full.regs, x)
  }

  /** Both codes hand the same operands to the instruction executed at moment `t`. */
  ghost predicate SameOperands(g: Graph, m: Marks, sem: Semantics, r: seq<Pos>, t: nat)
    requires t < |r| && forall p :: IsInst(g, p) ==> InstOk(g, p)
  {
    IsInst(g, r[t]) && !At(g, r[t]).saveState ==>
      Operands(g, m, r[t], After(g, m, sem, r, t)) == Operands(g, EVERYWHERE, r[t], After(g, EVERYWHERE, sem, r, t))
  }

  /** Right after a producer its value is in the accumulator, and stays there along a clean stretch. */
  lemma {:induction false} AccHolds(g: Graph, m: Marks, sem: Semantics, r: seq<Pos>, path: seq<Pos>, x: Pos, u: Pos,
      t0: nat, k: nat)
    requires GraphOk(g) && IsInst(g, x) && Produces(At(g, x)) && CleanPath(g, path, x, u)
    requires 0 < k < |path| && t0 + |path| <= |r| && forall j :: 0 <= j < |path| ==> r[t0 + j] == path[j]
    requires SameOperands(g, m, sem, r, t0)
    ensures After(g, m, sem, r, t0 + k).acc == Get(After(g, EVERYWHERE, sem, r, t0 + k).regs, x)
    decreases k
  {
    assert InstOk(g, x);
    if k > 1 {
      AccHolds(g, m, sem, r, path, x, u, t0, k - 1);
      assert r[t0 + k - 1] == path[k - 1];
    } else {
      assert r[t0] == x;
    }
  }

  /** The accumulator holds the value of `x` whenever the run is at the end of a clean stretch from `x`. */
  lemma AccIsInput(g: Graph, m: Marks, sem: Semantics, r: seq<Pos>, x: Pos, t: nat)
    requires GraphOk(g) && IsRun(g, r) && t < |r| && IsInst(g, x) && Produces(At(g, x)) && Clean(g, x, r[t])
    requires forall s :: 0 <= s < t ==> SameOperands(g, m, sem, r, s)
    ensures After(g, m, sem, r, t).acc == Get(After(g, EVERYWHERE, sem, r, t).regs, x)
  {
    var path :| CleanPath(g, path, x, r[t]);
    var n := |path| - 1;
    RunFollows(g, r, path, t, n);
    forall j | 0 <= j < |path|
      ensures r[t - n + j] == path[j]
    {
      RunFollows(g, r, path, t, n - j);
    }
    AccHolds(g, m, sem, r, path, x, r[t], t - n, n);
  }

  lemma OperandsAgree(g: Graph, m: Marks, sem: Semantics, r: seq<Pos>, t: nat)
    requires GraphOk(g) && Sound(g, m) && IsRun(g, r) && t < |r|
    requires forall s :: 0 <= s < t ==> SameOperands(g, m, sem, r, s)
    requires Agree(m, After(g, EVERYWHERE, sem, r, t), After(g, m, sem, r, t))
    ensures SameOperands(g, m, sem, r, t)
  {
    var u := r[t];
    if IsInst(g, u) && !At(g, u).saveState {
      assert InstOk(g, u);
      var full, lean := After(g, EVERYWHERE, sem, r, t), After(g, m, sem, r, t);
      forall k | 0 <= k < |At(g, u).inputs|
        ensures Operand(g, m, u, lean, k) == Operand(g, EVERYWHERE, u, full, k)
      {
        if k == AccReadIndex(At(g, u)) && Elided(g, m, u) {
          ElidedIsClean(g, m, u);
          AccIsInput(g, m, sem, r, AccInput(g, u), t);
        } else {
          NotKept(g, m, u, k);
        }
      }
    }
  }

  lemma ElidedIsClean(g: Graph, m: Marks, u: Pos)
    requires GraphOk(g) && Sound(g, m) && IsInst(g, u) && InstOk(g, u) && Elided(g, m, u) && !At(g, u).saveState
    ensures Produces(At(g, AccInput(g, u))) && Clean(g, AccInput(g, u), u)
  {
    if u in m.src {
      assert SrcSound(g, u);
    } else {
      assert DstSound(g, AccInput(g, u)) && IsUser(g, AccInput(g, u), u);
    }
  }

  /** An operand that is fetched from a register is one that was stored. */
  lemma NotKept(g: Graph, m: Marks, u: Pos, k: nat)
    requires Sound(g, m) && IsInst(g, u) && InstOk(g, u) && !At(g, u).saveState && k < |At(g, u).inputs|
    requires !(k == AccReadIndex(At(g, u)) && Elided(g, m, u))
    ensures At(g, u).inputs[k] !in m.dst
  {
    var x := At(g, u).inputs[k];
    if x in m.dst {
      assert DstSound(g, x) && IsUser(g, x, u);
    }
  }

  lemma {:induction false} RunsAgree(g: Graph, m: Marks, sem: Semantics, r: seq<Pos>, n: nat)
    requires GraphOk(g) && Sound(g, m) && IsRun(g, r) && n <= |r|
    ensures Agree(m, After(g, EVERYWHERE, sem, r, n), After(g, m, sem, r, n))
    ensures forall t :: 0 <= t < n ==> SameOperands(g, m, sem, r, t)
    decreases n
  {
    if n > 0 {
      RunsAgree(g, m, sem, r, n - 1);
      OperandsAgree(g, m, sem, r, n - 1);
    }
  }

  /**
   * On every run of every graph the code with the loads and stores left out gives every instruction the operands,
   * and so the value, that it has in the code that loads and stores everywhere.
   */
  lemma ElisionRefines(g: Graph, sem: Semantics, r: seq<Pos>, t: nat)
    requires GraphOk(g) && IsRun(g, r) && t < |r|
    ensures SameOperands(g, AccAlloc.Allocated(g, |g|), sem, r, t)
    ensures Agree(AccAlloc.Allocated(g, |g|), After(g, EVERYWHERE, sem, r, t),
      After(g, AccAlloc.Allocated(g, |g|), sem, r, t))
  {
    AccAlloc.AllocatedSound(g, |g|);
    RunsAgree(g, AccAlloc.Allocated(g, |g|), sem, r, |r|);
    RunsAgree(g, AccAlloc.Allocated(g, |g|), sem, r, t);
  }
}
