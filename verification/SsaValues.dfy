/** What the instructions of an SSA graph compute along a run. */
module SsaValues {
  import opened SsaGraph

  type Val = int

  /**
   * `pure` gives the value of the four comparison and conversion intrinsics, `world` that of every other
   * instruction (it may depend on the moment, so on anything that happened before), `passes` says which
   * values a super check lets through.
   */
  datatype Semantics = Semantics(
    pure: (Opcode, int, seq<Val>) -> Val,
    world: (nat, Pos, seq<Val>) -> Val,
    passes: (nat, Val) -> bool)

  /** Values so far, values when the current block was entered, and the position control came from. */
  datatype State = State(env: map<Pos, Val>, entry: map<Pos, Val>, from: Pos)

  function Get(env: map<Pos, Val>, x: Pos): Val {
    if x in env then env[x] else 0
  }

  function Gets(env: map<Pos, Val>, xs: seq<Pos>): seq<Val> {
    seq(|xs|, i requires 0 <= i < |xs| => Get(env, xs[i]))
  }

  function InputDefs(inputs: seq<Input>): seq<Pos> {
    seq(|inputs|, i requires 0 <= i < |inputs| => inputs[i].def)
  }

  /** Definitions of the inputs that have a type, in order. */
  function DataDefs(inputs: seq<Input>): seq<Pos>
    decreases |inputs|
  {
    if inputs == [] then []
    else DataDefs(inputs[..|inputs| - 1]) + (if inputs[|inputs| - 1].data then [inputs[|inputs| - 1].def] else [])
  }

  predicate IsPure(op: Opcode) {
    op == IsTrue || op == IsFalse || op == StrictEq || op == StrictNotEq
  }

  function ValueOf(sem: Semantics, inst: Inst, x: Pos, moment: nat, st: State): Val {
    if inst.op.Phi? then (if st.from in inst.phi then Get(st.entry, inst.phi[st.from]) else 0)
    else if IsPure(inst.op) then sem.pure(inst.op, inst.typ, Gets(st.env, DataDefs(inst.inputs)))
    else sem.world(moment, x, Gets(st.env, InputDefs(inst.inputs)))
  }

  function Advance(g: Graph, sem: Semantics, n: Pos, m: Pos, moment: nat, st: State): State {
    if IsInst(g, n) && m == Next(n) then st.(env := st.env[n := ValueOf(sem, At(g, n), n, moment, st)])
    else State(st.env, st.env, n)
  }

  /** The state when control arrives at the last position of `r`. */
  function Exec(g: Graph, sem: Semantics, r: seq<Pos>): State
    decreases |r|
  {
    if |r| <= 1 then State(map[], map[], Pos(0, 0))
    else Advance(g, sem, r[|r| - 2], r[|r| - 1], |r|, Exec(g, sem, r[..|r| - 1]))
  }

  /** A value stays what it was until the instruction is executed again. */
  lemma {:induction false} ValueKept(g: Graph, sem: Semantics, r: seq<Pos>, n: nat, x: Pos)
    requires 1 <= n <= |r|
    requires forall k :: n - 1 <= k ==> !DoneAt(r, x, k)
    ensures Get(Exec(g, sem, r).env, x) == Get(Exec(g, sem, r[..n]).env, x)
    decreases |r|
  {
    if n == |r| {
      assert r[..n] == r;
    } else {
      var before := r[..|r| - 1];
      assert before[..n] == r[..n];
      assert !DoneAt(r, x, |r| - 2);
      forall k | n - 1 <= k
        ensures !DoneAt(before, x, k)
      {
        assert !DoneAt(r, x, k);
      }
      ValueKept(g, sem, before, n, x);
    }
  }

  /** Right after its execution the value of an instruction is what it computes. */
  lemma ValueWhenDone(g: Graph, sem: Semantics, r: seq<Pos>, x: Pos, k: nat)
    requires DoneAt(r, x, k) && IsInst(g, x)
    ensures Get(Exec(g, sem, r[..k + 2]).env, x) == ValueOf(sem, At(g, x), x, k + 2, Exec(g, sem, r[..k + 1]))
  {
    assert r[..k + 2][..k + 1] == r[..k + 1];
  }

  /** The latest value of `x` is the one computed at its last execution. */
  lemma LatestValue(g: Graph, sem: Semantics, r: seq<Pos>, x: Pos, k: nat)
    requires IsInst(g, x) && DoneAt(r, x, k) && forall j :: k < j ==> !DoneAt(r, x, j)
    ensures Get(Exec(g, sem, r).env, x) == ValueOf(sem, At(g, x), x, k + 2, Exec(g, sem, r[..k + 1]))
  {
    ValueWhenDone(g, sem, r, x, k);
    ValueKept(g, sem, r, k + 2, x);
  }

  /** Where the values at block entry were recorded. */
  lemma {:induction false} EntryRecorded(g: Graph, sem: Semantics, r: seq<Pos>) returns (n: nat)
    ensures n < |r| || n == 0
    ensures n == 0 ==> Exec(g, sem, r).entry == map[]
    ensures n > 0 ==> r[n - 1] == Exec(g, sem, r).from && Exec(g, sem, r).entry == Exec(g, sem, r[..n]).env
    decreases |r|
  {
    n := 0;
    if |r| > 1 {
      var before := r[..|r| - 1];
      if IsInst(g, r[|r| - 2]) && r[|r| - 1] == Next(r[|r| - 2]) {
        n := EntryRecorded(g, sem, before);
        assert before[..n] == r[..n];
      } else {
        n := |r| - 1;
      }
    }
  }
}
