/** Why using a dominating producer instead of a duplicate changes no value on any run. */
module DynamicCseSound {
  import opened SsaGraph
  import opened SsaValues
  import opened DynamicCse

  /** Whenever control is at `q`, executing it would give `op` applied to the current values of `xs`. */
  ghost predicate Computes(g: Graph, sem: Semantics, q: Pos, op: Opcode, typ: int, xs: seq<Pos>) {
    && IsInst(g, q)
    && (forall j :: 0 <= j < |xs| ==> IsInst(g, xs[j]) && Precedes(g, xs[j], q))
    && forall r, t: nat {:trigger ValueOf(sem, At(g, q), q, t, Exec(g, sem, r))} :: IsRun(g, r) && Last(r) == q ==>
         ValueOf(sem, At(g, q), q, t, Exec(g, sem, r)) == sem.pure(op, typ, Gets(Exec(g, sem, r).env, xs))
  }

  /** Whenever control is at `c`, executing it would give the value `q` already has. */
  ghost predicate Duplicates(g: Graph, sem: Semantics, q: Pos, c: Pos) {
    && IsInst(g, q) && IsInst(g, c) && Precedes(g, q, c)
    && forall r, t: nat {:trigger ValueOf(sem, At(g, c), c, t, Exec(g, sem, r))} :: IsRun(g, r) && Last(r) == c ==>
         ValueOf(sem, At(g, c), c, t, Exec(g, sem, r)) == Get(Exec(g, sem, r).env, q)
  }

  lemma LastCompletion(g: Graph, r: seq<Pos>, x: Pos) returns (k: nat)
    requires IsRun(g, r) && Precedes(g, x, Last(r))
    ensures DoneAt(r, x, k) && forall j :: k < j ==> !DoneAt(r, x, j)
    ensures IsRun(g, r[..k + 1]) && Last(r[..k + 1]) == x
  {
    assert Done(r, x);
    var k0 :| DoneAt(r, x, k0);
    k := LastDone(r, x, k0);
    RunPrefix(g, r, k + 1);
  }

  lemma NeverRedone(g: Graph, r: seq<Pos>, a: Pos, b: Pos, kb: nat)
    requires IsRun(g, r) && Precedes(g, a, b) && Precedes(g, b, Last(r))
    requires DoneAt(r, b, kb) && forall j :: kb < j ==> !DoneAt(r, b, j)
    ensures forall k :: kb <= k ==> !DoneAt(r, a, k)
  {
    forall k | kb <= k && DoneAt(r, a, k)
      ensures false
    {
      NotRedone(g, r, a, b, kb, k);
    }
  }

  /** An input keeps its value from the last execution of its user on. */
  lemma InputKept(g: Graph, sem: Semantics, r: seq<Pos>, a: Pos, b: Pos, kb: nat)
    requires IsRun(g, r) && Precedes(g, a, b) && Precedes(g, b, Last(r))
    requires DoneAt(r, b, kb) && forall j :: kb < j ==> !DoneAt(r, b, j)
    ensures Get(Exec(g, sem, r).env, a) == Get(Exec(g, sem, r[..kb + 1]).env, a)
  {
    NeverRedone(g, r, a, b, kb);
    ValueKept(g, sem, r, kb + 1, a);
  }

  /** The latest value of a producer is its operation applied to the values its inputs have now. */
  lemma ProducerIsCurrent(g: Graph, sem: Semantics, q: Pos, op: Opcode, typ: int, xs: seq<Pos>, r: seq<Pos>)
    requires Computes(g, sem, q, op, typ, xs) && IsRun(g, r) && Precedes(g, q, Last(r))
    ensures Get(Exec(g, sem, r).env, q) == sem.pure(op, typ, Gets(Exec(g, sem, r).env, xs))
  {
    var k := LastCompletion(g, r, q);
    LatestValue(g, sem, r, q, k);
    var before := r[..k + 1];
    assert ValueOf(sem, At(g, q), q, k + 2, Exec(g, sem, before))
      == sem.pure(op, typ, Gets(Exec(g, sem, before).env, xs));
    forall j | 0 <= j < |xs|
      ensures Get(Exec(g, sem, r).env, xs[j]) == Get(Exec(g, sem, before).env, xs[j])
    {
      InputKept(g, sem, r, xs[j], q, k);
    }
    assert Gets(Exec(g, sem, r).env, xs) == Gets(Exec(g, sem, before).env, xs);
  }

  /** Same operation, same type, inputs with pairwise equal value numbers. */
  ghost predicate SameKey(vns: ValueNumbers, op: Opcode, typ: int, xs: seq<Pos>, inst: Inst) {
    var ys := DataDefs(inst.inputs);
    && IsPure(op) && inst.op == op && inst.typ == typ && |xs| == |ys|
    && forall j :: 0 <= j < |xs| ==> xs[j] in vns && ys[j] in vns && vns[xs[j]] == vns[ys[j]]
  }

  lemma DataDefsAreInputs(inputs: seq<Input>, j: nat)
    requires j < |DataDefs(inputs)|
    ensures exists i :: 0 <= i < |inputs| && inputs[i].def == DataDefs(inputs)[j]
    decreases |inputs|
  {
    var init := inputs[..|inputs| - 1];
    if j < |DataDefs(init)| {
      DataDefsAreInputs(init, j);
      var i :| 0 <= i < |init| && init[i].def == DataDefs(init)[j];
      assert inputs[i].def == DataDefs(inputs)[j];
    } else {
      assert inputs[|inputs| - 1].def == DataDefs(inputs)[j];
    }
  }

  lemma DataDefsDefined(g: Graph, x: Pos, j: nat)
    requires IsInst(g, x) && UsesDefined(g, x) && j < |DataDefs(At(g, x).inputs)|
    ensures IsInst(g, DataDefs(At(g, x).inputs)[j]) && Precedes(g, DataDefs(At(g, x).inputs)[j], x)
  {
    DataDefsAreInputs(At(g, x).inputs, j);
    var i :| 0 <= i < |At(g, x).inputs| && At(g, x).inputs[i].def == DataDefs(At(g, x).inputs)[j];
  }

  /** The core of the argument: an instruction with the key of a dominating producer computes the producer's value. */
  lemma SameKeyDuplicates(g: Graph, sem: Semantics, vns: ValueNumbers, q: Pos, op: Opcode, typ: int, xs: seq<Pos>,
      c: Pos)
    requires WellFormed(g) && VnSound(g, sem, vns)
    requires Computes(g, sem, q, op, typ, xs) && IsInst(g, c) && Precedes(g, q, c)
    requires SameKey(vns, op, typ, xs, At(g, c))
    ensures Duplicates(g, sem, q, c)
  {
    var ys := DataDefs(At(g, c).inputs);
    forall r, t: nat | IsRun(g, r) && Last(r) == c
      ensures ValueOf(sem, At(g, c), c, t, Exec(g, sem, r)) == Get(Exec(g, sem, r).env, q)
    {
      ProducerIsCurrent(g, sem, q, op, typ, xs, r);
      forall j | 0 <= j < |xs|
        ensures Get(Exec(g, sem, r).env, xs[j]) == Get(Exec(g, sem, r).env, ys[j])
      {
        assert UsesDefined(g, c);
        DataDefsDefined(g, c, j);
        PrecedesTransitive(g, xs[j], q, c);
      }
      assert Gets(Exec(g, sem, r).env, xs) == Gets(Exec(g, sem, r).env, ys);
    }
  }

  /** Wherever a duplicate is defined, it and its producer have the same value. */
  lemma DuplicateAgrees(g: Graph, sem: Semantics, q: Pos, c: Pos, r: seq<Pos>)
    requires Duplicates(g, sem, q, c) && IsRun(g, r) && Precedes(g, c, Last(r))
    ensures Get(Exec(g, sem, r).env, c) == Get(Exec(g, sem, r).env, q)
  {
    var k := LastCompletion(g, r, c);
    LatestValue(g, sem, r, c, k);
    InputKept(g, sem, r, q, c, k);
    assert ValueOf(sem, At(g, c), c, k + 2, Exec(g, sem, r[..k + 1])) == Get(Exec(g, sem, r[..k + 1]).env, q);
  }

  // ----- replacing the users -----

  lemma ReplacedGets(env: map<Pos, Val>, xs: seq<Pos>, ys: seq<Pos>, c: Pos, p: Pos)
    requires |xs| == |ys| && forall i :: 0 <= i < |xs| ==> ys[i] == ReplacedDef(xs[i], c, p)
    requires c in xs ==> Get(env, c) == Get(env, p)
    ensures Gets(env, ys) == Gets(env, xs)
  {
  }

  lemma ReplacedDataDefs(inputs: seq<Input>, c: Pos, p: Pos)
    ensures |DataDefs(ReplacedInputs(inputs, c, p))| == |DataDefs(inputs)|
    ensures forall j :: 0 <= j < |DataDefs(inputs)| ==>
              DataDefs(ReplacedInputs(inputs, c, p))[j] == ReplacedDef(DataDefs(inputs)[j], c, p)
    decreases |inputs|
  {
    if inputs != [] {
      var init := inputs[..|inputs| - 1];
      var out := ReplacedInputs(inputs, c, p);
      ReplacedDataDefs(init, c, p);
      assert out[..|out| - 1] == ReplacedInputs(init, c, p);
    }
  }

  lemma DataDefIsUse(inputs: seq<Input>, c: Pos)
    requires c in DataDefs(inputs)
    ensures exists i :: 0 <= i < |inputs| && inputs[i].def == c
  {
    var j :| 0 <= j < |DataDefs(inputs)| && DataDefs(inputs)[j] == c;
    DataDefsAreInputs(inputs, j);
  }

  /** One instruction computes the same before and after its inputs are redirected. */
  lemma ReplacedValue(g: Graph, sem: Semantics, q: Pos, c: Pos, r: seq<Pos>, t: nat)
    requires WellFormed(g) && Duplicates(g, sem, q, c) && IsRun(g, r) && IsInst(g, Last(r))
    ensures var i := At(g, Last(r));
            ValueOf(sem, ReplacedInst(i, c, q), Last(r), t, Exec(g, sem, r))
              == ValueOf(sem, i, Last(r), t, Exec(g, sem, r))
    ensures Gets(Exec(g, sem, r).env, InputDefs(ReplacedInputs(At(g, Last(r)).inputs, c, q)))
            == Gets(Exec(g, sem, r).env, InputDefs(At(g, Last(r)).inputs))
  {
    var x := Last(r);
    var i := At(g, x);
    var st := Exec(g, sem, r);
    assert UsesDefined(g, x);
    if exists k :: 0 <= k < |i.inputs| && i.inputs[k].def == c {
      DuplicateAgrees(g, sem, q, c, r);
    }
    assert c in InputDefs(i.inputs) ==> Get(st.env, c) == Get(st.env, q);
    ReplacedGets(st.env, InputDefs(i.inputs), InputDefs(ReplacedInputs(i.inputs, c, q)), c, q);
    if i.op.Phi? {
      ReplacedPhiValue(g, sem, q, c, r);
    } else if IsPure(i.op) {
      if c in DataDefs(i.inputs) { DataDefIsUse(i.inputs, c); }
      ReplacedDataDefs(i.inputs, c, q);
      ReplacedGets(st.env, DataDefs(i.inputs), DataDefs(ReplacedInputs(i.inputs, c, q)), c, q);
    }
  }

  lemma ReplacedPhiValue(g: Graph, sem: Semantics, q: Pos, c: Pos, r: seq<Pos>)
    requires WellFormed(g) && Duplicates(g, sem, q, c) && IsRun(g, r) && IsInst(g, Last(r))
    ensures var phi := At(g, Last(r)).phi;
            var st := Exec(g, sem, r);
            st.from in phi ==> Get(st.entry, ReplacedDef(phi[st.from], c, q)) == Get(st.entry, phi[st.from])
  {
    var phi := At(g, Last(r)).phi;
    var st := Exec(g, sem, r);
    assert UsesDefined(g, Last(r));
    if st.from in phi && phi[st.from] == c {
      var n := EntryRecorded(g, sem, r);
      if n > 0 {
        RunPrefix(g, r, n);
        DuplicateAgrees(g, sem, q, c, r[..n]);
      }
    }
  }

  /** Both graphs have the same runs, and on each run every instruction gets the same operands and the same value. */
  ghost predicate Equivalent(g: Graph, h: Graph, sem: Semantics) {
    && SameShape(g, h)
    && (forall r :: IsRun(g, r) ==> Exec(h, sem, r) == Exec(g, sem, r))
    && (forall r :: IsRun(g, r) && IsInst(g, Last(r)) && IsInst(h, Last(r)) ==>
          Gets(Exec(g, sem, r).env, InputDefs(At(h, Last(r)).inputs))
          == Gets(Exec(g, sem, r).env, InputDefs(At(g, Last(r)).inputs)))
  }

  lemma {:induction false} ReplacedExec(g: Graph, sem: Semantics, q: Pos, c: Pos, r: seq<Pos>)
    requires WellFormed(g) && Duplicates(g, sem, q, c) && IsRun(g, r)
    ensures Exec(ReplacedUsers(g, c, q), sem, r) == Exec(g, sem, r)
    decreases |r|
  {
    if |r| > 1 {
      var before := r[..|r| - 1];
      RunPrefix(g, r, |r| - 1);
      ReplacedExec(g, sem, q, c, before);
      var n := r[|r| - 2];
      assert Last(before) == n;
      if IsInst(g, n) {
        ReplacedValue(g, sem, q, c, before, |r|);
        assert At(ReplacedUsers(g, c, q), n) == ReplacedInst(At(g, n), c, q);
      }
    }
  }

  lemma ReplacedIsEquivalent(g: Graph, sem: Semantics, q: Pos, c: Pos)
    requires WellFormed(g) && Duplicates(g, sem, q, c)
    ensures Equivalent(g, ReplacedUsers(g, c, q), sem)
  {
    var h := ReplacedUsers(g, c, q);
    ReplacedSameShape(g, c, q);
    forall r | IsRun(g, r)
      ensures Exec(h, sem, r) == Exec(g, sem, r)
    {
      ReplacedExec(g, sem, q, c, r);
    }
    forall r | IsRun(g, r) && IsInst(g, Last(r)) && IsInst(h, Last(r))
      ensures Gets(Exec(g, sem, r).env, InputDefs(At(h, Last(r)).inputs))
              == Gets(Exec(g, sem, r).env, InputDefs(At(g, Last(r)).inputs))
    {
      ReplacedValue(g, sem, q, c, r, 0);
    }
  }

  lemma ReplacedWellFormed(g: Graph, sem: Semantics, q: Pos, c: Pos)
    requires WellFormed(g) && Duplicates(g, sem, q, c)
    ensures WellFormed(ReplacedUsers(g, c, q))
  {
    var h := ReplacedUsers(g, c, q);
    ReplacedSameShape(g, c, q);
    forall x | IsInst(h, x)
      ensures UsesDefined(h, x)
    {
      assert IsInst(g, x) && UsesDefined(g, x) && At(h, x) == ReplacedInst(At(g, x), c, q);
      forall i | 0 <= i < |At(h, x).inputs|
        ensures IsInst(h, At(h, x).inputs[i].def) && Precedes(h, At(h, x).inputs[i].def, x)
      {
        ReplacedDefPrecedes(g, h, q, c, At(g, x).inputs[i].def, x);
      }
      forall s | s in At(h, x).phi
        ensures IsInst(h, At(h, x).phi[s]) && Precedes(h, At(h, x).phi[s], s)
      {
        ReplacedDefPrecedes(g, h, q, c, At(g, x).phi[s], s);
      }
    }
  }

  lemma ReplacedDefPrecedes(g: Graph, h: Graph, q: Pos, c: Pos, d: Pos, n: Pos)
    requires SameShape(g, h) && Precedes(g, q, c) && IsInst(g, q) && IsInst(g, d) && Precedes(g, d, n)
    ensures IsInst(h, ReplacedDef(d, c, q)) && Precedes(h, ReplacedDef(d, c, q), n)
  {
    assert forall b :: 0 <= b < |g| ==> SameBlock(g[b], h[b]);
    if d == c { PrecedesTransitive(g, q, c, n); }
    SameShapePrecedes(g, h, ReplacedDef(d, c, q), n);
  }

  lemma EquivalentKeepsVn(g: Graph, h: Graph, sem: Semantics, vns: ValueNumbers)
    requires Equivalent(g, h, sem) && VnSound(g, sem, vns)
    ensures VnSound(h, sem, vns)
  {
    forall r, x, y | IsRun(h, r) && x in vns && y in vns && vns[x] == vns[y]
                     && Precedes(h, x, Last(r)) && Precedes(h, y, Last(r))
      ensures Get(Exec(h, sem, r).env, x) == Get(Exec(h, sem, r).env, y)
    {
      SameShapeRuns(g, h, r);
      SameShapePrecedes(g, h, x, Last(r));
      SameShapePrecedes(g, h, y, Last(r));
    }
  }
}
