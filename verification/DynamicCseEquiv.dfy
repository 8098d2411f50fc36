/** Equivalent graphs, and why a dominated super check never fires. */
module DynamicCseEquiv {
  import opened SsaGraph
  import opened SsaValues
  import opened DynamicCse
  import opened DynamicCseSound

  // ----- moving facts between equivalent graphs -----

  lemma EquivalentReflexive(g: Graph, sem: Semantics)
    ensures Equivalent(g, g, sem)
  {
  }

  lemma EquivalentSymmetric(g: Graph, h: Graph, sem: Semantics)
    requires Equivalent(g, h, sem)
    ensures Equivalent(h, g, sem)
  {
    forall r
      ensures IsRun(g, r) <==> IsRun(h, r)
    {
      SameShapeRuns(g, h, r);
    }
  }

  lemma EquivalentTransitive(g: Graph, h: Graph, i: Graph, sem: Semantics)
    requires Equivalent(g, h, sem) && Equivalent(h, i, sem)
    ensures Equivalent(g, i, sem)
  {
    assert SameShape(g, i) by {
      forall b | 0 <= b < |g|
        ensures SameBlock(g[b], i[b])
      {
        assert SameBlock(g[b], h[b]) && SameBlock(h[b], i[b]);
        forall k | 0 <= k < |g[b].insts|
          ensures SameInst(g[b].insts[k], i[b].insts[k])
        {
          assert SameInst(g[b].insts[k], h[b].insts[k]) && SameInst(h[b].insts[k], i[b].insts[k]);
        }
      }
    }
    forall r
      ensures IsRun(g, r) <==> IsRun(h, r)
    {
      SameShapeRuns(g, h, r);
    }
  }

  lemma SameDataDefs(a: seq<Input>, b: seq<Input>, env: map<Pos, Val>)
    requires |a| == |b| && (forall k :: 0 <= k < |a| ==> a[k].data == b[k].data)
    requires Gets(env, InputDefs(a)) == Gets(env, InputDefs(b))
    ensures Gets(env, DataDefs(a)) == Gets(env, DataDefs(b))
    decreases |a|
  {
    if a != [] {
      var n := |a| - 1;
      var xs, ys := InputDefs(a), InputDefs(b);
      assert Gets(env, xs)[n] == Gets(env, ys)[n];
      assert Gets(env, InputDefs(a[..n])) == Gets(env, xs)[..n];
      assert Gets(env, InputDefs(b[..n])) == Gets(env, ys)[..n];
      SameDataDefs(a[..n], b[..n], env);
      GetsAppend(env, DataDefs(a[..n]), if a[n].data then [a[n].def] else []);
      GetsAppend(env, DataDefs(b[..n]), if b[n].data then [b[n].def] else []);
    }
  }

  lemma GetsAppend(env: map<Pos, Val>, xs: seq<Pos>, ys: seq<Pos>)
    ensures Gets(env, xs + ys) == Gets(env, xs) + Gets(env, ys)
  {
  }

  /** At the same moment of a run the data operands of an instruction have the same values in both graphs. */
  lemma EquivalentOperands(g: Graph, h: Graph, sem: Semantics, r: seq<Pos>)
    requires Equivalent(g, h, sem) && IsRun(g, r) && IsInst(g, Last(r))
    ensures IsInst(h, Last(r))
    ensures SameInst(At(g, Last(r)), At(h, Last(r)))
    ensures Gets(Exec(g, sem, r).env, DataDefs(At(h, Last(r)).inputs))
            == Gets(Exec(g, sem, r).env, DataDefs(At(g, Last(r)).inputs))
  {
    var x := Last(r);
    assert SameBlock(g[x.b], h[x.b]);
    assert SameInst(At(g, x), At(h, x));
    SameDataDefs(At(h, x).inputs, At(g, x).inputs, Exec(g, sem, r).env);
  }

  lemma ComputesTransfers(g: Graph, h: Graph, sem: Semantics, q: Pos, op: Opcode, typ: int, xs: seq<Pos>)
    requires Equivalent(g, h, sem) && Computes(g, sem, q, op, typ, xs) && IsPure(At(g, q).op)
    ensures Computes(h, sem, q, op, typ, xs)
  {
    assert SameBlock(g[q.b], h[q.b]);
    assert SameInst(At(g, q), At(h, q));
    forall j | 0 <= j < |xs|
      ensures IsInst(h, xs[j]) && Precedes(h, xs[j], q)
    {
      assert SameBlock(g[xs[j].b], h[xs[j].b]);
      SameShapePrecedes(g, h, xs[j], q);
    }
    forall r, t: nat | IsRun(h, r) && Last(r) == q
      ensures ValueOf(sem, At(h, q), q, t, Exec(h, sem, r)) == sem.pure(op, typ, Gets(Exec(h, sem, r).env, xs))
    {
      SameShapeRuns(g, h, r);
      EquivalentOperands(g, h, sem, r);
      assert ValueOf(sem, At(g, q), q, t, Exec(g, sem, r)) == sem.pure(op, typ, Gets(Exec(g, sem, r).env, xs));
    }
  }

  // ----- super checks -----

  /** On this run every super check that completed let its value through. */
  ghost predicate Feasible(g: Graph, sem: Semantics, r: seq<Pos>) {
    forall x, k :: DoneAt(r, x, k) && IsInst(g, x) && SuperKeyOf(At(g, x)).Some? ==> CheckPassed(g, sem, r, x, k)
  }

  ghost predicate CheckPassed(g: Graph, sem: Semantics, r: seq<Pos>, x: Pos, k: int)
    requires DoneAt(r, x, k) && IsInst(g, x) && SuperKeyOf(At(g, x)).Some?
  {
    var key := SuperKeyOf(At(g, x)).value;
    sem.passes(key.immediate, Get(Exec(g, sem, r[..k + 1]).env, key.input))
  }

  /** Whenever a feasible run is at `c`, the check there would let its value through. */
  ghost predicate Redundant(g: Graph, sem: Semantics, c: Pos) {
    && IsInst(g, c) && SuperKeyOf(At(g, c)).Some?
    && var key := SuperKeyOf(At(g, c)).value;
    forall r :: IsRun(g, r) && Last(r) == c && Feasible(g, sem, r) ==>
      sem.passes(key.immediate, Get(Exec(g, sem, r).env, key.input))
  }

  /** `q` is a check of the current value of `x`. */
  ghost predicate ChecksValue(g: Graph, sem: Semantics, q: Pos, x: Pos, imm: nat) {
    && IsInst(g, q) && SuperKeyOf(At(g, q)).Some? && SuperKeyOf(At(g, q)).value.immediate == imm
    && Precedes(g, x, q)
    && forall r :: IsRun(g, r) && Last(r) == q ==>
         Get(Exec(g, sem, r).env, SuperKeyOf(At(g, q)).value.input) == Get(Exec(g, sem, r).env, x)
  }

  /** The super key an instruction has after rewriting still names the value it checks. */
  lemma SuperKeyChecks(g: Graph, h: Graph, sem: Semantics, q: Pos)
    requires Equivalent(g, h, sem) && WellFormed(h) && IsInst(h, q) && SuperKeyOf(At(h, q)).Some?
    ensures var key := SuperKeyOf(At(h, q)).value; ChecksValue(g, sem, q, key.input, key.immediate)
  {
    assert SameBlock(g[q.b], h[q.b]);
    assert SameInst(At(g, q), At(h, q));
    SameDataCount(At(g, q).inputs, At(h, q).inputs);
    var key := SuperKeyOf(At(h, q)).value;
    assert UsesDefined(h, q);
    DataDefsDefined(h, q, 0);
    SameShapePrecedes(g, h, key.input, q);
    forall r | IsRun(g, r) && Last(r) == q
      ensures Get(Exec(g, sem, r).env, SuperKeyOf(At(g, q)).value.input) == Get(Exec(g, sem, r).env, key.input)
    {
      EquivalentOperands(g, h, sem, r);
      var env := Exec(g, sem, r).env;
      assert Gets(env, DataDefs(At(h, q).inputs))[0] == Gets(env, DataDefs(At(g, q).inputs))[0];
    }
  }

  lemma SameDataCount(a: seq<Input>, b: seq<Input>)
    requires |a| == |b| && (forall k :: 0 <= k < |a| ==> a[k].data == b[k].data)
    ensures |DataDefs(a)| == |DataDefs(b)|
    decreases |a|
  {
    if a != [] { SameDataCount(a[..|a| - 1], b[..|b| - 1]); }
  }

  /** A check dominated by the same check of the same value never fires. */
  lemma DominatedCheckIsRedundant(g: Graph, sem: Semantics, q: Pos, c: Pos, x: Pos, imm: nat)
    requires ChecksValue(g, sem, q, x, imm) && ChecksValue(g, sem, c, x, imm) && Precedes(g, q, c)
    ensures Redundant(g, sem, c)
  {
    forall r | IsRun(g, r) && Last(r) == c && Feasible(g, sem, r)
      ensures sem.passes(imm, Get(Exec(g, sem, r).env, SuperKeyOf(At(g, c)).value.input))
    {
      var k := LastCompletion(g, r, q);
      assert CheckPassed(g, sem, r, q, k);
      InputKept(g, sem, r, x, q, k);
    }
  }
}
