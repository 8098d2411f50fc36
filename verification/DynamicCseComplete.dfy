/** Which instructions the pass gives up, by their opcodes, inputs and places alone. */
module DynamicCseComplete {
  import opened Options
  import opened SsaGraph
  import opened SsaValues
  import opened DynamicCse
  import opened DynamicCsePass

  // ----- expressions and checks -----

  predicate OnlyData(inputs: seq<Input>, k: int) {
    0 <= k < |inputs| && inputs[k].data && forall l :: 0 <= l < |inputs| && l != k ==> !inputs[l].data
  }

  predicate OnlyTwoData(inputs: seq<Input>, k: int, l: int) {
    && 0 <= k < l < |inputs| && inputs[k].data && inputs[l].data
    && forall j :: 0 <= j < |inputs| && j != k && j != l ==> !inputs[j].data
  }

  predicate Numbered(vns: ValueNumbers, x: Pos, n: nat) {
    x in vns && vns[x] == n
  }

  /** A conversion of value number `m`, or a strict comparison of value numbers `m` and `n`. */
  ghost predicate Expresses(inst: Inst, vns: ValueNumbers, m: nat, n: nat) {
    if inst.op == IsTrue || inst.op == IsFalse then
      n == 0 && exists k :: OnlyData(inst.inputs, k) && Numbered(vns, inst.inputs[k].def, m)
    else
      && (inst.op == StrictEq || inst.op == StrictNotEq)
      && exists k, l :: OnlyTwoData(inst.inputs, k, l) && Numbered(vns, inst.inputs[k].def, m)
                        && Numbered(vns, inst.inputs[l].def, n)
  }

  ghost predicate IsExpression(inst: Inst, vns: ValueNumbers) {
    exists m, n :: Expresses(inst, vns, m, n)
  }

  ghost predicate SameExpression(inst: Inst, other: Inst, vns: ValueNumbers) {
    inst.op == other.op && inst.typ == other.typ
    && exists m, n :: Expresses(inst, vns, m, n) && Expresses(other, vns, m, n)
  }

  /** A check of `d` with one immediate, which is 0 or 1. */
  ghost predicate ChecksInput(inst: Inst, d: Pos, imm: nat) {
    && inst.op == ThrowIfSuperNotCorrectCall([imm]) && imm <= 1 && inst.typ == 0
    && exists k :: OnlyData(inst.inputs, k) && inst.inputs[k].def == d
  }

  ghost predicate IsCheck(inst: Inst) {
    exists d, imm :: ChecksInput(inst, d, imm)
  }

  ghost predicate SameCheck(inst: Inst, other: Inst) {
    exists d, imm :: ChecksInput(inst, d, imm) && ChecksInput(other, d, imm)
  }

  // ----- places -----

  /** `q` comes before `x` in its block, or in a block above it in the dominator tree. */
  predicate Above(dominators: seq<set<nat>>, q: Pos, x: Pos) {
    if q.b == x.b then q.i < x.i else x.b < |dominators| && q.b in dominators[x.b]
  }

  /** In one block, or both outside of exception regions. */
  predicate Together(g: Graph, q: Pos, x: Pos) {
    q.b < |g| && x.b < |g| && (q.b == x.b || !(g[q.b].eh || g[x.b].eh))
  }

  /** An instruction that is no phi uses `q` at `x` or below it. */
  ghost predicate UsedBelow(g: Graph, dominators: seq<set<nat>>, q: Pos, x: Pos) {
    exists y, k :: UsesBelow(g, dominators, q, x, y, k)
  }

  predicate UsesBelow(g: Graph, dominators: seq<set<nat>>, q: Pos, x: Pos, y: Pos, k: int) {
    && IsInst(g, y) && 0 <= k < |At(g, y).inputs| && At(g, y).inputs[k].def == q && !At(g, y).op.Phi?
    && (y == x || Above(dominators, x, y))
  }

  // ----- keys -----

  lemma SnocIs(a: seq<Pos>, x: Pos, init: seq<Pos>, last: Pos)
    ensures a + [x] == init + [last] <==> a == init && x == last
  {
    if a + [x] == init + [last] {
      assert (a + [x])[|a|] == (init + [last])[|a|];
      assert (a + [x])[..|a|] == a && (init + [last])[..|init|] == init;
    }
  }

  lemma {:induction false} NoDataDefs(inputs: seq<Input>)
    ensures DataDefs(inputs) == [] <==> forall l :: 0 <= l < |inputs| ==> !inputs[l].data
    decreases |inputs|
  {
    if inputs != [] { NoDataDefs(inputs[..|inputs| - 1]); }
  }

  lemma OneDataMore(inputs: seq<Input>, d: Pos)
    requires inputs != []
    ensures var n := |inputs| - 1;
            (exists k :: OnlyData(inputs, k) && inputs[k].def == d)
            <==> if inputs[n].data then inputs[n].def == d && forall l :: 0 <= l < n ==> !inputs[..n][l].data
                 else exists k :: OnlyData(inputs[..n], k) && inputs[..n][k].def == d
  {
    var n := |inputs| - 1;
    if inputs[n].data {
      if k :| OnlyData(inputs, k) && inputs[k].def == d { assert k == n; }
      if inputs[n].def == d && forall l :: 0 <= l < n ==> !inputs[..n][l].data {
        forall l | 0 <= l < |inputs| && l != n
          ensures !inputs[l].data
        {
          assert inputs[..n][l] == inputs[l];
        }
        assert OnlyData(inputs, n);
      }
    } else {
      assert forall k :: 0 <= k < n ==> (OnlyData(inputs, k) <==> OnlyData(inputs[..n], k));
    }
  }

  lemma {:induction false} OneDataDef(inputs: seq<Input>, d: Pos)
    ensures DataDefs(inputs) == [d] <==> exists k :: OnlyData(inputs, k) && inputs[k].def == d
    decreases |inputs|
  {
    if inputs != [] {
      var n := |inputs| - 1;
      NoDataDefs(inputs[..n]);
      OneDataDef(inputs[..n], d);
      SnocIs(DataDefs(inputs[..n]), inputs[n].def, [], d);
      OneDataMore(inputs, d);
    }
  }

  lemma {:induction false} TwoDataDefs(inputs: seq<Input>, d: Pos, e: Pos)
    ensures DataDefs(inputs) == [d, e] <==>
            exists k, l :: OnlyTwoData(inputs, k, l) && inputs[k].def == d && inputs[l].def == e
    decreases |inputs|
  {
    if inputs != [] {
      var n := |inputs| - 1;
      var init := inputs[..n];
      TwoDataDefs(init, d, e);
      OneDataDef(init, d);
      if inputs[n].data {
        SnocIs(DataDefs(init), inputs[n].def, [d], e);
        assert [d] + [e] == [d, e];
        assert forall k :: 0 <= k < n ==> (OnlyTwoData(inputs, k, n) <==> OnlyData(init, k));
        assert forall k, l :: OnlyTwoData(inputs, k, l) ==> l == n;
      } else {
        assert forall k, l :: 0 <= k < l < n ==> (OnlyTwoData(inputs, k, l) <==> OnlyTwoData(init, k, l));
      }
    }
  }

  function NumInputs(op: Opcode): nat {
    if op == IsTrue || op == IsFalse then 1 else 2
  }

  /** An instruction has a key exactly if it is such an expression, and then the key says which. */
  lemma KeyOfExpression(inst: Inst, vns: ValueNumbers, m: nat, n: nat)
    ensures Expresses(inst, vns, m, n) <==>
            KeyOf(inst, vns) == Some(ExpressionKey(inst.op, inst.typ, m, n, NumInputs(inst.op)))
  {
    var ds := DataDefs(inst.inputs);
    if inst.op == IsTrue || inst.op == IsFalse {
      if |ds| == 1 { OneDataDef(inst.inputs, ds[0]); }
      forall k | OnlyData(inst.inputs, k)
        ensures ds == [inst.inputs[k].def]
      {
        OneDataDef(inst.inputs, inst.inputs[k].def);
      }
    } else if inst.op == StrictEq || inst.op == StrictNotEq {
      if |ds| == 2 { TwoDataDefs(inst.inputs, ds[0], ds[1]); }
      forall k, l | OnlyTwoData(inst.inputs, k, l)
        ensures ds == [inst.inputs[k].def, inst.inputs[l].def]
      {
        TwoDataDefs(inst.inputs, inst.inputs[k].def, inst.inputs[l].def);
      }
    }
  }

  lemma KeyIsExpression(inst: Inst, vns: ValueNumbers)
    ensures KeyOf(inst, vns).Some? <==> IsExpression(inst, vns)
    ensures KeyOf(inst, vns).Some? ==>
              var key := KeyOf(inst, vns).value;
              key == ExpressionKey(inst.op, inst.typ, key.vn0, key.vn1, NumInputs(inst.op))
  {
    if KeyOf(inst, vns).Some? {
      KeyOfExpression(inst, vns, KeyOf(inst, vns).value.vn0, KeyOf(inst, vns).value.vn1);
    }
    if m, n :| Expresses(inst, vns, m, n) { KeyOfExpression(inst, vns, m, n); }
  }

  lemma SameKeyExactly(inst: Inst, other: Inst, vns: ValueNumbers)
    requires IsExpression(inst, vns)
    ensures KeyOf(inst, vns) == KeyOf(other, vns) <==> SameExpression(inst, other, vns)
  {
    KeyIsExpression(inst, vns);
    var key := KeyOf(inst, vns).value;
    KeyOfExpression(inst, vns, key.vn0, key.vn1);
    KeyOfExpression(other, vns, key.vn0, key.vn1);
    if SameExpression(inst, other, vns) {
      var m, n :| Expresses(inst, vns, m, n) && Expresses(other, vns, m, n);
      KeyOfExpression(inst, vns, m, n);
      KeyOfExpression(other, vns, m, n);
    }
  }

  lemma CheckKeyExactly(inst: Inst, d: Pos, imm: nat)
    ensures ChecksInput(inst, d, imm) <==> SuperKeyOf(inst) == Some(SuperCheckKey(d, imm))
  {
    OneDataDef(inst.inputs, d);
    var ds := DataDefs(inst.inputs);
    assert |ds| == 1 && ds[0] == d ==> ds == [d];
  }

  lemma SameCheckExactly(inst: Inst, other: Inst)
    ensures SuperKeyOf(inst).Some? <==> IsCheck(inst)
    ensures IsCheck(inst) ==> (SuperKeyOf(inst) == SuperKeyOf(other) <==> SameCheck(inst, other))
  {
    forall d, imm
      ensures ChecksInput(inst, d, imm) <==> SuperKeyOf(inst) == Some(SuperCheckKey(d, imm))
      ensures ChecksInput(other, d, imm) <==> SuperKeyOf(other) == Some(SuperCheckKey(d, imm))
    {
      CheckKeyExactly(inst, d, imm);
      CheckKeyExactly(other, d, imm);
    }
    if SuperKeyOf(inst).Some? {
      var key := SuperKeyOf(inst).value;
      assert ChecksInput(inst, key.input, key.immediate);
      assert SuperKeyOf(inst) == SuperKeyOf(other) ==> ChecksInput(other, key.input, key.immediate);
    }
  }

  // ----- the walk, state by state -----

  predicate Distinct(xs: seq<Pos>) {
    forall i, j :: 0 <= i < j < |xs| ==> xs[i] != xs[j]
  }

  /** `sts[k]` is the state in front of the visit of `xs[k]`; no instruction is visited twice. */
  ghost predicate Walk(c: Context, dominators: seq<set<nat>>, xs: seq<Pos>, sts: seq<PassState>) {
    && |sts| == |xs| + 1 && Distinct(xs)
    && Nothing(sts[0])
    && forall k :: 0 <= k < |xs| ==> Visits(c, dominators, xs, sts, k)
  }

  ghost predicate Visits(c: Context, dominators: seq<set<nat>>, xs: seq<Pos>, sts: seq<PassState>, k: nat)
    requires k < |xs| && |sts| == |xs| + 1
  {
    InstStep(c, dominators, sts[k], xs[k], sts[k + 1])
  }

  lemma {:induction false} StepsWalk(c: Context, dominators: seq<set<nat>>, st: PassState, xs: seq<Pos>, st': PassState)
    returns (sts: seq<PassState>)
    requires Steps(c, dominators, st, xs, st') && Distinct(xs) && Nothing(st)
    ensures WalkTo(c, dominators, st, xs, st', sts)
    decreases |xs|
  {
    if xs == [] {
      sts := EmptyWalk(c, dominators, st);
    } else {
      var mid := LastStep(c, dominators, st, xs, st');
      var before := StepsWalk(c, dominators, st, Front(xs), mid);
      sts := WalkMore(c, dominators, st, xs, before, mid, st');
    }
  }

  ghost predicate WalkTo(c: Context, dominators: seq<set<nat>>, st: PassState, xs: seq<Pos>, st': PassState,
      sts: seq<PassState>) {
    Walk(c, dominators, xs, sts) && sts[0] == st && sts[|xs|] == st'
  }

  /** Nothing was given up or recorded yet. */
  predicate Nothing(st: PassState) {
    st.removable == {} && st.candidates == map[] && st.superChecks == map[]
  }

  lemma EmptyWalk(c: Context, dominators: seq<set<nat>>, st: PassState) returns (sts: seq<PassState>)
    requires Nothing(st)
    ensures WalkTo(c, dominators, st, [], st, sts)
  {
    sts := [st];
  }

  lemma LastStep(c: Context, dominators: seq<set<nat>>, st: PassState, xs: seq<Pos>, st': PassState)
    returns (mid: PassState)
    requires xs != [] && Distinct(xs) && Steps(c, dominators, st, xs, st')
    ensures Distinct(Front(xs))
    ensures Steps(c, dominators, st, Front(xs), mid) && InstStep(c, dominators, mid, Back(xs), st')
  {
    mid :| Steps(c, dominators, st, Front(xs), mid) && InstStep(c, dominators, mid, Back(xs), st');
  }

  lemma WalkMore(c: Context, dominators: seq<set<nat>>, st: PassState, xs: seq<Pos>, before: seq<PassState>,
      mid: PassState, st': PassState)
    returns (sts: seq<PassState>)
    requires xs != [] && Distinct(xs) && WalkTo(c, dominators, st, Front(xs), mid, before)
    requires InstStep(c, dominators, mid, Back(xs), st')
    ensures WalkTo(c, dominators, st, xs, st', sts)
  {
    sts := before + [st'];
    forall k | 0 <= k < |xs|
      ensures Visits(c, dominators, xs, sts, k)
    {
      if k < |xs| - 1 { assert Visits(c, dominators, Front(xs), before, k); }
    }
  }

  /** An instruction is given up at its own visit or never. */
  lemma {:induction false} GivenUpOnce(c: Context, dominators: seq<set<nat>>, xs: seq<Pos>, sts: seq<PassState>, n: nat)
    requires Walk(c, dominators, xs, sts) && n <= |xs|
    ensures sts[n].removable <= set i | 0 <= i < n :: xs[i]
    ensures n > 0 ==> sts[n - 1].removable <= sts[n].removable <= sts[n - 1].removable + {xs[n - 1]}
    decreases n
  {
    if n > 0 {
      GivenUpOnce(c, dominators, xs, sts, n - 1);
      assert Visits(c, dominators, xs, sts, n - 1);
    }
  }

  lemma {:induction false} GivenUpAt(c: Context, dominators: seq<set<nat>>, xs: seq<Pos>, sts: seq<PassState>, i: nat,
      n: nat)
    requires Walk(c, dominators, xs, sts) && i < n <= |xs|
    ensures xs[i] in sts[n].removable <==> xs[i] in sts[i + 1].removable
    decreases n
  {
    if i + 1 < n {
      GivenUpAt(c, dominators, xs, sts, i, n - 1);
      GivenUpOnce(c, dominators, xs, sts, n);
    }
  }

  /** Instruction `i` was visited as an expression with this key and kept. */
  ghost predicate KeptAs(c: Context, xs: seq<Pos>, sts: seq<PassState>, i: nat, key: ExpressionKey)
    requires i < |xs| && |sts| == |xs| + 1
  {
    && IsInst(sts[i].graph, xs[i]) && SuperKeyOf(At(sts[i].graph, xs[i])).None?
    && KeyOf(At(sts[i].graph, xs[i]), c.vns) == Some(key) && xs[i] !in sts[i + 1].removable
  }

  ghost predicate KeptCheck(xs: seq<Pos>, sts: seq<PassState>, i: nat, key: SuperCheckKey)
    requires i < |xs| && |sts| == |xs| + 1
  {
    && IsInst(sts[i].graph, xs[i]) && SuperKeyOf(At(sts[i].graph, xs[i])) == Some(key)
    && xs[i] !in sts[i + 1].removable
  }

  /** The candidates for a key are the instructions that were kept with it. */
  lemma {:induction false} ListedAreKept(c: Context, dominators: seq<set<nat>>, xs: seq<Pos>, sts: seq<PassState>,
      n: nat, key: ExpressionKey, q: Pos)
    requires Walk(c, dominators, xs, sts) && n <= |xs|
    ensures q in Producers(sts[n], key) <==> exists i :: 0 <= i < n && xs[i] == q && KeptAs(c, xs, sts, i, key)
    decreases n
  {
    if n > 0 {
      ListedAreKept(c, dominators, xs, sts, n - 1, key, q);
      GivenUpOnce(c, dominators, xs, sts, n - 1);
      assert Visits(c, dominators, xs, sts, n - 1);
      assert q in Producers(sts[n], key) <==>
             q in Producers(sts[n - 1], key) || (xs[n - 1] == q && KeptAs(c, xs, sts, n - 1, key));
    }
  }

  /** One visit adds the instruction to the list of its own key, if it is a check that is kept. */
  lemma ChecksListed(c: Context, dominators: seq<set<nat>>, st: PassState, x: Pos, st': PassState, key: SuperCheckKey,
      q: Pos)
    requires InstStep(c, dominators, st, x, st') && x !in st.removable
    ensures q in Checks(st', key) <==>
            q in Checks(st, key) || (q == x && SuperKeyOf(At(st.graph, x)) == Some(key) && x !in st'.removable)
  {
    var own := SuperKeyOf(At(st.graph, x));
    if own.Some? { CheckListed(dominators, st, x, own.value, st', key, q); }
  }

  lemma CheckListed(dominators: seq<set<nat>>, st: PassState, x: Pos, own: SuperCheckKey, st': PassState,
      key: SuperCheckKey, q: Pos)
    requires CheckStep(dominators, st, x, own, st') && x !in st.removable
    ensures q in Checks(st', key) <==> q in Checks(st, key) || (q == x && own == key && x !in st'.removable)
  {
  }

  lemma {:induction false} ChecksAreKept(c: Context, dominators: seq<set<nat>>, xs: seq<Pos>, sts: seq<PassState>,
      n: nat, key: SuperCheckKey, q: Pos)
    requires Walk(c, dominators, xs, sts) && n <= |xs|
    ensures q in Checks(sts[n], key) <==> exists i :: 0 <= i < n && xs[i] == q && KeptCheck(xs, sts, i, key)
    decreases n
  {
    if n > 0 {
      ChecksAreKept(c, dominators, xs, sts, n - 1, key, q);
      GivenUpOnce(c, dominators, xs, sts, n - 1);
      assert Visits(c, dominators, xs, sts, n - 1);
      ChecksListed(c, dominators, sts[n - 1], xs[n - 1], sts[n], key, q);
    }
  }

  // ----- what is given up -----

  /** A place where `q` may stand in for `x`. */
  ghost predicate StandsFor(g: Graph, dominators: seq<set<nat>>, q: Pos, x: Pos) {
    Above(dominators, q, x) && Together(g, q, x)
  }

  lemma ReusableExactly(g: Graph, dominators: seq<set<nat>>, q: Pos, x: Pos, live: bool)
    requires q != x
    ensures Reusable(g, dominators, q, x, live) <==>
            StandsFor(g, dominators, q, x) && (live ==> UsedBelow(g, dominators, q, x))
  {
    if IsAlreadyLiveAcross(g, dominators, q, x) {
      var b, i, k :| 0 <= b < |g| && 0 <= i < |g[b].insts| && 0 <= k < |g[b].insts[i].inputs|
        && g[b].insts[i].inputs[k].def == q && !g[b].insts[i].op.Phi? && IsDominate(dominators, x, Pos(b, i));
      assert UsesBelow(g, dominators, q, x, Pos(b, i), k);
    }
    if y, k :| UsesBelow(g, dominators, q, x, y, k) {
      assert y == Pos(y.b, y.i) && IsDominate(dominators, x, y);
      assert g[y.b].insts[y.i].inputs[k].def == q;
    }
  }

  /** The instruction visited at `i` was kept, is the same expression as the one visited at `j`, and can replace it. */
  ghost predicate Replaces(c: Context, dominators: seq<set<nat>>, xs: seq<Pos>, sts: seq<PassState>, i: nat, j: nat)
    requires i < |xs| && j < |xs| && |sts| == |xs| + 1
  {
    var q, x := xs[i], xs[j];
    && IsInst(sts[i].graph, q) && IsInst(sts[j].graph, x) && q !in sts[|xs|].removable
    && SameExpression(At(sts[j].graph, x), At(sts[i].graph, q), c.vns)
    && StandsFor(sts[j].graph, dominators, q, x) && UsedBelow(sts[j].graph, dominators, q, x)
  }

  ghost predicate Repeats(dominators: seq<set<nat>>, xs: seq<Pos>, sts: seq<PassState>, i: nat, j: nat)
    requires i < |xs| && j < |xs| && |sts| == |xs| + 1
  {
    var q, x := xs[i], xs[j];
    && IsInst(sts[i].graph, q) && IsInst(sts[j].graph, x) && q !in sts[|xs|].removable
    && SameCheck(At(sts[j].graph, x), At(sts[i].graph, q)) && StandsFor(sts[j].graph, dominators, q, x)
  }

  lemma ReplacesExactly(c: Context, dominators: seq<set<nat>>, xs: seq<Pos>, sts: seq<PassState>, i: nat, j: nat)
    requires Walk(c, dominators, xs, sts) && i < j < |xs|
    requires IsInst(sts[j].graph, xs[j]) && IsExpression(At(sts[j].graph, xs[j]), c.vns)
    ensures KeyOf(At(sts[j].graph, xs[j]), c.vns).Some?
    ensures Replaces(c, dominators, xs, sts, i, j) <==>
            && KeptAs(c, xs, sts, i, KeyOf(At(sts[j].graph, xs[j]), c.vns).value)
            && Reusable(sts[j].graph, dominators, xs[i], xs[j], true)
  {
    assert Visits(c, dominators, xs, sts, i);
    KeyIsExpression(At(sts[j].graph, xs[j]), c.vns);
    SameKeyExactly(At(sts[j].graph, xs[j]), At(sts[i].graph, xs[i]), c.vns);
    ReusableExactly(sts[j].graph, dominators, xs[i], xs[j], true);
    GivenUpAt(c, dominators, xs, sts, i, |xs|);
  }

  lemma RepeatsExactly(c: Context, dominators: seq<set<nat>>, xs: seq<Pos>, sts: seq<PassState>, i: nat, j: nat)
    requires Walk(c, dominators, xs, sts) && i < j < |xs|
    requires IsInst(sts[j].graph, xs[j]) && IsCheck(At(sts[j].graph, xs[j]))
    ensures SuperKeyOf(At(sts[j].graph, xs[j])).Some?
    ensures Repeats(dominators, xs, sts, i, j) <==>
            && KeptCheck(xs, sts, i, SuperKeyOf(At(sts[j].graph, xs[j])).value)
            && Reusable(sts[j].graph, dominators, xs[i], xs[j], false)
  {
    assert Visits(c, dominators, xs, sts, i);
    SameCheckExactly(At(sts[j].graph, xs[j]), At(sts[i].graph, xs[i]));
    ReusableExactly(sts[j].graph, dominators, xs[i], xs[j], false);
    GivenUpAt(c, dominators, xs, sts, i, |xs|);
  }

  lemma FirstReusableExists(g: Graph, dominators: seq<set<nat>>, qs: seq<Pos>, x: Pos, live: bool, r: Option<Pos>)
    requires IsFirstReusable(g, dominators, qs, x, live, r)
    ensures r.Some? <==> exists q :: q in qs && Reusable(g, dominators, q, x, live)
  {
    if q :| q in qs && Reusable(g, dominators, q, x, live) {
      var i :| 0 <= i < |qs| && qs[i] == q;
    }
  }

  /** An expression is given up exactly when a candidate for its key can replace it. */
  lemma ExpressionVisit(dominators: seq<set<nat>>, st: PassState, x: Pos, key: ExpressionKey, st': PassState)
    requires ExpressionStep(dominators, st, x, key, st') && x !in st.removable
    ensures x in st'.removable <==> exists q :: q in Producers(st, key) && Reusable(st.graph, dominators, q, x, true)
  {
    var r :| IsFirstReusable(st.graph, dominators, Producers(st, key), x, true, r)
      && st' == if r.Some? then
                  st.(graph := ReplacedUsers(st.graph, x, r.value), seen := st.seen + {x},
                      removable := st.removable + {x})
                else st.(seen := st.seen + {x}, candidates := st.candidates[key := Producers(st, key) + [x]]);
    FirstReusableExists(st.graph, dominators, Producers(st, key), x, true, r);
  }

  lemma CheckVisit(dominators: seq<set<nat>>, st: PassState, x: Pos, key: SuperCheckKey, st': PassState)
    requires CheckStep(dominators, st, x, key, st') && x !in st.removable
    ensures x in st'.removable <==> exists q :: q in Checks(st, key) && Reusable(st.graph, dominators, q, x, false)
  {
    var r :| IsFirstReusable(st.graph, dominators, Checks(st, key), x, false, r)
      && st' == if r.Some? then st.(seen := st.seen + {x}, removable := st.removable + {x})
                else st.(seen := st.seen + {x}, superChecks := st.superChecks[key := Checks(st, key) + [x]]);
    FirstReusableExists(st.graph, dominators, Checks(st, key), x, false, r);
  }

  /**
   * A conversion or strict comparison is given up if and only if an earlier one of the same opcode, type and value
   * numbers was kept that stands above it, in a place where it may be used, and is used at it or below it anyway.
   */
  lemma ExpressionsGivenUp(c: Context, dominators: seq<set<nat>>, xs: seq<Pos>, sts: seq<PassState>, j: nat)
    requires Walk(c, dominators, xs, sts) && j < |xs|
    requires IsInst(sts[j].graph, xs[j]) && IsExpression(At(sts[j].graph, xs[j]), c.vns)
    ensures xs[j] in sts[|xs|].removable <==> exists i: nat :: i < j && Replaces(c, dominators, xs, sts, i, j)
  {
    var x := xs[j];
    KeyIsExpression(At(sts[j].graph, x), c.vns);
    var key := KeyOf(At(sts[j].graph, x), c.vns).value;
    assert Visits(c, dominators, xs, sts, j);
    GivenUpOnce(c, dominators, xs, sts, j);
    GivenUpAt(c, dominators, xs, sts, j, |xs|);
    ExpressionVisit(dominators, sts[j], x, key, sts[j + 1]);
    if q :| q in Producers(sts[j], key) && Reusable(sts[j].graph, dominators, q, x, true) {
      ListedAreKept(c, dominators, xs, sts, j, key, q);
      var i :| 0 <= i < j && xs[i] == q && KeptAs(c, xs, sts, i, key);
      ReplacesExactly(c, dominators, xs, sts, i, j);
    }
    if i: nat :| i < j && Replaces(c, dominators, xs, sts, i, j) {
      ReplacesExactly(c, dominators, xs, sts, i, j);
      ListedAreKept(c, dominators, xs, sts, j, key, xs[i]);
    }
  }

  // ----- which one takes the users over -----

  /** Instruction `i` was visited in front of instruction `j`. */
  ghost predicate VisitedBefore(xs: seq<Pos>, q: Pos, p: Pos) {
    exists i, j :: 0 <= i < j < |xs| && xs[i] == q && xs[j] == p
  }

  /** Candidates are listed in the order of their visits. */
  ghost predicate InVisitOrder(xs: seq<Pos>, qs: seq<Pos>) {
    forall a, b :: 0 <= a < b < |qs| ==> VisitedBefore(xs, qs[a], qs[b])
  }

  lemma {:induction false} ListedInOrder(c: Context, dominators: seq<set<nat>>, xs: seq<Pos>, sts: seq<PassState>,
      n: nat, key: ExpressionKey)
    requires Walk(c, dominators, xs, sts) && n <= |xs|
    ensures InVisitOrder(xs, Producers(sts[n], key))
    decreases n
  {
    if n > 0 {
      ListedInOrder(c, dominators, xs, sts, n - 1, key);
      assert Visits(c, dominators, xs, sts, n - 1);
      var qs := Producers(sts[n - 1], key);
      forall q | q in qs
        ensures VisitedBefore(xs, q, xs[n - 1])
      {
        ListedAreKept(c, dominators, xs, sts, n - 1, key, q);
      }
      ListGrows(c, dominators, sts[n - 1], xs[n - 1], sts[n], key);
      OneMoreInOrder(xs, qs, xs[n - 1]);
    }
  }

  lemma ListGrows(c: Context, dominators: seq<set<nat>>, st: PassState, x: Pos, st': PassState, key: ExpressionKey)
    requires InstStep(c, dominators, st, x, st')
    ensures Producers(st', key) == Producers(st, key) || Producers(st', key) == Producers(st, key) + [x]
  {
  }

  lemma OneMoreInOrder(xs: seq<Pos>, qs: seq<Pos>, x: Pos)
    requires InVisitOrder(xs, qs) && forall q :: q in qs ==> VisitedBefore(xs, q, x)
    ensures InVisitOrder(xs, qs + [x])
  {
    var more := qs + [x];
    forall a, b | 0 <= a < b < |more|
      ensures VisitedBefore(xs, more[a], more[b])
    {
      assert more[a] in qs;
    }
  }

  /** The users of an expression that is given up go to the first visited one of those that can replace it. */
  ghost predicate TakesOver(c: Context, dominators: seq<set<nat>>, xs: seq<Pos>, sts: seq<PassState>, i: nat, j: nat)
    requires i < |xs| && j < |xs| && |sts| == |xs| + 1
  {
    && i < j && Replaces(c, dominators, xs, sts, i, j)
    && (forall k :: 0 <= k < i ==> !Replaces(c, dominators, xs, sts, k, j))
    && sts[j + 1].graph == ReplacedUsers(sts[j].graph, xs[j], xs[i])
  }

  lemma UsersTakenOver(c: Context, dominators: seq<set<nat>>, xs: seq<Pos>, sts: seq<PassState>, j: nat)
    returns (i: nat)
    requires Walk(c, dominators, xs, sts) && j < |xs| && xs[j] in sts[|xs|].removable
    requires IsInst(sts[j].graph, xs[j]) && IsExpression(At(sts[j].graph, xs[j]), c.vns)
    ensures i < |xs| && TakesOver(c, dominators, xs, sts, i, j)
  {
    var x := xs[j];
    KeyIsExpression(At(sts[j].graph, x), c.vns);
    var key := KeyOf(At(sts[j].graph, x), c.vns).value;
    assert Visits(c, dominators, xs, sts, j);
    GivenUpOnce(c, dominators, xs, sts, j);
    GivenUpAt(c, dominators, xs, sts, j, |xs|);
    var q := Replacement(dominators, sts[j], x, key, sts[j + 1]);
    ListedAreKept(c, dominators, xs, sts, j, key, q);
    i :| 0 <= i < j && xs[i] == q && KeptAs(c, xs, sts, i, key);
    ReplacesExactly(c, dominators, xs, sts, i, j);
    forall k | 0 <= k < i
      ensures !Replaces(c, dominators, xs, sts, k, j)
    {
      NoEarlierOne(c, dominators, xs, sts, k, i, j, key);
    }
  }

  /** The candidate that is taken: the first reusable one of the list. */
  ghost predicate FirstTaken(g: Graph, dominators: seq<set<nat>>, qs: seq<Pos>, x: Pos, q: Pos) {
    exists a :: 0 <= a < |qs| && qs[a] == q && Reusable(g, dominators, q, x, true)
                && forall b :: 0 <= b < a ==> !Reusable(g, dominators, qs[b], x, true)
  }

  lemma Replacement(dominators: seq<set<nat>>, st: PassState, x: Pos, key: ExpressionKey, st': PassState)
    returns (q: Pos)
    requires ExpressionStep(dominators, st, x, key, st') && x !in st.removable && x in st'.removable
    ensures q in Producers(st, key) && FirstTaken(st.graph, dominators, Producers(st, key), x, q)
    ensures st'.graph == ReplacedUsers(st.graph, x, q)
  {
    var r :| IsFirstReusable(st.graph, dominators, Producers(st, key), x, true, r)
      && st' == if r.Some? then
                  st.(graph := ReplacedUsers(st.graph, x, r.value), seen := st.seen + {x},
                      removable := st.removable + {x})
                else st.(seen := st.seen + {x}, candidates := st.candidates[key := Producers(st, key) + [x]]);
    q := r.value;
  }

  lemma NoEarlierOne(c: Context, dominators: seq<set<nat>>, xs: seq<Pos>, sts: seq<PassState>, k: nat, i: nat, j: nat,
      key: ExpressionKey)
    requires Walk(c, dominators, xs, sts) && k < i < j < |xs|
    requires IsInst(sts[j].graph, xs[j]) && IsExpression(At(sts[j].graph, xs[j]), c.vns)
    requires KeyOf(At(sts[j].graph, xs[j]), c.vns) == Some(key)
    requires FirstTaken(sts[j].graph, dominators, Producers(sts[j], key), xs[j], xs[i])
    ensures !Replaces(c, dominators, xs, sts, k, j)
  {
    ReplacesExactly(c, dominators, xs, sts, k, j);
    if Replaces(c, dominators, xs, sts, k, j) {
      ListedAreKept(c, dominators, xs, sts, j, key, xs[k]);
      ListedInOrder(c, dominators, xs, sts, j, key);
      FirstIsFirst(sts[j].graph, dominators, xs, Producers(sts[j], key), xs[j], k, i);
    }
  }

  /** In a list in the order of the visits the first reusable one was visited first. */
  lemma FirstIsFirst(g: Graph, dominators: seq<set<nat>>, xs: seq<Pos>, qs: seq<Pos>, x: Pos, k: nat, i: nat)
    requires Distinct(xs) && InVisitOrder(xs, qs) && i < |xs| && k < |xs| && xs[k] in qs
    requires FirstTaken(g, dominators, qs, x, xs[i]) && Reusable(g, dominators, xs[k], x, true)
    ensures i <= k
  {
    var a :| 0 <= a < |qs| && qs[a] == xs[i] && forall b :: 0 <= b < a ==> !Reusable(g, dominators, qs[b], x, true);
    var b :| 0 <= b < |qs| && qs[b] == xs[k];
    if a < b { assert VisitedBefore(xs, qs[a], qs[b]); }
  }

  /** A super check is given up if and only if an earlier one of the same input and immediate was kept above it. */
  lemma ChecksGivenUp(c: Context, dominators: seq<set<nat>>, xs: seq<Pos>, sts: seq<PassState>, j: nat)
    requires Walk(c, dominators, xs, sts) && j < |xs|
    requires IsInst(sts[j].graph, xs[j]) && IsCheck(At(sts[j].graph, xs[j]))
    ensures xs[j] in sts[|xs|].removable <==> exists i: nat :: i < j && Repeats(dominators, xs, sts, i, j)
  {
    var x := xs[j];
    SameCheckExactly(At(sts[j].graph, x), At(sts[j].graph, x));
    var key := SuperKeyOf(At(sts[j].graph, x)).value;
    assert Visits(c, dominators, xs, sts, j);
    GivenUpOnce(c, dominators, xs, sts, j);
    GivenUpAt(c, dominators, xs, sts, j, |xs|);
    CheckVisit(dominators, sts[j], x, key, sts[j + 1]);
    if q :| q in Checks(sts[j], key) && Reusable(sts[j].graph, dominators, q, x, false) {
      ChecksAreKept(c, dominators, xs, sts, j, key, q);
      var i :| 0 <= i < j && xs[i] == q && KeptCheck(xs, sts, i, key);
      RepeatsExactly(c, dominators, xs, sts, i, j);
    }
    if i: nat :| i < j && Repeats(dominators, xs, sts, i, j) {
      RepeatsExactly(c, dominators, xs, sts, i, j);
      ChecksAreKept(c, dominators, xs, sts, j, key, xs[i]);
    }
  }

  /** Nothing else is given up, and at every other visit the graph stays as it is. */
  lemma OthersKept(c: Context, dominators: seq<set<nat>>, xs: seq<Pos>, sts: seq<PassState>, j: nat)
    requires Walk(c, dominators, xs, sts) && j < |xs|
    ensures IsInst(sts[j].graph, xs[j])
    ensures var inst := At(sts[j].graph, xs[j]);
            !IsExpression(inst, c.vns) && !IsCheck(inst) ==>
              xs[j] !in sts[|xs|].removable && sts[j + 1].graph == sts[j].graph
  {
    assert Visits(c, dominators, xs, sts, j);
    var inst := At(sts[j].graph, xs[j]);
    KeyIsExpression(inst, c.vns);
    SameCheckExactly(inst, inst);
    GivenUpOnce(c, dominators, xs, sts, j);
    GivenUpAt(c, dominators, xs, sts, j, |xs|);
  }

  /** An expression that was given up has no user left in the graph the pass leaves. */
  lemma GivenUpIsUnused(original: Graph, graph: Graph, sem: Semantics, x: Pos)
    requires Removable(original, graph, sem, x) && IsInst(original, x)
    requires var op := At(original, x).op; op == IsTrue || op == IsFalse || op == StrictEq || op == StrictNotEq
    ensures forall y, i :: IsInst(graph, y) && 0 <= i < |At(graph, y).inputs| ==> At(graph, y).inputs[i].def != x
    ensures forall y, s :: IsInst(graph, y) && s in At(graph, y).phi ==> At(graph, y).phi[s] != x
  {
    assert Unused(graph, x);
    forall y | IsInst(graph, y)
      ensures !Uses(At(graph, y), x)
    {
    }
  }

  // ----- the whole walk -----

  /** `x` is in an earlier block of the order than `y`, or earlier in the same one. */
  ghost predicate Earlier(order: seq<nat>, x: Pos, y: Pos) {
    exists k, l :: 0 <= k <= l < |order| && order[k] == x.b && order[l] == y.b && (k < l || x.i < y.i)
  }

  lemma IsEarlier(order: seq<nat>, x: Pos, y: Pos, k: nat, l: nat)
    requires k <= l < |order| && order[k] == x.b && order[l] == y.b && (k < l || x.i < y.i)
    ensures Earlier(order, x, y)
  {
  }

  ghost predicate Ordered(order: seq<nat>, xs: seq<Pos>) {
    forall i, j :: 0 <= i < j < |xs| ==> Earlier(order, xs[i], xs[j])
  }

  /** The pass visits every instruction of the listed blocks, once, in the order of the blocks. */
  lemma {:induction false} VisitsAll(g: Graph, order: seq<nat>, n: nat)
    requires n <= |order| && IsOrder(g, order)
    ensures forall x :: x in Visited(g, order, n) <==> IsInst(g, x) && x.b in order[..n]
    ensures Ordered(order, Visited(g, order, n))
    decreases n
  {
    if n > 0 {
      VisitsAll(g, order, n - 1);
      var before, b := Visited(g, order, n - 1), order[n - 1];
      var xs, own := Visited(g, order, n), InBlock(b, |g[b].insts|);
      assert xs == before + own && order[..n] == order[..n - 1] + [b];
      forall x
        ensures x in own <==> IsInst(g, x) && x.b == b
      {
        if IsInst(g, x) && x.b == b { assert own[x.i] == x; }
      }
      forall i, j | 0 <= i < j < |xs|
        ensures Earlier(order, xs[i], xs[j])
      {
        if i < |before| <= j {
          assert xs[i] in before;
          var k :| 0 <= k < n - 1 && order[k] == xs[i].b;
          IsEarlier(order, xs[i], xs[j], k, n - 1);
        } else if |before| <= i {
          IsEarlier(order, xs[i], xs[j], n - 1, n - 1);
        } else {
          assert Earlier(order, before[i], before[j]);
        }
      }
    }
  }

  lemma EarlierIsOther(g: Graph, order: seq<nat>, x: Pos, y: Pos)
    requires IsOrder(g, order) && Earlier(order, x, y)
    ensures x != y
  {
    var k, l :| 0 <= k <= l < |order| && order[k] == x.b && order[l] == y.b && (k < l || x.i < y.i);
  }

  lemma VisitedOnce(g: Graph, order: seq<nat>)
    requires IsOrder(g, order)
    ensures Distinct(Visited(g, order, |order|))
  {
    var xs := Visited(g, order, |order|);
    VisitsAll(g, order, |order|);
    forall i, j | 0 <= i < j < |xs|
      ensures xs[i] != xs[j]
    {
      EarlierIsOther(g, order, xs[i], xs[j]);
    }
  }

  /** What a run of the pass leaves comes about state by state, as the theorems above have it. */
  lemma WalkOfRun(c: Context, dominators: seq<set<nat>>, st: PassState, order: seq<nat>, st': PassState)
    returns (sts: seq<PassState>)
    requires IsOrder(c.original, order) && Steps(c, dominators, st, Visited(c.original, order, |order|), st')
    requires Nothing(st)
    ensures Walk(c, dominators, Visited(c.original, order, |order|), sts)
    ensures sts[0] == st && sts[|sts| - 1] == st'
  {
    VisitedOnce(c.original, order);
    sts := StepsWalk(c, dominators, st, Visited(c.original, order, |order|), st');
  }
}
