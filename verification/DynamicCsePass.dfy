/** The pass: one walk over the blocks that grows the candidate maps and rewrites users in place. */
module DynamicCsePass {
  import opened Options
  import opened SsaGraph
  import opened SsaValues
  import opened DynamicCse
  import opened DynamicCseSound
  import opened DynamicCseEquiv

  ghost predicate KeyMatches(vns: ValueNumbers, xs: seq<Pos>, key: ExpressionKey) {
    && 1 <= |xs| <= 2 && |xs| == key.count && IsPure(key.op)
    && (forall j :: 0 <= j < |xs| ==> xs[j] in vns)
    && vns[xs[0]] == key.vn0 && (|xs| == 2 ==> vns[xs[1]] == key.vn1)
  }

  ghost predicate Unused(g: Graph, x: Pos) {
    forall y :: IsInst(g, y) ==> !Uses(At(g, y), x)
  }

  ghost predicate Uses(inst: Inst, x: Pos) {
    (exists i :: 0 <= i < |inst.inputs| && inst.inputs[i].def == x) || (exists s :: s in inst.phi && inst.phi[s] == x)
  }

  lemma ReplacedIsUnused(g: Graph, c: Pos, p: Pos, x: Pos)
    requires x == c || Unused(g, x)
    requires p != x
    ensures Unused(ReplacedUsers(g, c, p), x)
  {
    var h := ReplacedUsers(g, c, p);
    forall y | IsInst(h, y)
      ensures !Uses(At(h, y), x)
    {
      assert IsInst(g, y) && At(h, y) == ReplacedInst(At(g, y), c, p);
      var i, j := At(g, y), At(h, y);
      forall k | 0 <= k < |j.inputs|
        ensures j.inputs[k].def != x
      {
        assert j.inputs[k].def == ReplacedDef(i.inputs[k].def, c, p);
      }
      forall s | s in j.phi
        ensures j.phi[s] != x
      {
        assert j.phi[s] == ReplacedDef(i.phi[s], c, p);
      }
    }
  }

  /** A duplicate nobody uses any more, or a check that cannot fire: safe to delete. */
  ghost predicate Removable(original: Graph, graph: Graph, sem: Semantics, x: Pos) {
    Redundant(original, sem, x) || (IsDuplicate(original, sem, x) && Unused(graph, x))
  }

  ghost predicate IsDuplicate(g: Graph, sem: Semantics, x: Pos) {
    exists q :: Duplicates(g, sem, q, x)
  }

  /** What makes a recorded producer usable for every later instruction with its key. */
  ghost predicate Producer(g: Graph, sem: Semantics, vns: ValueNumbers, key: ExpressionKey, q: Pos) {
    && IsInst(g, q) && IsPure(At(g, q).op)
    && exists xs :: Computes(g, sem, q, key.op, key.typ, xs) && KeyMatches(vns, xs, key)
  }

  lemma KeyIsProducer(g: Graph, h: Graph, sem: Semantics, vns: ValueNumbers, q: Pos)
    requires Equivalent(g, h, sem) && WellFormed(h) && IsInst(h, q) && KeyOf(At(h, q), vns).Some?
    ensures Producer(g, sem, vns, KeyOf(At(h, q), vns).value, q)
  {
    var key := KeyOf(At(h, q), vns).value;
    var xs := DataDefs(At(h, q).inputs);
    assert UsesDefined(h, q);
    forall j | 0 <= j < |xs|
      ensures IsInst(h, xs[j]) && Precedes(h, xs[j], q)
    {
      DataDefsDefined(h, q, j);
    }
    assert Computes(h, sem, q, key.op, key.typ, xs);
    EquivalentSymmetric(g, h, sem);
    ComputesTransfers(h, g, sem, q, key.op, key.typ, xs);
    assert SameBlock(h[q.b], g[q.b]);
    assert SameInst(At(h, q), At(g, q));
    assert KeyMatches(vns, xs, key);
  }

  /** A dominating producer with the same key makes `c` a duplicate, in the original graph and in the current one. */
  lemma ProducerDuplicates(g: Graph, h: Graph, sem: Semantics, vns: ValueNumbers, q: Pos, c: Pos)
    requires Equivalent(g, h, sem) && WellFormed(h) && VnSound(g, sem, vns)
    requires IsInst(h, c) && KeyOf(At(h, c), vns).Some? && Precedes(g, q, c)
    requires Producer(g, sem, vns, KeyOf(At(h, c), vns).value, q)
    ensures Duplicates(h, sem, q, c) && Duplicates(g, sem, q, c)
  {
    var key := KeyOf(At(h, c), vns).value;
    var xs :| Computes(g, sem, q, key.op, key.typ, xs) && KeyMatches(vns, xs, key);
    DuplicatesNow(g, h, sem, vns, q, c, xs);
    DuplicatesTransfers(g, h, sem, q, c);
  }

  lemma DuplicatesNow(g: Graph, h: Graph, sem: Semantics, vns: ValueNumbers, q: Pos, c: Pos, xs: seq<Pos>)
    requires Equivalent(g, h, sem) && WellFormed(h) && VnSound(g, sem, vns)
    requires IsInst(h, c) && KeyOf(At(h, c), vns).Some? && Precedes(g, q, c)
    requires var key := KeyOf(At(h, c), vns).value; Computes(g, sem, q, key.op, key.typ, xs) && KeyMatches(vns, xs, key)
    requires IsInst(g, q) && IsPure(At(g, q).op)
    ensures Duplicates(h, sem, q, c)
  {
    var key := KeyOf(At(h, c), vns).value;
    ComputesTransfers(g, h, sem, q, key.op, key.typ, xs);
    EquivalentKeepsVn(g, h, sem, vns);
    SameShapePrecedes(g, h, q, c);
    SameKeyDuplicates(h, sem, vns, q, key.op, key.typ, xs, c);
  }

  lemma DuplicatesTransfers(g: Graph, h: Graph, sem: Semantics, q: Pos, c: Pos)
    requires Equivalent(g, h, sem) && Duplicates(h, sem, q, c) && IsPure(At(h, c).op)
    ensures Duplicates(g, sem, q, c)
  {
    assert SameBlock(g[c.b], h[c.b]) && SameBlock(g[q.b], h[q.b]);
    SameShapePrecedes(g, h, q, c);
    forall r, t: nat | IsRun(g, r) && Last(r) == c
      ensures ValueOf(sem, At(g, c), c, t, Exec(g, sem, r)) == Get(Exec(g, sem, r).env, q)
    {
      SameShapeRuns(g, h, r);
      EquivalentOperands(g, h, sem, r);
      assert ValueOf(sem, At(h, c), c, t, Exec(h, sem, r)) == Get(Exec(h, sem, r).env, q);
    }
  }

  lemma SameNodes(g: Graph, h: Graph)
    requires SameShape(g, h)
    ensures forall x :: IsInst(g, x) <==> IsInst(h, x)
  {
    forall b | 0 <= b < |g|
      ensures |g[b].insts| == |h[b].insts|
    {
      assert SameBlock(g[b], h[b]);
    }
  }

  lemma SameLengths(g: Graph, h: Graph, b: nat)
    requires SameShape(g, h) && b < |g|
    ensures |h| == |g| && |g[b].insts| == |h[b].insts|
  {
    assert SameBlock(g[b], h[b]);
  }

  lemma DataDefsStep(inputs: seq<Input>, i: nat)
    requires i < |inputs|
    ensures DataDefs(inputs[..i + 1]) == DataDefs(inputs[..i]) + if inputs[i].data then [inputs[i].def] else []
  {
    assert inputs[..i + 1][..i] == inputs[..i];
  }

  lemma DataDefsPrefix(inputs: seq<Input>, i: nat)
    requires i <= |inputs|
    ensures DataDefs(inputs[..i]) <= DataDefs(inputs)
    decreases |inputs| - i
  {
    if i < |inputs| {
      DataDefsStep(inputs, i);
      DataDefsPrefix(inputs, i + 1);
    } else {
      assert inputs[..i] == inputs;
    }
  }

  /** The pass reads `original` through its dominator tree and value numbers. */
  datatype Context = Context(original: Graph, sem: Semantics, vns: ValueNumbers)

  datatype PassState = PassState(
    graph: Graph,
    removable: set<Pos>,
    candidates: map<ExpressionKey, seq<Pos>>,
    superChecks: map<SuperCheckKey, seq<Pos>>,
    seen: set<Pos>)

  ghost predicate ProducersOk(c: Context, key: ExpressionKey, qs: seq<Pos>, live: set<Pos>) {
    forall i :: 0 <= i < |qs| ==> Producer(c.original, c.sem, c.vns, key, qs[i]) && qs[i] in live
  }

  ghost predicate ChecksOk(c: Context, key: SuperCheckKey, qs: seq<Pos>, seen: set<Pos>) {
    forall i :: 0 <= i < |qs| ==> ChecksValue(c.original, c.sem, qs[i], key.input, key.immediate) && qs[i] in seen
  }

  /** What every step of the walk keeps. */
  ghost predicate Inv(c: Context, st: PassState) {
    && Equivalent(c.original, st.graph, c.sem) && WellFormed(st.graph) && VnSound(c.original, c.sem, c.vns)
    && (forall key :: key in st.candidates ==> ProducersOk(c, key, st.candidates[key], st.seen - st.removable))
    && (forall key :: key in st.superChecks ==> ChecksOk(c, key, st.superChecks[key], st.seen))
    && st.removable <= st.seen
    && (forall x :: x in st.removable ==> Removable(c.original, st.graph, c.sem, x))
  }

  function Producers(st: PassState, key: ExpressionKey): seq<Pos> {
    if key in st.candidates then st.candidates[key] else []
  }

  function Checks(st: PassState, key: SuperCheckKey): seq<Pos> {
    if key in st.superChecks then st.superChecks[key] else []
  }

  // ----- which producer is taken -----

  predicate IsDominate(dominators: seq<set<nat>>, x: Pos, y: Pos) {
    x == y || (if x.b == y.b then x.i < y.i else y.b < |dominators| && x.b in dominators[y.b])
  }

  predicate IsSafeRegion(g: Graph, producer: Pos, current: Pos) {
    && producer.b < |g| && current.b < |g|
    && (producer.b == current.b || (!g[producer.b].eh && !g[current.b].eh))
  }

  /** Some user of the producer, other than a phi, is dominated by `current`. */
  predicate IsAlreadyLiveAcross(g: Graph, dominators: seq<set<nat>>, producer: Pos, current: Pos) {
    exists b, i, k :: 0 <= b < |g| && 0 <= i < |g[b].insts| && 0 <= k < |g[b].insts[i].inputs|
      && g[b].insts[i].inputs[k].def == producer && !g[b].insts[i].op.Phi? && IsDominate(dominators, current, Pos(b, i))
  }

  predicate Reusable(g: Graph, dominators: seq<set<nat>>, producer: Pos, inst: Pos, requireLive: bool) {
    && IsDominate(dominators, producer, inst) && IsSafeRegion(g, producer, inst)
    && (requireLive ==> IsAlreadyLiveAcross(g, dominators, producer, inst))
  }

  /** `r` is the earliest recorded producer that may stand in for `inst`, if there is one. */
  predicate IsFirstReusable(g: Graph, dominators: seq<set<nat>>, qs: seq<Pos>, inst: Pos, requireLive: bool,
      r: Option<Pos>) {
    if r.None? then forall i :: 0 <= i < |qs| ==> !Reusable(g, dominators, qs[i], inst, requireLive)
    else exists i :: 0 <= i < |qs| && qs[i] == r.value && Reusable(g, dominators, qs[i], inst, requireLive)
                     && forall j :: 0 <= j < i ==> !Reusable(g, dominators, qs[j], inst, requireLive)
  }

  lemma FirstReusableIsUnique(g: Graph, dominators: seq<set<nat>>, qs: seq<Pos>, inst: Pos, requireLive: bool,
      r: Option<Pos>, s: Option<Pos>)
    requires IsFirstReusable(g, dominators, qs, inst, requireLive, r)
      && IsFirstReusable(g, dominators, qs, inst, requireLive, s)
    ensures r == s
  {
    if r.Some? && s.Some? {
      var i :| 0 <= i < |qs| && qs[i] == r.value && Reusable(g, dominators, qs[i], inst, requireLive)
               && forall j :: 0 <= j < i ==> !Reusable(g, dominators, qs[j], inst, requireLive);
      var k :| 0 <= k < |qs| && qs[k] == s.value && Reusable(g, dominators, qs[k], inst, requireLive)
               && forall j :: 0 <= j < k ==> !Reusable(g, dominators, qs[j], inst, requireLive);
    }
  }

  // ----- what one instruction does, exactly -----

  /** A check is dropped if and only if an earlier one is reusable, and recorded otherwise. */
  ghost predicate CheckStep(dominators: seq<set<nat>>, st: PassState, x: Pos, key: SuperCheckKey, st': PassState) {
    exists r :: IsFirstReusable(st.graph, dominators, Checks(st, key), x, false, r)
      && st' == if r.Some? then st.(seen := st.seen + {x}, removable := st.removable + {x})
                else st.(seen := st.seen + {x}, superChecks := st.superChecks[key := Checks(st, key) + [x]])
  }

  /** An expression's users move to the first reusable producer if there is one; otherwise it is recorded. */
  ghost predicate ExpressionStep(dominators: seq<set<nat>>, st: PassState, x: Pos, key: ExpressionKey, st': PassState) {
    exists r :: IsFirstReusable(st.graph, dominators, Producers(st, key), x, true, r)
      && st' == if r.Some? then
                  st.(graph := ReplacedUsers(st.graph, x, r.value), seen := st.seen + {x},
                      removable := st.removable + {x})
                else st.(seen := st.seen + {x}, candidates := st.candidates[key := Producers(st, key) + [x]])
  }

  ghost predicate InstStep(c: Context, dominators: seq<set<nat>>, st: PassState, x: Pos, st': PassState) {
    && IsInst(st.graph, x)
    && var superKey, key := SuperKeyOf(At(st.graph, x)), KeyOf(At(st.graph, x), c.vns);
    if superKey.Some? then CheckStep(dominators, st, x, superKey.value, st')
    else if key.Some? then ExpressionStep(dominators, st, x, key.value, st')
    else st' == st.(seen := st.seen + {x})
  }

  /** Blocks of the graph, none twice. */
  ghost predicate IsOrder(g: Graph, order: seq<nat>) {
    && (forall i :: 0 <= i < |order| ==> order[i] < |g|)
    && forall i, j :: 0 <= i < j < |order| ==> order[i] != order[j]
  }

  /** The instructions in the order in which the pass visits them. */
  ghost function Visited(g: Graph, order: seq<nat>, n: nat): (xs: seq<Pos>)
    requires n <= |order| && IsOrder(g, order)
    decreases n
  {
    if n == 0 then [] else Visited(g, order, n - 1) + InBlock(order[n - 1], |g[order[n - 1]].insts|)
  }

  lemma VisitedStep(g: Graph, order: seq<nat>, n: nat)
    requires n < |order| && IsOrder(g, order)
    ensures Visited(g, order, n + 1) == Visited(g, order, n) + InBlock(order[n], |g[order[n]].insts|)
  {
  }

  ghost predicate SeenIn(seen: set<Pos>, order: seq<nat>, n: nat)
    requires n <= |order|
  {
    forall x :: x in seen ==> x.b in order[..n]
  }

  /** Whatever was added lies in block `b`. */
  ghost predicate GrewIn(before: set<Pos>, seen: set<Pos>, b: nat) {
    forall x :: x in seen ==> x in before || x.b == b
  }

  lemma SeenStep(before: set<Pos>, seen: set<Pos>, order: seq<nat>, n: nat)
    requires n < |order| && SeenIn(before, order, n) && GrewIn(before, seen, order[n])
    ensures SeenIn(seen, order, n + 1)
  {
    assert order[..n + 1] == order[..n] + [order[n]];
  }

  function InBlock(b: nat, n: nat): (xs: seq<Pos>)
    ensures |xs| == n && forall i :: 0 <= i < n ==> xs[i] == Pos(b, i)
  {
    seq(n, i requires 0 <= i < n => Pos(b, i))
  }

  function Front(xs: seq<Pos>): seq<Pos>
    requires xs != []
  {
    xs[..|xs| - 1]
  }

  function Back(xs: seq<Pos>): Pos
    requires xs != []
  {
    xs[|xs| - 1]
  }

  /** `st'` is what visiting `xs` in order makes of `st`. */
  ghost predicate Steps(c: Context, dominators: seq<set<nat>>, st: PassState, xs: seq<Pos>, st': PassState)
    decreases |xs|
  {
    if xs == [] then st' == st
    else exists mid :: Steps(c, dominators, st, Front(xs), mid) && InstStep(c, dominators, mid, Back(xs), st')
  }

  lemma StepsExtend(c: Context, dominators: seq<set<nat>>, st: PassState, xs: seq<Pos>, mid: PassState, x: Pos,
      st': PassState)
    requires Steps(c, dominators, st, xs, mid) && InstStep(c, dominators, mid, x, st')
    ensures Steps(c, dominators, st, xs + [x], st')
  {
    assert Front(xs + [x]) == xs && Back(xs + [x]) == x;
  }

  /** The pass leaves no choice: what visiting a list of instructions does is determined. */
  lemma {:induction false} StepsAreDetermined(c: Context, dominators: seq<set<nat>>, st: PassState, xs: seq<Pos>,
      a: PassState, b: PassState)
    requires Steps(c, dominators, st, xs, a) && Steps(c, dominators, st, xs, b)
    ensures a == b
    decreases |xs|
  {
    if xs != [] {
      var init, x := Front(xs), Back(xs);
      var m :| Steps(c, dominators, st, init, m) && InstStep(c, dominators, m, x, a);
      var n :| Steps(c, dominators, st, init, n) && InstStep(c, dominators, n, x, b);
      StepsAreDetermined(c, dominators, st, init, m, n);
      StepIsDetermined(c, dominators, m, x, a, b);
    }
  }

  lemma StepIsDetermined(c: Context, dominators: seq<set<nat>>, st: PassState, x: Pos, a: PassState, b: PassState)
    requires InstStep(c, dominators, st, x, a) && InstStep(c, dominators, st, x, b)
    ensures a == b
  {
    var superKey, key := SuperKeyOf(At(st.graph, x)), KeyOf(At(st.graph, x), c.vns);
    if superKey.Some? {
      CheckIsDetermined(dominators, st, x, superKey.value, a, b);
    } else if key.Some? {
      ExpressionIsDetermined(dominators, st, x, key.value, a, b);
    }
  }

  lemma CheckIsDetermined(dominators: seq<set<nat>>, st: PassState, x: Pos, key: SuperCheckKey, a: PassState,
      b: PassState)
    requires CheckStep(dominators, st, x, key, a) && CheckStep(dominators, st, x, key, b)
    ensures a == b
  {
    var r :| IsFirstReusable(st.graph, dominators, Checks(st, key), x, false, r)
      && a == if r.Some? then st.(seen := st.seen + {x}, removable := st.removable + {x})
              else st.(seen := st.seen + {x}, superChecks := st.superChecks[key := Checks(st, key) + [x]]);
    var s :| IsFirstReusable(st.graph, dominators, Checks(st, key), x, false, s)
      && b == if s.Some? then st.(seen := st.seen + {x}, removable := st.removable + {x})
              else st.(seen := st.seen + {x}, superChecks := st.superChecks[key := Checks(st, key) + [x]]);
    FirstReusableIsUnique(st.graph, dominators, Checks(st, key), x, false, r, s);
  }

  lemma ExpressionIsDetermined(dominators: seq<set<nat>>, st: PassState, x: Pos, key: ExpressionKey, a: PassState,
      b: PassState)
    requires ExpressionStep(dominators, st, x, key, a) && ExpressionStep(dominators, st, x, key, b)
    ensures a == b
  {
    var qs := Producers(st, key);
    var r :| IsFirstReusable(st.graph, dominators, qs, x, true, r)
      && a == if r.Some? then st.(graph := ReplacedUsers(st.graph, x, r.value), seen := st.seen + {x},
        removable := st.removable + {x})
              else st.(seen := st.seen + {x}, candidates := st.candidates[key := qs + [x]]);
    var s :| IsFirstReusable(st.graph, dominators, qs, x, true, s)
      && b == if s.Some? then st.(graph := ReplacedUsers(st.graph, x, s.value), seen := st.seen + {x},
        removable := st.removable + {x})
              else st.(seen := st.seen + {x}, candidates := st.candidates[key := qs + [x]]);
    FirstReusableIsUnique(st.graph, dominators, qs, x, true, r, s);
  }

  lemma SkipKeepsInv(c: Context, st: PassState, x: Pos)
    requires Inv(c, st) && x !in st.seen
    ensures Inv(c, st.(seen := st.seen + {x}))
  {
    var st' := st.(seen := st.seen + {x});
    forall key | key in st'.candidates
      ensures ProducersOk(c, key, st'.candidates[key], st'.seen - st'.removable)
    {
      assert ProducersOk(c, key, st.candidates[key], st.seen - st.removable);
    }
    forall key | key in st'.superChecks
      ensures ChecksOk(c, key, st'.superChecks[key], st'.seen)
    {
      assert ChecksOk(c, key, st.superChecks[key], st.seen);
    }
  }

  lemma RecordCheckKeepsInv(c: Context, st: PassState, x: Pos, key: SuperCheckKey)
    requires Inv(c, st) && x !in st.seen && IsInst(st.graph, x) && SuperKeyOf(At(st.graph, x)) == Some(key)
    ensures Inv(c, st.(seen := st.seen + {x}, superChecks := st.superChecks[key := Checks(st, key) + [x]]))
  {
    SkipKeepsInv(c, st, x);
    SuperKeyChecks(c.original, st.graph, c.sem, x);
    var qs := Checks(st, key);
    assert ChecksOk(c, key, qs, st.seen + {x});
    assert ChecksOk(c, key, qs + [x], st.seen + {x});
  }

  lemma DropCheckKeepsInv(c: Context, st: PassState, x: Pos, key: SuperCheckKey, q: Pos)
    requires Inv(c, st) && x !in st.seen && IsInst(st.graph, x) && SuperKeyOf(At(st.graph, x)) == Some(key)
    requires q in Checks(st, key) && Precedes(c.original, q, x)
    ensures Inv(c, st.(seen := st.seen + {x}, removable := st.removable + {x}))
  {
    SuperKeyChecks(c.original, st.graph, c.sem, x);
    assert ChecksOk(c, key, Checks(st, key), st.seen);
    DominatedCheckIsRedundant(c.original, c.sem, q, x, key.input, key.immediate);
    RemoveKeepsLists(c, st, x);
  }

  lemma RemoveKeepsLists(c: Context, st: PassState, x: Pos)
    requires Inv(c, st) && x !in st.seen
    ensures forall key :: key in st.candidates ==>
      ProducersOk(c, key, st.candidates[key], (st.seen + {x}) - (st.removable + {x}))
    ensures forall key :: key in st.superChecks ==> ChecksOk(c, key, st.superChecks[key], st.seen + {x})
  {
    forall key | key in st.candidates
      ensures ProducersOk(c, key, st.candidates[key], (st.seen + {x}) - (st.removable + {x}))
    {
      assert ProducersOk(c, key, st.candidates[key], st.seen - st.removable);
    }
    forall key | key in st.superChecks
      ensures ChecksOk(c, key, st.superChecks[key], st.seen + {x})
    {
      assert ChecksOk(c, key, st.superChecks[key], st.seen);
    }
  }

  lemma RecordProducerKeepsInv(c: Context, st: PassState, x: Pos, key: ExpressionKey)
    requires Inv(c, st) && x !in st.seen && IsInst(st.graph, x) && KeyOf(At(st.graph, x), c.vns) == Some(key)
    ensures Inv(c, st.(seen := st.seen + {x}, candidates := st.candidates[key := Producers(st, key) + [x]]))
  {
    SkipKeepsInv(c, st, x);
    KeyIsProducer(c.original, st.graph, c.sem, c.vns, x);
    var qs := Producers(st, key);
    var live := (st.seen + {x}) - st.removable;
    assert ProducersOk(c, key, qs, live);
    assert ProducersOk(c, key, qs + [x], live);
  }

  lemma ReplaceKeepsInv(c: Context, st: PassState, x: Pos, key: ExpressionKey, q: Pos)
    requires Inv(c, st) && x !in st.seen && IsInst(st.graph, x) && KeyOf(At(st.graph, x), c.vns) == Some(key)
    requires q in Producers(st, key) && Precedes(c.original, q, x)
    ensures Inv(c, st.(graph := ReplacedUsers(st.graph, x, q), seen := st.seen + {x}, removable := st.removable + {x}))
  {
    var h := ReplacedUsers(st.graph, x, q);
    assert ProducersOk(c, key, Producers(st, key), st.seen - st.removable);
    ProducerDuplicates(c.original, st.graph, c.sem, c.vns, q, x);
    ReplacedIsEquivalent(st.graph, c.sem, q, x);
    EquivalentTransitive(c.original, st.graph, h, c.sem);
    ReplacedWellFormed(st.graph, c.sem, q, x);
    RemoveKeepsLists(c, st, x);
    forall y | y in st.removable + {x}
      ensures Removable(c.original, h, c.sem, y)
    {
      if y == x || !Redundant(c.original, c.sem, y) {
        assert y != x ==> Removable(c.original, st.graph, c.sem, y);
        ReplacedIsUnused(st.graph, x, q, y);
      }
    }
  }

  class Cse {
    var graph: Graph
    /** Instructions whose NO_DCE flag was cleared. */
    var removable: set<Pos>
    var candidates: map<ExpressionKey, seq<Pos>>
    var superChecks: map<SuperCheckKey, seq<Pos>>
    const vns: ValueNumbers
    /** For every block the blocks above it in the dominator tree. */
    const dominators: seq<set<nat>>
    ghost const original: Graph
    ghost const sem: Semantics
    ghost var seen: set<Pos>

    /** A well-formed SSA graph, sound value numbers and a correct dominator tree. */
    ghost predicate InputOk() {
      && TriesWellFormed(original) && WellFormed(original) && VnSound(original, sem, vns)
      && |dominators| == |original|
      && forall a, b :: 0 <= b < |dominators| && a in dominators[b] ==> BlockDom(original, a, b)
    }

    constructor (g: Graph, vns: ValueNumbers, dominators: seq<set<nat>>, ghost sem: Semantics)
      ensures graph == g && original == g && this.vns == vns && this.dominators == dominators && this.sem == sem
      ensures removable == {} && seen == {} && candidates == map[] && superChecks == map[]
    {
      graph, original, this.vns, this.dominators, this.sem := g, g, vns, dominators, sem;
      removable, seen, candidates, superChecks := {}, {}, map[], map[];
    }

    ghost function Ctx(): Context {
      Context(original, sem, vns)
    }

    ghost function View(): PassState
      reads this
    {
      PassState(graph, removable, candidates, superChecks, seen)
    }

    ghost predicate Valid()
      reads this
    {
      InputOk() && Inv(Ctx(), View())
    }

    /** The first recorded producer that may stand in for `inst`. */
    method FindReusable(producers: seq<Pos>, inst: Pos, requireLive: bool) returns (r: Option<Pos>)
      ensures IsFirstReusable(graph, dominators, producers, inst, requireLive, r)
      ensures r.Some? ==> r.value in producers && IsDominate(dominators, r.value, inst)
    {
      for i := 0 to |producers|
        invariant forall j :: 0 <= j < i ==> !Reusable(graph, dominators, producers[j], inst, requireLive)
      {
        if !IsDominate(dominators, producers[i], inst) || !IsSafeRegion(graph, producers[i], inst) {
          continue;
        }
        if requireLive && !IsAlreadyLiveAcross(graph, dominators, producers[i], inst) {
          continue;
        }
        return Some(producers[i]);
      }
      return None;
    }

    lemma DominatorPrecedesHere(x: Pos, y: Pos)
      requires InputOk() && IsInst(original, x) && IsDominate(dominators, x, y) && x != y
      ensures Precedes(original, x, y)
    {
      DominatorPrecedes(original, x, y);
    }

    /** A super check: dropped when the same check of the same value dominates it, recorded otherwise. */
    method ProcessSuperCheck(x: Pos, key: SuperCheckKey) returns (changed: bool)
      requires Valid() && IsInst(graph, x) && x !in seen && SuperKeyOf(At(graph, x)) == Some(key)
      modifies this
      ensures Valid() && graph == old(graph) && seen == old(seen) + {x}
      ensures removable == old(removable) + if changed then {x} else {}
      ensures CheckStep(dominators, old(View()), x, key, View())
    {
      var producers := if key in superChecks then superChecks[key] else [];
      RecordedAreNodes(key);
      var r := FindReusable(producers, x, false);
      changed := r.Some?;
      ghost var st := View();
      if r.Some? {
        DominatorPrecedesHere(r.value, x);
        DropCheckKeepsInv(Ctx(), st, x, key, r.value);
        removable := removable + {x};
        st := st.(seen := st.seen + {x}, removable := st.removable + {x});
      } else {
        RecordCheckKeepsInv(Ctx(), st, x, key);
        superChecks := superChecks[key := producers + [x]];
        st := st.(seen := st.seen + {x}, superChecks := st.superChecks[key := Checks(st, key) + [x]]);
      }
      seen := seen + {x};
      assert View() == st;
    }

    lemma RecordedAreNodes(key: SuperCheckKey)
      requires Valid()
      ensures |graph| == |original|
      ensures key in superChecks ==> forall i :: 0 <= i < |superChecks[key]| ==>
                IsInst(original, superChecks[key][i]) && superChecks[key][i] in seen
    {
      if key in superChecks {
        assert ChecksOk(Ctx(), key, superChecks[key], seen);
      }
    }

    lemma ProducersAreNodes(key: ExpressionKey)
      requires Valid()
      ensures |graph| == |original|
      ensures key in candidates ==> forall i :: 0 <= i < |candidates[key]| ==>
                IsInst(original, candidates[key][i]) && candidates[key][i] in seen
    {
      if key in candidates {
        assert ProducersOk(Ctx(), key, candidates[key], seen - removable);
      }
    }

    /** A comparison or conversion: its users are moved to a producer with the same key, or it is recorded itself. */
    method ProcessExpression(x: Pos, key: ExpressionKey) returns (changed: bool)
      requires Valid() && IsInst(graph, x) && x !in seen && KeyOf(At(graph, x), vns) == Some(key)
      modifies this
      ensures Valid() && seen == old(seen) + {x}
      ensures removable == old(removable) + if changed then {x} else {}
      ensures !changed ==> graph == old(graph)
      ensures ExpressionStep(dominators, old(View()), x, key, View())
    {
      var producers := if key in candidates then candidates[key] else [];
      ProducersAreNodes(key);
      var r := FindReusable(producers, x, true);
      changed := r.Some?;
      if r.Some? {
        DominatorPrecedesHere(r.value, x);
        ReplaceUsers(x, key, r.value);
      } else {
        Record(x, key);
      }
    }

    method ReplaceUsers(x: Pos, ghost key: ExpressionKey, producer: Pos)
      requires Valid() && IsInst(graph, x) && x !in seen && KeyOf(At(graph, x), vns) == Some(key)
      requires producer in Producers(View(), key) && Precedes(original, producer, x)
      modifies this
      ensures Valid() && graph == ReplacedUsers(old(graph), x, producer)
      ensures seen == old(seen) + {x} && removable == old(removable) + {x}
      ensures candidates == old(candidates) && superChecks == old(superChecks)
    {
      ghost var st := View();
      ReplaceKeepsInv(Ctx(), st, x, key, producer);
      graph := ReplacedUsers(graph, x, producer);
      removable, seen := removable + {x}, seen + {x};
      assert View() == st.(graph := graph, seen := st.seen + {x}, removable := st.removable + {x});
    }

    method Record(x: Pos, key: ExpressionKey)
      requires Valid() && IsInst(graph, x) && x !in seen && KeyOf(At(graph, x), vns) == Some(key)
      modifies this
      ensures Valid() && graph == old(graph) && seen == old(seen) + {x} && removable == old(removable)
      ensures superChecks == old(superChecks) && candidates == old(candidates)[key := Producers(old(View()), key) + [x]]
    {
      ghost var st := View();
      RecordProducerKeepsInv(Ctx(), st, x, key);
      candidates := candidates[key := (if key in candidates then candidates[key] else []) + [x]];
      seen := seen + {x};
      assert View() == st.(seen := st.seen + {x}, candidates := st.candidates[key := Producers(st, key) + [x]]);
    }

    /** Data inputs decide the key; an input without a value number or a wrong input count gives none. */
    method BuildKey(inst: Inst) returns (key: Option<ExpressionKey>)
      ensures key == KeyOf(inst, vns)
    {
      var expected := ExpectedInputCount(inst.op);
      if expected == 0 {
        return None;
      }
      var found: seq<nat> := [];
      for i := 0 to |inst.inputs|
        invariant |found| == |DataDefs(inst.inputs[..i])| <= 2
        invariant forall j :: 0 <= j < |found| ==>
          DataDefs(inst.inputs[..i])[j] in vns && found[j] == vns[DataDefs(inst.inputs[..i])[j]]
      {
        DataDefsStep(inst.inputs, i);
        if !inst.inputs[i].data {
          continue;
        }
        if |found| >= 2 || inst.inputs[i].def !in vns {
          DataDefsPrefix(inst.inputs, i + 1);
          return None;
        }
        found := found + [vns[inst.inputs[i].def]];
      }
      assert inst.inputs[..|inst.inputs|] == inst.inputs;
      if |found| != expected {
        return None;
      }
      return Some(ExpressionKey(inst.op, inst.typ, found[0], if |found| == 2 then found[1] else 0, |found|));
    }

    method ProcessInstruction(x: Pos) returns (changed: bool)
      requires Valid() && IsInst(graph, x) && x !in seen
      modifies this
      ensures Valid() && seen == old(seen) + {x}
      ensures removable == old(removable) + if changed then {x} else {}
      ensures !changed ==> graph == old(graph)
      ensures InstStep(Ctx(), dominators, old(View()), x, View())
    {
      var superKey := SuperKeyOf(At(graph, x));
      if superKey.Some? {
        changed := ProcessSuperCheck(x, superKey.value);
        return;
      }
      var key := BuildKey(At(graph, x));
      if key.None? {
        SkipKeepsInv(Ctx(), View(), x);
        seen := seen + {x};
        return false;
      }
      changed := ProcessExpression(x, key.value);
    }

    /**
     * The whole pass over the blocks in the given order. Every run of the graph gives every instruction the same
     * operands and values as before, and what was marked removable is an unused duplicate or a check that cannot fire.
     */
    method RunImpl(order: seq<nat>) returns (changed: bool)
      requires InputOk() && graph == original && removable == {} && seen == {} && candidates == map[]
        && superChecks == map[]
      requires IsOrder(graph, order)
      modifies this
      ensures Equivalent(original, graph, sem) && WellFormed(graph)
      ensures forall x :: x in removable ==> Removable(original, graph, sem, x)
      ensures changed <==> removable != {}
      ensures !changed ==> graph == original
      ensures Steps(Ctx(), dominators, old(View()), Visited(original, order, |order|), View())
    {
      WalkStarts(order);
      changed := VisitAll(order, View());
    }

    /** Block after block, in the given order. */
    method VisitAll(order: seq<nat>, ghost st0: PassState) returns (changed: bool)
      requires IsOrder(original, order)
      requires WalkedTo(st0, order, 0) && removable == {}
      modifies this
      ensures WalkedTo(st0, order, |order|)
      ensures changed <==> removable != {}
      ensures !changed ==> graph == old(graph)
    {
      changed := false;
      for b := 0 to |order|
        invariant WalkedTo(st0, order, b)
        invariant changed <==> removable != {}
        invariant !changed ==> graph == old(graph)
      {
        var c := VisitOrdered(order, b, st0);
        changed := c || changed;
      }
    }

    /** After the first `b` blocks of the order. */
    ghost predicate WalkedTo(st0: PassState, order: seq<nat>, b: nat)
      reads this
      requires b <= |order| && IsOrder(original, order)
    {
      StandsAt(st0, Visited(original, order, b)) && SeenIn(seen, order, b)
    }

    /** The walk has visited `xs` and nothing else. */
    ghost predicate StandsAt(st0: PassState, xs: seq<Pos>)
      reads this
    {
      Valid() && Steps(Ctx(), dominators, st0, xs, View())
    }

    lemma WalkStarts(order: seq<nat>)
      requires InputOk() && graph == original && removable == {} && seen == {} && candidates == map[]
        && superChecks == map[]
      requires IsOrder(original, order)
      ensures WalkedTo(View(), order, 0)
    {
      EquivalentReflexive(original, sem);
    }

    lemma BlockStarts(order: seq<nat>, b: nat, st0: PassState)
      requires b < |order| && IsOrder(original, order)
      requires WalkedTo(st0, order, b)
      ensures InBlockAt(st0, Visited(original, order, b), order[b], 0)
    {
      var xs := Visited(original, order, b);
      assert xs + InBlock(order[b], 0) == xs;
    }

    lemma BlockEnds(order: seq<nat>, b: nat, st0: PassState)
      requires b < |order| && IsOrder(original, order)
      requires InBlockAt(st0, Visited(original, order, b), order[b], |original[order[b]].insts|)
      requires SeenIn(seen, order, b + 1)
      ensures WalkedTo(st0, order, b + 1)
    {
      VisitedStep(original, order, b);
    }

    /** The next block of the order. */
    method VisitOrdered(order: seq<nat>, b: nat, ghost st0: PassState) returns (changed: bool)
      requires b < |order| && IsOrder(original, order)
      requires WalkedTo(st0, order, b)
      modifies this
      ensures WalkedTo(st0, order, b + 1)
      ensures changed ==> removable != {}
      ensures !changed ==> graph == old(graph) && removable == old(removable)
    {
      SameLengths(original, graph, order[b]);
      BlockStarts(order, b, st0);
      ghost var before := seen;
      changed := VisitBlock(order[b], |graph[order[b]].insts|, st0, Visited(original, order, b));
      SeenStep(before, seen, order, b);
      BlockEnds(order, b, st0);
    }

    /** The next instruction, after `xs`. */
    method VisitNext(x: Pos, ghost st0: PassState, ghost xs: seq<Pos>) returns (changed: bool)
      requires Valid() && IsInst(original, x) && x !in seen && Steps(Ctx(), dominators, st0, xs, View())
      modifies this
      ensures Valid() && seen == old(seen) + {x} && x !in old(removable)
      ensures removable == old(removable) + if changed then {x} else {}
      ensures !changed ==> graph == old(graph)
      ensures Steps(Ctx(), dominators, st0, xs + [x], View())
    {
      SameNodes(original, graph);
      ghost var before := View();
      changed := ProcessInstruction(x);
      StepsExtend(Ctx(), dominators, st0, xs, before, x, View());
    }

    /** After the first `i` instructions of block `b`, which followed `xs`. */
    ghost predicate InBlockAt(st0: PassState, xs: seq<Pos>, b: nat, i: nat)
      reads this
    {
      && StandsAt(st0, xs + InBlock(b, i))
      && forall x :: x in seen && x.b == b ==> x.i < i
    }

    /** The instructions of one block, in order; `xs` was visited before. */
    method VisitBlock(b: nat, n: nat, ghost st0: PassState, ghost xs: seq<Pos>) returns (changed: bool)
      requires b < |original| && n == |original[b].insts| && InBlockAt(st0, xs, b, 0)
      modifies this
      ensures InBlockAt(st0, xs, b, n) && GrewIn(old(seen), seen, b)
      ensures changed ==> removable != {}
      ensures !changed ==> graph == old(graph) && removable == old(removable)
    {
      changed := false;
      for i := 0 to n
        invariant InBlockAt(st0, xs, b, i) && GrewIn(old(seen), seen, b)
        invariant changed ==> removable != {}
        invariant !changed ==> graph == old(graph) && removable == old(removable)
      {
        var c := VisitInBlock(b, i, st0, xs, old(seen));
        changed := c || changed;
      }
    }

    method VisitInBlock(b: nat, i: nat, ghost st0: PassState, ghost xs: seq<Pos>, ghost before: set<Pos>)
      returns (changed: bool)
      requires IsInst(original, Pos(b, i)) && InBlockAt(st0, xs, b, i) && GrewIn(before, seen, b)
      modifies this
      ensures InBlockAt(st0, xs, b, i + 1) && GrewIn(before, seen, b)
      ensures changed || old(removable) != {} ==> removable != {}
      ensures !changed ==> graph == old(graph) && removable == old(removable)
    {
      InBlockStep(xs, b, i);
      changed := VisitNext(Pos(b, i), st0, xs + InBlock(b, i));
    }

    lemma InBlockStep(xs: seq<Pos>, b: nat, i: nat)
      ensures xs + InBlock(b, i) + [Pos(b, i)] == xs + InBlock(b, i + 1)
    {
    }
  }
}
