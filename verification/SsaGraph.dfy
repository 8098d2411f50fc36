/**
 * SSA control-flow graphs, their instruction-level runs (a throwing instruction may leave its try block
 * for a handler) and what dominance in the block graph says about every such run.
 */
module SsaGraph {

  /** Instruction `i` of block `b`; `i` one past the last instruction stands for the end of the block. */
  datatype Pos = Pos(b: nat, i: nat)

  datatype Opcode =
    | IsTrue | IsFalse | StrictEq | StrictNotEq
    | ThrowIfSuperNotCorrectCall(imms: seq<nat>)
    | Phi
    | Other(code: int)

  /** `data` is false for the SaveState input, which has no type. */
  datatype Input = Input(def: Pos, data: bool)

  /** A phi selects its input by the position control came from; other instructions use `inputs`. */
  datatype Inst = Inst(op: Opcode, typ: int, inputs: seq<Input>, phi: map<Pos, Pos>)

  /** `tries` are the TryBegin blocks whose handlers catch what `insts` throw. */
  datatype Block = Block(insts: seq<Inst>, succs: seq<nat>, tries: set<nat>, eh: bool)

  /** Block 0 is the entry. */
  type Graph = seq<Block>

  predicate IsInst(g: Graph, p: Pos) {
    p.b < |g| && p.i < |g[p.b].insts|
  }

  predicate IsNode(g: Graph, p: Pos) {
    p.b < |g| && p.i <= |g[p.b].insts|
  }

  function At(g: Graph, p: Pos): Inst
    requires IsInst(g, p)
  {
    g[p.b].insts[p.i]
  }

  function End(g: Graph, b: nat): Pos
    requires b < |g|
  {
    Pos(b, |g[b].insts|)
  }

  function Next(p: Pos): Pos {
    Pos(p.b, p.i + 1)
  }

  ghost predicate Throws(g: Graph, n: Pos, m: Pos) {
    IsInst(g, n) && m.i == 0 && exists t :: t in g[n.b].tries && t < |g| && m.b in g[t].succs
  }

  ghost predicate Step(g: Graph, n: Pos, m: Pos) {
    && IsNode(g, n) && IsNode(g, m)
    && ((IsInst(g, n) && m == Next(n))
        || (n == End(g, n.b) && m.i == 0 && m.b in g[n.b].succs)
        || Throws(g, n, m))
  }

  // ----- runs -----

  ghost predicate IsRun(g: Graph, r: seq<Pos>) {
    && |g| > 0 && |r| > 0 && r[0] == Pos(0, 0)
    && forall k :: 0 <= k < |r| - 1 ==> Step(g, r[k], r[k + 1])
  }

  function Last(r: seq<Pos>): Pos
    requires |r| > 0
  {
    r[|r| - 1]
  }

  /** In run `r`, the instruction at `x` completes between moments `k` and `k + 1`. */
  predicate DoneAt(r: seq<Pos>, x: Pos, k: int) {
    0 <= k < |r| - 1 && r[k] == x && r[k + 1] == Next(x)
  }

  lemma RunPrefix(g: Graph, r: seq<Pos>, n: nat)
    requires IsRun(g, r) && 1 <= n <= |r|
    ensures IsRun(g, r[..n])
  {
  }

  // ----- dominance in the block graph -----

  ghost predicate IsPath(g: Graph, p: seq<nat>) {
    && |p| > 0 && p[0] == 0 && (forall k :: 0 <= k < |p| ==> p[k] < |g|)
    && forall k :: 0 <= k < |p| - 1 ==> p[k + 1] in g[p[k]].succs
  }

  ghost predicate BlockDom(g: Graph, a: nat, b: nat) {
    forall p :: IsPath(g, p) && p[|p| - 1] == b ==> a in p
  }

  /** `x` comes before `n`, in the same block or in a block that dominates it. */
  ghost predicate Dominates(g: Graph, x: Pos, n: Pos) {
    if x.b == n.b then x.i < n.i else BlockDom(g, x.b, n.b)
  }

  /** A block inside a try region is only reached through the region's TryBegin block. */
  ghost predicate TriesWellFormed(g: Graph) {
    forall b, t :: 0 <= b < |g| && t in g[b].tries ==> t < |g| && t != b && BlockDom(g, t, b)
  }

  lemma PathPrefix(g: Graph, p: seq<nat>, n: nat)
    requires IsPath(g, p) && 1 <= n <= |p|
    ensures IsPath(g, p[..n])
  {
  }

  lemma PathExtend(g: Graph, p: seq<nat>, b: nat)
    requires IsPath(g, p) && b in g[p[|p| - 1]].succs && b < |g|
    ensures IsPath(g, p + [b])
  {
  }

  /** Every run, throwing or not, shadows a path of the block graph all of whose blocks it ran to their end. */
  lemma {:induction false} PathOfRun(g: Graph, r: seq<Pos>) returns (p: seq<nat>)
    requires TriesWellFormed(g) && IsRun(g, r)
    ensures IsPath(g, p) && p[|p| - 1] == Last(r).b
    ensures forall k :: 0 <= k < |p| - 1 ==> End(g, p[k]) in r
    decreases |r|
  {
    if |r| == 1 {
      p := [0];
    } else {
      var before := r[..|r| - 1];
      RunPrefix(g, r, |r| - 1);
      var q := PathOfRun(g, before);
      assert Step(g, Last(before), Last(r));
      p := PathStep(g, q, Last(before), Last(r));
      forall k | 0 <= k < |p| - 1
        ensures End(g, p[k]) in r
      {
        if End(g, p[k]) in before {
          var i :| 0 <= i < |before| && before[i] == End(g, p[k]);
          assert r[i] == End(g, p[k]);
        }
      }
    }
  }

  /** One more step of a run: the path stays, grows by a block, or is cut back to the TryBegin block. */
  lemma PathStep(g: Graph, q: seq<nat>, n: Pos, m: Pos) returns (p: seq<nat>)
    requires TriesWellFormed(g) && IsPath(g, q) && q[|q| - 1] == n.b && Step(g, n, m)
    ensures IsPath(g, p) && p[|p| - 1] == m.b
    ensures forall k :: 0 <= k < |p| - 1 ==> (k < |q| - 1 && p[k] == q[k]) || End(g, p[k]) == n
  {
    if IsInst(g, n) && m == Next(n) {
      p := q;
    } else if n == End(g, n.b) && m.i == 0 && m.b in g[n.b].succs {
      PathExtend(g, q, m.b);
      p := q + [m.b];
    } else {
      p := PathThrow(g, q, n, m);
    }
  }

  lemma TryOnPath(g: Graph, q: seq<nat>, b: nat, t: nat) returns (k: nat)
    requires TriesWellFormed(g) && IsPath(g, q) && q[|q| - 1] == b && b < |g| && t in g[b].tries
    ensures k < |q| - 1 && q[k] == t
  {
    assert BlockDom(g, t, b) && t != b;
    assert t in q;
    k :| 0 <= k < |q| && q[k] == t;
  }

  lemma PathThrow(g: Graph, q: seq<nat>, n: Pos, m: Pos) returns (p: seq<nat>)
    requires TriesWellFormed(g) && IsPath(g, q) && q[|q| - 1] == n.b && Throws(g, n, m) && IsNode(g, m)
    ensures IsPath(g, p) && p[|p| - 1] == m.b
    ensures forall k :: 0 <= k < |p| - 1 ==> k < |q| - 1 && p[k] == q[k]
  {
    var t :| t in g[n.b].tries && t < |g| && m.b in g[t].succs;
    var k := TryOnPath(g, q, n.b, t);
    PathPrefix(g, q, k + 1);
    PathExtend(g, q[..k + 1], m.b);
    p := q[..k + 1] + [m.b];
  }

  /** Within a block there is only one way forward. */
  lemma {:induction false} DoneInBlock(g: Graph, r: seq<Pos>, x: Pos) returns (k: nat)
    requires IsRun(g, r) && Last(r).b == x.b && x.i < Last(r).i
    ensures DoneAt(r, x, k)
    decreases |r|
  {
    var n, m := r[|r| - 2], r[|r| - 1];
    assert Step(g, n, m);
    assert m == Next(n);
    if n.i == x.i {
      k := |r| - 2;
    } else {
      RunPrefix(g, r, |r| - 1);
      k := DoneInBlock(g, r[..|r| - 1], x);
    }
  }

  lemma DominatorIsDone(g: Graph, r: seq<Pos>, x: Pos) returns (k: nat)
    requires TriesWellFormed(g) && IsRun(g, r) && IsInst(g, x) && Dominates(g, x, Last(r))
    ensures DoneAt(r, x, k)
  {
    if x.b == Last(r).b {
      k := DoneInBlock(g, r, x);
    } else {
      var p := PathOfRun(g, r);
      assert x.b in p;
      var j :| 0 <= j < |p| && p[j] == x.b;
      assert End(g, x.b) in r;
      var n :| 0 <= n < |r| && r[n] == End(g, x.b);
      RunPrefix(g, r, n + 1);
      k := DoneInBlock(g, r[..n + 1], x);
    }
  }

  ghost predicate Done(r: seq<Pos>, x: Pos) {
    exists k :: DoneAt(r, x, k)
  }

  /** On every run, throwing or not, `x` has completed by the time control is at `n`. */
  ghost predicate Precedes(g: Graph, x: Pos, n: Pos) {
    forall r :: IsRun(g, r) && Last(r) == n ==> Done(r, x)
  }

  /** Dominance in the block graph, as the dominator tree gives it, holds on every run. */
  lemma DominatorPrecedes(g: Graph, x: Pos, n: Pos)
    requires TriesWellFormed(g) && IsInst(g, x) && Dominates(g, x, n)
    ensures Precedes(g, x, n)
  {
    forall r | IsRun(g, r) && Last(r) == n
      ensures Done(r, x)
    {
      var k := DominatorIsDone(g, r, x);
    }
  }

  lemma PrecedesTransitive(g: Graph, a: Pos, b: Pos, n: Pos)
    requires Precedes(g, a, b) && Precedes(g, b, n)
    ensures Precedes(g, a, n)
  {
    forall r | IsRun(g, r) && Last(r) == n
      ensures Done(r, a)
    {
      assert Done(r, b);
      var k :| DoneAt(r, b, k);
      RunPrefix(g, r, k + 1);
      assert Done(r[..k + 1], a);
      var i :| DoneAt(r[..k + 1], a, i);
      assert DoneAt(r, a, i);
    }
  }

  lemma LastDone(r: seq<Pos>, x: Pos, k0: nat) returns (k: nat)
    requires DoneAt(r, x, k0)
    ensures k0 <= k && DoneAt(r, x, k) && forall j :: k < j ==> !DoneAt(r, x, j)
  {
    k := k0;
    var i := k0;
    while i < |r|
      invariant k0 <= k && DoneAt(r, x, k) && k <= i
      invariant forall j :: k < j <= i ==> !DoneAt(r, x, j)
    {
      i := i + 1;
      if DoneAt(r, x, i) { k := i; }
    }
  }

  lemma FirstDone(r: seq<Pos>, x: Pos, k0: nat) returns (k: nat)
    requires DoneAt(r, x, k0)
    ensures k <= k0 && DoneAt(r, x, k) && forall j :: 0 <= j < k ==> !DoneAt(r, x, j)
  {
    k := k0;
    var i := k0;
    while i > 0
      invariant 0 <= i <= k <= k0 && DoneAt(r, x, k)
      invariant forall j :: i <= j < k ==> !DoneAt(r, x, j)
    {
      i := i - 1;
      if DoneAt(r, x, i) { k := i; }
    }
  }

  /** Two completions of the same instruction can be joined: go on from the first as the run did after the second. */
  function Spliced(r: seq<Pos>, k1: nat, k: nat): seq<Pos>
    requires k1 <= k < |r| - 1
  {
    r[..k1 + 2] + r[k + 2..]
  }

  lemma SplicedIsRun(g: Graph, r: seq<Pos>, a: Pos, k1: nat, k: nat)
    requires IsRun(g, r) && DoneAt(r, a, k1) && DoneAt(r, a, k) && k1 <= k
    ensures IsRun(g, Spliced(r, k1, k)) && Last(Spliced(r, k1, k)) == Last(r)
  {
    var s := Spliced(r, k1, k);
    forall i | 0 <= i < |s| - 1
      ensures Step(g, s[i], s[i + 1])
    {
      if i < k1 + 1 {
        assert Step(g, r[i], r[i + 1]);
      } else {
        assert Step(g, r[i + k - k1], r[i + k - k1 + 1]);
      }
    }
  }

  lemma SplicedDone(r: seq<Pos>, a: Pos, k1: nat, k: nat, b: Pos, j: nat)
    requires DoneAt(r, a, k1) && DoneAt(r, a, k) && k1 <= k && DoneAt(Spliced(r, k1, k), b, j)
    ensures DoneAt(r, b, if j <= k1 then j else j + k - k1)
  {
  }

  /**
   * If `a` precedes `b` and `b` precedes the end of the run, then `a` is not executed again after the last
   * execution of `b`: otherwise a run could reach that end without `b`.
   */
  lemma NotRedone(g: Graph, r: seq<Pos>, a: Pos, b: Pos, kb: nat, k: nat)
    requires IsRun(g, r) && Precedes(g, a, b) && Precedes(g, b, Last(r))
    requires DoneAt(r, b, kb) && (forall j :: kb < j ==> !DoneAt(r, b, j))
    requires DoneAt(r, a, k)
    ensures k < kb
  {
    if kb <= k {
      var k1 := FirstDone(r, a, k);
      SplicedIsRun(g, r, a, k1, k);
      assert Done(Spliced(r, k1, k), b);
      var j :| DoneAt(Spliced(r, k1, k), b, j);
      SplicedDone(r, a, k1, k, b, j);
      NotDoneEarlier(g, r, a, b, k1, if j <= k1 then j else j + k - k1);
    }
  }

  /** The first execution of `a` comes before every execution of `b`. */
  lemma NotDoneEarlier(g: Graph, r: seq<Pos>, a: Pos, b: Pos, k1: nat, j: nat)
    requires IsRun(g, r) && Precedes(g, a, b)
    requires forall i :: 0 <= i < k1 ==> !DoneAt(r, a, i)
    requires DoneAt(r, b, j)
    ensures k1 < j
  {
    RunPrefix(g, r, j + 1);
    assert Done(r[..j + 1], a);
    var i :| DoneAt(r[..j + 1], a, i);
    assert DoneAt(r, a, i);
  }
}
