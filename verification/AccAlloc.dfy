/** The accumulator allocation pass. */
module AccAlloc {
  import opened AccGraph

  /** At the end of a block: a single successor, which has no other predecessor. */
  predicate OneWayOn(g: Graph, p: Pos)
    requires IsEnd(g, p)
  {
    |g[p.b].succs| == 1 && g[p.b].succs[0] < |g| && |g[g[p.b].succs[0]].preds| <= 1
  }

  function Users(g: Graph, x: Pos): (us: set<Pos>)
    ensures forall u :: u in us <==> IsUser(g, x, u)
  {
    set b: nat, i: nat | b < |g| && i < |g[b].insts| && x in g[b].insts[i].inputs :: Pos(b, i)
  }

  // ----- what the pass computes -----

  ghost predicate Readable(g: Graph, m: Marks, x: Pos, u: Pos) {
    IsInst(g, u) && CalmBetween(g, m, x, u) && ReadsOnce(At(g, u), x)
  }

  function RealUsers(g: Graph, x: Pos): (us: set<Pos>)
    ensures forall u :: u in us <==> IsUser(g, x, u) && !At(g, u).saveState
  {
    set u | u in Users(g, x) && !At(g, u).saveState
  }

  ghost function Readers(g: Graph, m: Marks, x: Pos): (us: set<Pos>)
    ensures forall u :: u in us <==> u in RealUsers(g, x) && Readable(g, m, x, u)
  {
    set u | u in RealUsers(g, x) && Readable(g, m, x, u)
  }

  function AccReaders(g: Graph, us: set<Pos>): set<Pos> {
    set u | u in us && IsInst(g, u) && At(g, u).accRead
  }

  /** After the instruction at `x` was looked at. */
  ghost function Marked(g: Graph, m: Marks, x: Pos): Marks
    requires IsInst(g, x)
  {
    if At(g, x).noDest || !WritesAcc(g, m, x) then m
    else if Readers(g, m, x) == RealUsers(g, x) then m.(dst := m.dst + {x}, src := m.src + Readers(g, m, x))
    else if !At(g, x).isConst then m.(src := m.src + Readers(g, m, x))
    else m.(cleared := m.cleared + {x}, src := m.src + Readers(g, m, x) - AccReaders(g, RealUsers(g, x)))
  }

  ghost function Updated(g: Graph, m: Marks, x: Pos): Marks
    requires IsInst(g, x) && InstOk(g, x)
  {
    if At(g, x).inputs == [] || CalmBetween(g, m, AccInput(g, x), x) then m
    else
      var z := AccInput(g, x);
      var m1 := m.(dst := m.dst - {z}, src := m.src - AccReaders(g, {x}));
      if At(g, z).isConst then m1.(cleared := m1.cleared + {z}, src := m1.src - AccReaders(g, Users(g, z))) else m1
  }

  ghost function MarkedBlock(g: Graph, m: Marks, b: nat, n: nat): Marks
    requires b < |g| && n <= |g[b].insts|
    decreases n
  {
    if n == 0 then m else Marked(g, MarkedBlock(g, m, b, n - 1), Pos(b, n - 1))
  }

  ghost function UpdatedBlock(g: Graph, m: Marks, b: nat, n: nat): Marks
    requires GraphOk(g) && b < |g| && n <= |g[b].insts|
    decreases n
  {
    if n == 0 then m
    else
      assert IsInst(g, Pos(b, n - 1));
      Updated(g, UpdatedBlock(g, m, b, n - 1), Pos(b, n - 1))
  }

  /** After the first `n` blocks. */
  ghost function Allocated(g: Graph, n: nat): Marks
    requires GraphOk(g) && n <= |g|
    decreases n
  {
    if n == 0 then Marks({}, {}, {})
    else
      var l := |g[n - 1].insts|;
      UpdatedBlock(g, MarkedBlock(g, Allocated(g, n - 1), n - 1, l), n - 1, l)
  }

  // ----- the marks are sound -----

  lemma ReaderIsClean(g: Graph, m: Marks, x: Pos, u: Pos)
    requires GraphOk(g) && Sound(g, m) && UpTo(g, m, x) && IsInst(g, x) && Produces(At(g, x)) && Readable(g, m, x, u)
    ensures Clean(g, x, u) && SrcSound(g, u)
  {
    var path :| CalmPath(g, m, path, x, u);
    CalmIsClean(g, m, path, x, u, |path| - 1);
    assert CleanPath(g, path, x, u);
    assert InstOk(g, u);
    assert AccInput(g, u) == x;
  }

  lemma MarkedSound(g: Graph, m: Marks, x: Pos)
    requires GraphOk(g) && Sound(g, m) && UpTo(g, m, x) && IsInst(g, x)
    ensures Sound(g, Marked(g, m, x)) && UpTo(g, Marked(g, m, x), Next(x))
  {
    if !At(g, x).noDest && WritesAcc(g, m, x) {
      assert InstOk(g, x);
      forall u | u in Readers(g, m, x)
        ensures Clean(g, x, u) && SrcSound(g, u)
      {
        ReaderIsClean(g, m, x, u);
      }
      if Readers(g, m, x) == RealUsers(g, x) { AllReadersSound(g, m, x); }
    }
  }

  lemma AllReadersSound(g: Graph, m: Marks, x: Pos)
    requires IsInst(g, x) && Produces(At(g, x)) && Readers(g, m, x) == RealUsers(g, x)
    requires forall u :: u in Readers(g, m, x) ==> Clean(g, x, u)
    ensures DstSound(g, x)
  {
    forall u | IsUser(g, x, u) && !At(g, u).saveState
      ensures ReadsOnce(At(g, u), x) && Clean(g, x, u)
    {
      assert u in RealUsers(g, x);
    }
  }

  lemma UpdatedSound(g: Graph, m: Marks, x: Pos, p: Pos)
    requires GraphOk(g) && Sound(g, m) && UpTo(g, m, p) && IsInst(g, x) && InstOk(g, x) && Less(x, p)
    ensures Sound(g, Updated(g, m, x)) && UpTo(g, Updated(g, m, x), p)
  {
  }

  lemma {:induction false} MarkedBlockSound(g: Graph, m: Marks, b: nat, n: nat)
    requires GraphOk(g) && b < |g| && n <= |g[b].insts| && Sound(g, m) && UpTo(g, m, Pos(b, 0))
    ensures Sound(g, MarkedBlock(g, m, b, n)) && UpTo(g, MarkedBlock(g, m, b, n), Pos(b, n))
    decreases n
  {
    if n > 0 {
      MarkedBlockSound(g, m, b, n - 1);
      MarkedSound(g, MarkedBlock(g, m, b, n - 1), Pos(b, n - 1));
    }
  }

  lemma {:induction false} UpdatedBlockSound(g: Graph, m: Marks, b: nat, n: nat)
    requires GraphOk(g) && b < |g| && n <= |g[b].insts| && Sound(g, m) && UpTo(g, m, Pos(b, |g[b].insts|))
    ensures Sound(g, UpdatedBlock(g, m, b, n)) && UpTo(g, UpdatedBlock(g, m, b, n), Pos(b, |g[b].insts|))
    decreases n
  {
    if n > 0 {
      UpdatedBlockSound(g, m, b, n - 1);
      assert IsInst(g, Pos(b, n - 1));
      UpdatedSound(g, UpdatedBlock(g, m, b, n - 1), Pos(b, n - 1), Pos(b, |g[b].insts|));
    }
  }

  /** Whatever the pass marks is read with nothing touching the accumulator in between. */
  lemma {:induction false} AllocatedSound(g: Graph, n: nat)
    requires GraphOk(g) && n <= |g|
    ensures Sound(g, Allocated(g, n)) && UpTo(g, Allocated(g, n), Pos(n, 0))
    decreases n
  {
    if n > 0 {
      AllocatedSound(g, n - 1);
      MarkedBlockSound(g, Allocated(g, n - 1), n - 1, |g[n - 1].insts|);
      UpdatedBlockSound(g, MarkedBlock(g, Allocated(g, n - 1), n - 1, |g[n - 1].insts|), n - 1, |g[n - 1].insts|);
    }
  }

  class RegAccAlloc {
    const g: Graph
    var dst: set<Pos>
    var src: set<Pos>
    var cleared: set<Pos>

    constructor (g: Graph)
      ensures this.g == g && View() == Marks({}, {}, {})
    {
      this.g := g;
      dst, src, cleared := {}, {}, {};
    }

    ghost function View(): Marks
      reads this
    {
      Marks(dst, src, cleared)
    }

    predicate IsAccWrite(x: Pos)
      requires IsInst(g, x)
      reads this
    {
      At(g, x).accWrite || (At(g, x).isConst && x !in cleared)
    }

    /** Whether the accumulator gets dirty between two instructions: unless a calm linear stretch joins them. */
    method IsAccWriteBetween(x: Pos, u: Pos) returns (dirty: bool)
      requires GraphOk(g) && IsInst(g, x) && IsInst(g, u)
      ensures dirty <==> !CalmBetween(g, View(), x, u)
    {
      var p := Next(x);
      ghost var path := [x, p];
      while p != u
        invariant IsNode(g, p) && |path| >= 2 && path[0] == x && path[|path| - 1] == p && Linear(g, path)
        invariant CalmInside(g, View(), path)
        invariant forall k :: 1 <= k < |path| - 1 ==> path[k] != u
        decreases |g| - p.b, |g[p.b].insts| - p.i
      {
        if IsEnd(g, p) {
          if !OneWayOn(g, p) {
            BlockedAtEnd(g, View(), path, x, u);
            return true;
          }
          var c := g[p.b].succs[0];
          assert c in g[p.b].succs;
          assert p.b in g[c].preds;
          assert LinearStep(g, p, Pos(c, 0));
          p := Pos(c, 0);
        } else {
          assert InstOk(g, p);
          if IsAccWrite(p) || (At(g, p).accRead && AccInput(g, p) !in dst) {
            NotCalm(g, View(), path, x, u);
            return true;
          }
          assert Calm(g, View(), p);
          p := Next(p);
        }
        path := path + [p];
      }
      assert CalmPath(g, View(), path, x, u);
      return false;
    }

    method CanUserReadAcc(x: Pos, u: Pos) returns (can: bool)
      requires GraphOk(g) && IsInst(g, x) && IsUser(g, x, u)
      ensures can <==> Readable(g, View(), x, u)
    {
      var inst := At(g, u);
      if !inst.accRead {
        return false;
      }
      var dirty := IsAccWriteBetween(x, u);
      if dirty {
        return false;
      }
      var found := false;
      for k := 0 to |inst.inputs|
        invariant found <==> x in inst.inputs[..k]
        invariant OnceAtMost(inst.inputs[..k], x)
      {
        assert inst.inputs[..k + 1] == inst.inputs[..k] + [inst.inputs[k]];
        if inst.inputs[k] == x {
          if found {
            var j :| 0 <= j < k && inst.inputs[j] == x;
            return false;
          }
          found := true;
        }
      }
      assert inst.inputs[..|inst.inputs|] == inst.inputs;
      assert InstOk(g, u);
      return inst.inputs[AccReadIndex(inst)] == x;
    }

    method SetNeedLda(u: Pos, need: bool)
      requires IsInst(g, u)
      modifies this`src
      ensures src == if need then old(src) - AccReaders(g, {u}) else old(src) + AccReaders(g, {u})
    {
      if !At(g, u).accRead {
        return;
      }
      src := if need then src - {u} else src + {u};
    }

    method SetNeedLdaForAll(us: set<Pos>)
      requires forall u :: u in us ==> IsInst(g, u)
      modifies this`src
      ensures src == old(src) - AccReaders(g, us)
    {
      var todo := us;
      while todo != {}
        invariant todo <= us && src == old(src) - AccReaders(g, us - todo)
      {
        NonEmpty(todo);
        var u :| u in todo;
        SetNeedLda(u, true);
        todo := todo - {u};
      }
      assert us - todo == us;
    }

    /** The users in `done` are marked where they can read the accumulator. */
    ghost predicate MarkedTo(m: Marks, x: Pos, done: set<Pos>, all: bool)
      reads this
    {
      && dst == m.dst && cleared == m.cleared && src == m.src + (done * Readers(g, m, x))
      && (all <==> done <= Readers(g, m, x))
    }

    method MarkReader(x: Pos, u: Pos, ghost done: set<Pos>, all: bool, ghost m: Marks) returns (all': bool)
      requires GraphOk(g) && IsInst(g, x) && u in RealUsers(g, x) && MarkedTo(m, x, done, all)
      modifies this`src
      ensures MarkedTo(m, x, done + {u}, all')
    {
      all' := all;
      var can := CanUserReadAcc(x, u);
      SameReadable(g, m, View(), x, u);
      if can { SetNeedLda(u, false); } else { all' := false; }
    }

    method MarkReaders(x: Pos) returns (all: bool)
      requires GraphOk(g) && IsInst(g, x)
      modifies this`src
      ensures src == old(src) + Readers(g, old(View()), x)
      ensures all <==> Readers(g, old(View()), x) == RealUsers(g, x)
    {
      all := true;
      ghost var m := View();
      var todo := RealUsers(g, x);
      ghost var done: set<Pos> := {};
      while todo != {}
        invariant done !! todo && done + todo == RealUsers(g, x) && MarkedTo(m, x, done, all)
      {
        NonEmpty(todo);
        var u :| u in todo;
        all := MarkReader(x, u, done, all, m);
        todo, done := todo - {u}, done + {u};
      }
      assert done == RealUsers(g, x);
      assert done * Readers(g, m, x) == Readers(g, m, x);
    }

    method MarkAccForInstruction(x: Pos)
      requires GraphOk(g) && IsInst(g, x)
      modifies this
      ensures View() == Marked(g, old(View()), x)
    {
      if At(g, x).noDest || !IsAccWrite(x) {
        return;
      }
      var useAccDstReg := MarkReaders(x);
      if useAccDstReg {
        dst := dst + {x};
        return;
      }
      if !At(g, x).isConst {
        return;
      }
      cleared := cleared + {x};
      SetNeedLdaForAll(RealUsers(g, x));
    }

    method MarkAccForInstructions(b: nat)
      requires GraphOk(g) && b < |g|
      modifies this
      ensures View() == MarkedBlock(g, old(View()), b, |g[b].insts|)
    {
      for i := 0 to |g[b].insts|
        invariant View() == MarkedBlock(g, old(View()), b, i)
      {
        MarkAccForInstruction(Pos(b, i));
      }
    }

    method UpdateInstructionAfterMark(x: Pos)
      requires GraphOk(g) && IsInst(g, x) && InstOk(g, x)
      modifies this
      ensures View() == Updated(g, old(View()), x)
    {
      if At(g, x).inputs == [] {
        return;
      }
      var input := AccInput(g, x);
      var dirty := IsAccWriteBetween(input, x);
      if !dirty {
        return;
      }
      dst := dst - {input};
      SetNeedLda(x, true);
      if At(g, input).isConst {
        cleared := cleared + {input};
        SetNeedLdaForAll(Users(g, input));
      }
    }

    method UpdateInstructionsAfterMark(b: nat)
      requires GraphOk(g) && b < |g|
      modifies this
      ensures View() == UpdatedBlock(g, old(View()), b, |g[b].insts|)
    {
      for i := 0 to |g[b].insts|
        invariant View() == UpdatedBlock(g, old(View()), b, i)
      {
        assert IsInst(g, Pos(b, i));
        UpdateInstructionAfterMark(Pos(b, i));
      }
    }

    method RunImpl()
      requires GraphOk(g)
      modifies this
      ensures View() == Allocated(g, |g|) && Sound(g, View())
    {
      dst, src, cleared := {}, {}, {};
      for b := 0 to |g|
        invariant View() == Allocated(g, b)
      {
        MarkAccForInstructions(b);
        UpdateInstructionsAfterMark(b);
      }
      AllocatedSound(g, |g|);
    }
  }

  predicate OnceAtMost(xs: seq<Pos>, x: Pos) {
    forall i, j :: 0 <= i < j < |xs| ==> xs[i] != x || xs[j] != x
  }

  lemma NonEmpty(s: set<Pos>)
    requires s != {}
    ensures exists u :: u in s
  {
    assert (forall u :: u !in s) ==> s == {};
  }

  /** The scan does not look at which operands need a load. */
  lemma SameReadable(g: Graph, m: Marks, m': Marks, x: Pos, u: Pos)
    requires m'.dst == m.dst && m'.cleared == m.cleared
    ensures Readable(g, m', x, u) <==> Readable(g, m, x, u)
  {
    SameCalm(g, m, m', x, u);
    SameCalm(g, m', m, x, u);
  }

  lemma SameCalm(g: Graph, m: Marks, m': Marks, x: Pos, u: Pos)
    requires m'.dst == m.dst && m'.cleared == m.cleared
    ensures CalmBetween(g, m, x, u) ==> CalmBetween(g, m', x, u)
  {
    if CalmBetween(g, m, x, u) {
      var path :| CalmPath(g, m, path, x, u);
      assert CalmPath(g, m', path, x, u);
    }
  }

  ghost predicate CalmInside(g: Graph, m: Marks, path: seq<Pos>) {
    forall k :: 0 < k < |path| - 1 && IsInst(g, path[k]) ==> InstOk(g, path[k]) && Calm(g, m, path[k])
  }

  /** The walk so far, `path`, is the beginning of every calm stretch from `x` to `u`. */
  lemma WalkIsPrefix(g: Graph, m: Marks, path: seq<Pos>, calm: seq<Pos>, x: Pos, u: Pos)
    requires |path| >= 2 && path[0] == x && Linear(g, path) && path[|path| - 1] != u
    requires forall k :: 1 <= k < |path| - 1 ==> path[k] != u
    requires CalmPath(g, m, calm, x, u)
    ensures |path| < |calm| && calm[|path| - 1] == path[|path| - 1]
    ensures LinearStep(g, path[|path| - 1], calm[|path|])
  {
    if |calm| <= |path| {
      SameForward(g, path, calm, |calm| - 1);
    } else {
      SameForward(g, path, calm, |path| - 1);
      assert LinearStep(g, calm[|path| - 1], calm[|path| - 1 + 1]);
    }
  }

  lemma BlockedAtEnd(g: Graph, m: Marks, path: seq<Pos>, x: Pos, u: Pos)
    requires GraphOk(g) && |path| >= 2 && path[0] == x && Linear(g, path) && path[|path| - 1] != u
    requires forall k :: 1 <= k < |path| - 1 ==> path[k] != u
    requires var p := path[|path| - 1]; IsEnd(g, p) && !OneWayOn(g, p)
    ensures !CalmBetween(g, m, x, u)
  {
    forall calm | CalmPath(g, m, calm, x, u)
      ensures false
    {
      WalkIsPrefix(g, m, path, calm, x, u);
    }
  }

  lemma NotCalm(g: Graph, m: Marks, path: seq<Pos>, x: Pos, u: Pos)
    requires GraphOk(g) && |path| >= 2 && path[0] == x && Linear(g, path) && path[|path| - 1] != u
    requires forall k :: 1 <= k < |path| - 1 ==> path[k] != u
    requires var p := path[|path| - 1]; IsInst(g, p) && InstOk(g, p) && !Calm(g, m, p)
    ensures !CalmBetween(g, m, x, u)
  {
    forall calm | CalmPath(g, m, calm, x, u)
      ensures false
    {
      WalkIsPrefix(g, m, path, calm, x, u);
    }
  }
}
