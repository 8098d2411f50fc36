/** Which marks the accumulator allocation leaves, in terms of the graph alone. */
module AccExact {
  import opened AccGraph
  import opened AccAlloc

  // ----- what the graph says -----

  /** The one way on from `p` is to `q`, which cannot be reached otherwise. */
  predicate Onward(g: Graph, p: Pos, q: Pos) {
    && p.b < |g| && q.b < |g| && q.i <= |g[q.b].insts|
    && if p.i < |g[p.b].insts| then q == Pos(p.b, p.i + 1)
       else p.i == |g[p.b].insts| && g[p.b].succs == [q.b] && q.i == 0 && |g[q.b].preds| == 1
  }

  ghost predicate Route(g: Graph, path: seq<Pos>, x: Pos, u: Pos) {
    && |path| >= 2 && path[0] == x && path[|path| - 1] == u
    && forall k :: 0 <= k < |path| - 1 ==> Onward(g, path[k], path[k + 1])
  }

  /** No constant, writer or reader of the accumulator lies strictly inside. */
  ghost predicate FreeRoute(g: Graph, path: seq<Pos>, x: Pos, u: Pos) {
    && Route(g, path, x, u)
    && forall k :: 0 < k < |path| - 1 && IsInst(g, path[k]) ==>
         !At(g, path[k]).isConst && !At(g, path[k]).accWrite && !At(g, path[k]).accRead
  }

  /** The input that is read from the accumulator; of an instruction that does not read it, the first one. */
  function FedIndex(inst: Inst): int {
    if inst.accRead && inst.intrinsic then |inst.inputs| - 2 else 0
  }

  predicate FedBy(g: Graph, u: Pos, x: Pos) {
    && IsInst(g, u)
    && var inst := At(g, u);
       0 <= FedIndex(inst) < |inst.inputs| && inst.inputs[FedIndex(inst)] == x
  }

  /** `u` reads `x` in the accumulator, `x` is no other input of it, and nothing gets in between. */
  ghost predicate ReadsFreely(g: Graph, x: Pos, u: Pos) {
    && FedBy(g, u, x) && At(g, u).accRead
    && (forall k :: 0 <= k < |At(g, u).inputs| && k != FedIndex(At(g, u)) ==> At(g, u).inputs[k] != x)
    && exists path :: FreeRoute(g, path, x, u)
  }

  /** A constant or a writer of the accumulator whose result is wanted. */
  predicate Gives(g: Graph, x: Pos) {
    IsInst(g, x) && (At(g, x).isConst || At(g, x).accWrite) && !At(g, x).noDest
  }

  /** All users but SaveStates read it freely. */
  ghost predicate Stays(g: Graph, x: Pos) {
    Gives(g, x) && forall u :: IsInst(g, u) && x in At(g, u).inputs && !At(g, u).saveState ==> ReadsFreely(g, x, u)
  }

  /** When the pass comes back to `s`, `x` is still kept in the accumulator. */
  ghost predicate Held(g: Graph, x: Pos, s: Pos)
    decreases s.b, s.i, 0
  {
    Stays(g, x) && forall t :: Less(t, s) ==> !Takes(g, t, x)
  }

  /** At `s`, what lies at `y` does not disturb: a constant no longer written, a reader of what is still kept. */
  ghost predicate Quiet(g: Graph, y: Pos, s: Pos)
    requires IsInst(g, y)
    decreases s.b, s.i, 1
  {
    && !At(g, y).accWrite && (At(g, y).isConst ==> !Held(g, y, s))
    && (At(g, y).accRead ==> exists x :: FedBy(g, y, x) && Held(g, x, s))
  }

  ghost predicate QuietRoute(g: Graph, path: seq<Pos>, x: Pos, s: Pos)
    decreases s.b, s.i, 2
  {
    Route(g, path, x, s) && forall k :: 0 < k < |path| - 1 && IsInst(g, path[k]) ==> Quiet(g, path[k], s)
  }

  /** The instruction at `s` takes its operand out of the accumulator: no quiet route leads there. */
  ghost predicate Takes(g: Graph, s: Pos, x: Pos)
    decreases s.b, s.i, 3
  {
    FedBy(g, s, x) && forall path :: !QuietRoute(g, path, x, s)
  }

  /** Its result stays in the accumulator for good. */
  ghost predicate EndsKept(g: Graph, x: Pos) {
    Stays(g, x) && forall t :: !Takes(g, t, x)
  }

  /** A constant that loses its flag takes the marks of all its readers away, from what was marked before. */
  ghost predicate Unmarks(g: Graph, x: Pos, u: Pos, c: Pos) {
    && IsInst(g, u) && c in At(g, u).inputs && IsInst(g, c) && At(g, c).isConst
    && ((!Stays(g, c) && !Less(c, x)) || exists t :: Takes(g, t, c) && x.b <= t.b)
  }

  ghost predicate EndsMarked(g: Graph, u: Pos) {
    exists x :: Gives(g, x) && ReadsFreely(g, x, u) && forall c :: !Unmarks(g, x, u, c)
  }

  // ----- the same, in the terms of the pass -----

  lemma OnwardIsLinear(g: Graph, p: Pos, q: Pos)
    ensures Onward(g, p, q) <==> LinearStep(g, p, q)
  {
    if LinearStep(g, p, q) && !IsInst(g, p) { assert g[p.b].succs == [g[p.b].succs[0]]; }
  }

  lemma RouteIsFrom(g: Graph, path: seq<Pos>, x: Pos, u: Pos)
    ensures Route(g, path, x, u) <==> From(g, path, x, u)
  {
    forall k | 0 <= k < |path| - 1
      ensures Onward(g, path[k], path[k + 1]) <==> LinearStep(g, path[k], path[k + 1])
    {
      OnwardIsLinear(g, path[k], path[k + 1]);
    }
  }

  lemma FreeIsClean(g: Graph, x: Pos, u: Pos)
    ensures (exists path :: FreeRoute(g, path, x, u)) <==> Clean(g, x, u)
  {
    forall path
      ensures FreeRoute(g, path, x, u) <==> CleanPath(g, path, x, u)
    {
      RouteIsFrom(g, path, x, u);
    }
  }

  lemma ReadsFreelyIs(g: Graph, x: Pos, u: Pos)
    ensures ReadsFreely(g, x, u) <==> IsInst(g, u) && ReadsOnce(At(g, u), x) && Clean(g, x, u)
  {
    FreeIsClean(g, x, u);
  }

  /** An instruction that reads freely never takes. */
  lemma FreeDoesNotTake(g: Graph, x: Pos, u: Pos)
    requires ReadsFreely(g, x, u)
    ensures !Takes(g, u, x)
  {
    var path :| FreeRoute(g, path, x, u);
    assert QuietRoute(g, path, x, u);
  }

  /** So only SaveStates take anything out of the accumulator that stays there. */
  lemma OnlySaveStatesTake(g: Graph, x: Pos, s: Pos)
    requires Stays(g, x) && Takes(g, s, x)
    ensures At(g, s).saveState
  {
    if !At(g, s).saveState {
      assert x in At(g, s).inputs;
      FreeDoesNotTake(g, x, s);
    }
  }

  // ----- while the pass runs: everything before `p` was marked, everything before `q` updated -----

  ghost predicate KeptAt(g: Graph, p: Pos, q: Pos, x: Pos) {
    Less(x, p) && Held(g, x, q)
  }

  ghost predicate ClearedAt(g: Graph, p: Pos, q: Pos, x: Pos) {
    IsInst(g, x) && At(g, x).isConst && Less(x, p) && !Held(g, x, q)
  }

  ghost predicate UnmarkedAt(g: Graph, p: Pos, q: Pos, x: Pos, u: Pos, c: Pos) {
    && IsInst(g, u) && c in At(g, u).inputs && IsInst(g, c) && At(g, c).isConst
    && ((!Stays(g, c) && Less(c, p) && !Less(c, x)) || exists t :: Takes(g, t, c) && Less(t, q) && x.b <= t.b)
  }

  ghost predicate MarkedAt(g: Graph, p: Pos, q: Pos, u: Pos) {
    exists x :: MarkedBy(g, p, q, x, u)
  }

  ghost predicate MarkedBy(g: Graph, p: Pos, q: Pos, x: Pos, u: Pos) {
    Less(x, p) && Gives(g, x) && ReadsFreely(g, x, u) && forall c :: !UnmarkedAt(g, p, q, x, u, c)
  }

  ghost predicate Progress(g: Graph, m: Marks, p: Pos, q: Pos) {
    && (forall x :: x in m.dst <==> KeptAt(g, p, q, x))
    && (forall x :: x in m.cleared <==> ClearedAt(g, p, q, x))
    && (forall u :: u in m.src <==> MarkedAt(g, p, q, u))
  }

  /** What takes an operand comes behind it. */
  lemma TakesLater(g: Graph, t: Pos, x: Pos)
    requires GraphOk(g) && Takes(g, t, x)
    ensures Less(x, t) && IsInst(g, x)
  {
    assert InstOk(g, t);
  }

  lemma ReadsLater(g: Graph, x: Pos, u: Pos)
    requires GraphOk(g) && ReadsFreely(g, x, u)
    ensures Less(x, u) && IsInst(g, x) && x in At(g, u).inputs && !At(g, u).saveState
  {
    assert InstOk(g, u);
  }

  lemma FedOnce(g: Graph, u: Pos, x: Pos, y: Pos)
    requires FedBy(g, u, x) && FedBy(g, u, y)
    ensures x == y
  {
  }

  /** In front of its own mark nothing has happened to an instruction. */
  lemma FreshMark(g: Graph, x: Pos)
    requires GraphOk(g) && IsInst(g, x)
    ensures Held(g, x, Pos(x.b, 0)) <==> Stays(g, x)
    ensures Held(g, x, Next(x)) <==> Stays(g, x)
  {
    forall t | Takes(g, t, x)
      ensures Less(x, t)
    {
      TakesLater(g, t, x);
    }
    SelfNotTaken(g, x);
  }

  lemma SelfNotTaken(g: Graph, x: Pos)
    requires GraphOk(g)
    ensures !Takes(g, x, x)
  {
    if Takes(g, x, x) { TakesLater(g, x, x); }
  }

  // ----- one mark -----

  lemma ReadersAre(g: Graph, m: Marks, x: Pos, u: Pos)
    requires GraphOk(g) && Sound(g, m) && UpTo(g, m, x) && Gives(g, x)
    ensures u in Readers(g, m, x) <==> ReadsFreely(g, x, u)
  {
    ReadsFreelyIs(g, x, u);
    if u in Readers(g, m, x) { ReaderIsClean(g, m, x, u); }
    if ReadsFreely(g, x, u) {
      ReadsLater(g, x, u);
      var path :| CleanPath(g, path, x, u);
      CleanIsCalm(g, m, path, x, u);
    }
  }

  lemma CleanIsCalm(g: Graph, m: Marks, path: seq<Pos>, x: Pos, u: Pos)
    requires GraphOk(g) && CleanPath(g, path, x, u)
    ensures CalmBetween(g, m, x, u)
  {
    forall k | 0 < k < |path| - 1 && IsInst(g, path[k])
      ensures InstOk(g, path[k]) && Calm(g, m, path[k])
    {
      assert !Touches(At(g, path[k]));
    }
    assert CalmPath(g, m, path, x, u);
  }

  lemma AllReadersExactly(g: Graph, m: Marks, x: Pos)
    requires GraphOk(g) && Sound(g, m) && UpTo(g, m, x) && Gives(g, x)
    ensures Readers(g, m, x) == RealUsers(g, x) <==> Stays(g, x)
  {
    forall u
      ensures u in Readers(g, m, x) <==> ReadsFreely(g, x, u)
      ensures u in RealUsers(g, x) <==> IsInst(g, u) && x in At(g, u).inputs && !At(g, u).saveState
    {
      ReadersAre(g, m, x, u);
    }
    if Readers(g, m, x) == RealUsers(g, x) {
      forall u | IsInst(g, u) && x in At(g, u).inputs && !At(g, u).saveState
        ensures ReadsFreely(g, x, u)
      {
        assert u in RealUsers(g, x);
      }
    }
    if Stays(g, x) {
      forall u
        ensures u in Readers(g, m, x) <==> u in RealUsers(g, x)
      {
      }
    }
  }

  lemma MarkChangesNothing(g: Graph, m: Marks, x: Pos)
    requires GraphOk(g) && IsInst(g, x) && Progress(g, m, x, Pos(x.b, 0))
    ensures At(g, x).noDest || !WritesAcc(g, m, x) <==> !Gives(g, x)
  {
    assert x in m.cleared <==> ClearedAt(g, x, Pos(x.b, 0), x);
  }

  lemma MarkDst(g: Graph, m: Marks, x: Pos, y: Pos)
    requires GraphOk(g) && Sound(g, m) && UpTo(g, m, x) && IsInst(g, x) && Progress(g, m, x, Pos(x.b, 0))
    ensures y in Marked(g, m, x).dst <==> KeptAt(g, Next(x), Pos(x.b, 0), y)
    ensures y in Marked(g, m, x).cleared <==> ClearedAt(g, Next(x), Pos(x.b, 0), y)
  {
    MarkChangesNothing(g, m, x);
    FreshMark(g, x);
    if Gives(g, x) { AllReadersExactly(g, m, x); }
    assert InstOk(g, x);
    assert y in m.dst <==> KeptAt(g, x, Pos(x.b, 0), y);
    assert y in m.cleared <==> ClearedAt(g, x, Pos(x.b, 0), y);
    assert Less(y, Next(x)) <==> Less(y, x) || y == x;
  }

  /** A constant that not all users can read. */
  ghost predicate Loses(g: Graph, x: Pos) {
    IsInst(g, x) && At(g, x).isConst && !Stays(g, x)
  }

  lemma UnmarkedStep(g: Graph, x: Pos, z: Pos, u: Pos, c: Pos)
    requires GraphOk(g) && IsInst(g, x) && IsInst(g, u)
    ensures z == x ==> (UnmarkedAt(g, Next(x), Pos(x.b, 0), z, u, c) <==> c == x && Loses(g, x) && x in At(g, u).inputs)
    ensures Less(z, x) ==>
              (UnmarkedAt(g, Next(x), Pos(x.b, 0), z, u, c) <==>
               UnmarkedAt(g, x, Pos(x.b, 0), z, u, c) || (c == x && Loses(g, x) && x in At(g, u).inputs))
  {
    assert Less(c, Next(x)) <==> Less(c, x) || c == x;
    assert forall t :: Less(t, Pos(x.b, 0)) ==> t.b < x.b;
  }

  lemma MarkedByStep(g: Graph, x: Pos, z: Pos, u: Pos)
    requires GraphOk(g) && IsInst(g, x) && IsInst(g, u)
    ensures z == x ==>
              (MarkedBy(g, Next(x), Pos(x.b, 0), z, u) <==> Gives(g, x) && ReadsFreely(g, x, u) && !Loses(g, x))
    ensures z != x ==>
              (MarkedBy(g, Next(x), Pos(x.b, 0), z, u) <==>
               MarkedBy(g, x, Pos(x.b, 0), z, u) && !(Loses(g, x) && x in At(g, u).inputs))
  {
    forall c
      ensures z == x || Less(z, x) ==>
                (UnmarkedAt(g, Next(x), Pos(x.b, 0), z, u, c) <==>
                 (z != x && UnmarkedAt(g, x, Pos(x.b, 0), z, u, c))
                 || (c == x && Loses(g, x) && x in At(g, u).inputs))
    {
      UnmarkedStep(g, x, z, u, c);
    }
    if ReadsFreely(g, z, u) { ReadsLater(g, z, u); }
    if z == x || Less(z, x) {
      assert Loses(g, x) && x in At(g, u).inputs ==> UnmarkedAt(g, Next(x), Pos(x.b, 0), z, u, x);
      assert z != x && MarkedBy(g, Next(x), Pos(x.b, 0), z, u) ==> MarkedBy(g, x, Pos(x.b, 0), z, u);
    }
  }

  lemma MarkSrc(g: Graph, m: Marks, x: Pos, u: Pos)
    requires GraphOk(g) && Sound(g, m) && UpTo(g, m, x) && IsInst(g, x) && Progress(g, m, x, Pos(x.b, 0))
    ensures u in Marked(g, m, x).src <==> MarkedAt(g, Next(x), Pos(x.b, 0), u)
  {
    MarkChangesNothing(g, m, x);
    if Gives(g, x) {
      AllReadersExactly(g, m, x);
      ReadersAre(g, m, x, u);
    }
    assert InstOk(g, x);
    assert u in m.src <==> MarkedAt(g, x, Pos(x.b, 0), u);
    if IsInst(g, u) {
      forall z
        ensures MarkedBy(g, Next(x), Pos(x.b, 0), z, u) <==>
                if z == x then Gives(g, x) && ReadsFreely(g, x, u) && !Loses(g, x)
                else MarkedBy(g, x, Pos(x.b, 0), z, u) && !(Loses(g, x) && x in At(g, u).inputs)
      {
        MarkedByStep(g, x, z, u);
      }
      MarkSrcHere(g, m, x, u);
    }
  }

  lemma MarkSrcHere(g: Graph, m: Marks, x: Pos, u: Pos)
    requires GraphOk(g) && IsInst(g, x) && IsInst(g, u) && InstOk(g, x)
    requires At(g, x).noDest || !WritesAcc(g, m, x) <==> !Gives(g, x)
    requires Gives(g, x) ==> (Readers(g, m, x) == RealUsers(g, x) <==> Stays(g, x))
    requires Gives(g, x) ==> (u in Readers(g, m, x) <==> ReadsFreely(g, x, u))
    requires u in m.src <==> MarkedAt(g, x, Pos(x.b, 0), u)
    requires forall z :: MarkedBy(g, Next(x), Pos(x.b, 0), z, u) <==>
                         if z == x then Gives(g, x) && ReadsFreely(g, x, u) && !Loses(g, x)
                         else MarkedBy(g, x, Pos(x.b, 0), z, u) && !(Loses(g, x) && x in At(g, u).inputs)
    ensures u in Marked(g, m, x).src <==> MarkedAt(g, Next(x), Pos(x.b, 0), u)
  {
    if MarkedAt(g, Next(x), Pos(x.b, 0), u) {
      var z :| MarkedBy(g, Next(x), Pos(x.b, 0), z, u);
      if z != x { assert MarkedBy(g, x, Pos(x.b, 0), z, u); }
    }
    if MarkedAt(g, x, Pos(x.b, 0), u) {
      var z :| MarkedBy(g, x, Pos(x.b, 0), z, u);
      ReadsLater(g, z, u);
      assert !(Loses(g, x) && x in At(g, u).inputs) ==> MarkedBy(g, Next(x), Pos(x.b, 0), z, u);
    }
    if Gives(g, x) && ReadsFreely(g, x, u) {
      ReadsLater(g, x, u);
      assert !Loses(g, x) ==> MarkedBy(g, Next(x), Pos(x.b, 0), x, u);
    }
  }

  lemma MarkProgress(g: Graph, m: Marks, x: Pos)
    requires GraphOk(g) && Sound(g, m) && UpTo(g, m, x) && IsInst(g, x) && Progress(g, m, x, Pos(x.b, 0))
    ensures Progress(g, Marked(g, m, x), Next(x), Pos(x.b, 0))
  {
    forall y
      ensures y in Marked(g, m, x).dst <==> KeptAt(g, Next(x), Pos(x.b, 0), y)
      ensures y in Marked(g, m, x).cleared <==> ClearedAt(g, Next(x), Pos(x.b, 0), y)
      ensures y in Marked(g, m, x).src <==> MarkedAt(g, Next(x), Pos(x.b, 0), y)
    {
      MarkDst(g, m, x, y);
      MarkSrc(g, m, x, y);
    }
  }

  // ----- one update -----

  /** The scan for the operand of `x` accepts exactly the quiet routes. */
  lemma CalmIsQuiet(g: Graph, m: Marks, path: seq<Pos>, z: Pos, x: Pos)
    requires GraphOk(g) && IsInst(g, x) && Progress(g, m, End(g, x.b), x)
    ensures CalmPath(g, m, path, z, x) <==> QuietRoute(g, path, z, x)
  {
    RouteIsFrom(g, path, z, x);
    if From(g, path, z, x) {
      forall k | 0 < k < |path| - 1 && IsInst(g, path[k])
        ensures InstOk(g, path[k]) && (Calm(g, m, path[k]) <==> Quiet(g, path[k], x))
      {
        LinearGrows(g, path, k, |path| - 1);
        CalmHere(g, m, path[k], x);
      }
    }
  }

  function End(g: Graph, b: nat): Pos
    requires b < |g|
  {
    Pos(b, |g[b].insts|)
  }

  lemma CalmHere(g: Graph, m: Marks, y: Pos, x: Pos)
    requires GraphOk(g) && IsInst(g, x) && IsInst(g, y) && Less(y, x) && Progress(g, m, End(g, x.b), x)
    ensures InstOk(g, y) && (Calm(g, m, y) <==> Quiet(g, y, x))
  {
    assert InstOk(g, y);
    assert y in m.cleared <==> ClearedAt(g, End(g, x.b), x, y);
    if At(g, y).accRead {
      var z := AccInput(g, y);
      assert FedBy(g, y, z) && Less(z, End(g, x.b));
      assert z in m.dst <==> KeptAt(g, End(g, x.b), x, z);
      forall w | FedBy(g, y, w)
        ensures w == z
      {
      }
    }
  }

  lemma CalmExactly(g: Graph, m: Marks, z: Pos, x: Pos)
    requires GraphOk(g) && IsInst(g, x) && FedBy(g, x, z) && Progress(g, m, End(g, x.b), x)
    ensures CalmBetween(g, m, z, x) <==> !Takes(g, x, z)
  {
    forall path
      ensures CalmPath(g, m, path, z, x) <==> QuietRoute(g, path, z, x)
    {
      CalmIsQuiet(g, m, path, z, x);
    }
  }

  lemma HeldStep(g: Graph, x: Pos, y: Pos)
    ensures Held(g, y, Next(x)) <==> Held(g, y, x) && !Takes(g, x, y)
  {
    assert forall t :: Less(t, Next(x)) <==> Less(t, x) || t == x;
    assert Less(x, Next(x));
  }

  lemma NothingTaken(g: Graph, x: Pos, y: Pos)
    requires IsInst(g, x) && At(g, x).inputs == []
    ensures !Takes(g, x, y)
  {
  }

  lemma UpdateDst(g: Graph, m: Marks, x: Pos, y: Pos)
    requires GraphOk(g) && IsInst(g, x) && InstOk(g, x) && Progress(g, m, End(g, x.b), x)
    ensures y in Updated(g, m, x).dst <==> KeptAt(g, End(g, x.b), Next(x), y)
    ensures y in Updated(g, m, x).cleared <==> ClearedAt(g, End(g, x.b), Next(x), y)
  {
    HeldStep(g, x, y);
    assert y in m.dst <==> KeptAt(g, End(g, x.b), x, y);
    assert y in m.cleared <==> ClearedAt(g, End(g, x.b), x, y);
    if At(g, x).inputs != [] {
      var z := AccInput(g, x);
      assert FedBy(g, x, z) && Less(z, End(g, x.b));
      CalmExactly(g, m, z, x);
      if Takes(g, x, y) { FedOnce(g, x, y, z); }
    } else {
      NothingTaken(g, x, y);
    }
  }

  /** The update at `x` takes marks away where `x` takes a constant. */
  ghost predicate TakesConst(g: Graph, x: Pos, c: Pos) {
    Takes(g, x, c) && IsInst(g, c) && At(g, c).isConst
  }

  lemma UnmarkedUpdate(g: Graph, x: Pos, z: Pos, u: Pos, c: Pos)
    requires IsInst(g, x) && IsInst(g, u) && Less(z, End(g, x.b))
    ensures UnmarkedAt(g, End(g, x.b), Next(x), z, u, c) <==>
            UnmarkedAt(g, End(g, x.b), x, z, u, c) || (TakesConst(g, x, c) && c in At(g, u).inputs)
  {
    assert forall t :: Less(t, Next(x)) <==> Less(t, x) || t == x;
  }

  lemma MarkedByUpdate(g: Graph, x: Pos, z: Pos, u: Pos)
    requires IsInst(g, x) && IsInst(g, u)
    ensures MarkedBy(g, End(g, x.b), Next(x), z, u) <==>
            MarkedBy(g, End(g, x.b), x, z, u) && forall c :: c in At(g, u).inputs ==> !TakesConst(g, x, c)
  {
    if Less(z, End(g, x.b)) {
      forall c
        ensures UnmarkedAt(g, End(g, x.b), Next(x), z, u, c) <==>
                UnmarkedAt(g, End(g, x.b), x, z, u, c) || (TakesConst(g, x, c) && c in At(g, u).inputs)
      {
        UnmarkedUpdate(g, x, z, u, c);
      }
    }
  }

  lemma UpdateSrc(g: Graph, m: Marks, x: Pos, u: Pos)
    requires GraphOk(g) && IsInst(g, x) && InstOk(g, x) && Progress(g, m, End(g, x.b), x)
    ensures u in Updated(g, m, x).src <==> MarkedAt(g, End(g, x.b), Next(x), u)
  {
    assert u in m.src <==> MarkedAt(g, End(g, x.b), x, u);
    if IsInst(g, u) {
      forall z
        ensures MarkedBy(g, End(g, x.b), Next(x), z, u) <==>
                MarkedBy(g, End(g, x.b), x, z, u) && forall c :: c in At(g, u).inputs ==> !TakesConst(g, x, c)
      {
        MarkedByUpdate(g, x, z, u);
      }
      UpdateSrcHere(g, m, x, u);
    }
  }

  lemma UpdateSrcHere(g: Graph, m: Marks, x: Pos, u: Pos)
    requires GraphOk(g) && IsInst(g, x) && InstOk(g, x) && IsInst(g, u) && Progress(g, m, End(g, x.b), x)
    requires forall z :: MarkedBy(g, End(g, x.b), Next(x), z, u) <==>
                         MarkedBy(g, End(g, x.b), x, z, u)
                         && forall c :: c in At(g, u).inputs ==> !TakesConst(g, x, c)
    ensures u in Updated(g, m, x).src <==> MarkedAt(g, End(g, x.b), Next(x), u)
  {
    var p := End(g, x.b);
    assert u in m.src <==> MarkedAt(g, p, x, u);
    if At(g, x).inputs == [] {
      forall c
        ensures !TakesConst(g, x, c)
      {
        NothingTaken(g, x, c);
      }
    } else {
      var w := AccInput(g, x);
      assert FedBy(g, x, w);
      CalmExactly(g, m, w, x);
      forall c
        ensures TakesConst(g, x, c) <==> c == w && Takes(g, x, w) && At(g, w).isConst
      {
        if Takes(g, x, c) { FedOnce(g, x, c, w); }
      }
    }
    if MarkedAt(g, p, x, u) {
      var z :| MarkedBy(g, p, x, z, u);
      ReadsLater(g, z, u);
      if u == x { FreeDoesNotTake(g, z, x); }
      assert (forall c :: c in At(g, u).inputs ==> !TakesConst(g, x, c)) ==> MarkedBy(g, p, Next(x), z, u);
    }
    if MarkedAt(g, p, Next(x), u) {
      var z :| MarkedBy(g, p, Next(x), z, u);
      assert MarkedBy(g, p, x, z, u);
    }
  }

  lemma UpdateProgress(g: Graph, m: Marks, x: Pos)
    requires GraphOk(g) && IsInst(g, x) && InstOk(g, x) && Progress(g, m, End(g, x.b), x)
    ensures Progress(g, Updated(g, m, x), End(g, x.b), Next(x))
  {
    forall y
      ensures y in Updated(g, m, x).dst <==> KeptAt(g, End(g, x.b), Next(x), y)
      ensures y in Updated(g, m, x).cleared <==> ClearedAt(g, End(g, x.b), Next(x), y)
      ensures y in Updated(g, m, x).src <==> MarkedAt(g, End(g, x.b), Next(x), y)
    {
      UpdateDst(g, m, x, y);
      UpdateSrc(g, m, x, y);
    }
  }

  // ----- blocks -----

  lemma {:induction false} MarkBlockProgress(g: Graph, m: Marks, b: nat, n: nat)
    requires GraphOk(g) && b < |g| && n <= |g[b].insts| && Sound(g, m) && UpTo(g, m, Pos(b, 0))
    requires Progress(g, m, Pos(b, 0), Pos(b, 0))
    ensures Progress(g, MarkedBlock(g, m, b, n), Pos(b, n), Pos(b, 0))
    decreases n
  {
    if n > 0 {
      MarkBlockProgress(g, m, b, n - 1);
      MarkedBlockSound(g, m, b, n - 1);
      MarkNext(g, MarkedBlock(g, m, b, n - 1), b, n - 1);
    }
  }

  lemma MarkNext(g: Graph, m: Marks, b: nat, i: nat)
    requires GraphOk(g) && IsInst(g, Pos(b, i)) && Sound(g, m) && UpTo(g, m, Pos(b, i))
    requires Progress(g, m, Pos(b, i), Pos(b, 0))
    ensures Progress(g, Marked(g, m, Pos(b, i)), Pos(b, i + 1), Pos(b, 0))
  {
    MarkProgress(g, m, Pos(b, i));
  }

  lemma {:induction false} UpdateBlockProgress(g: Graph, m: Marks, b: nat, n: nat)
    requires GraphOk(g) && b < |g| && n <= |g[b].insts| && Progress(g, m, End(g, b), Pos(b, 0))
    ensures Progress(g, UpdatedBlock(g, m, b, n), End(g, b), Pos(b, n))
    decreases n
  {
    if n > 0 {
      UpdateBlockProgress(g, m, b, n - 1);
      assert IsInst(g, Pos(b, n - 1));
      UpdateProgress(g, UpdatedBlock(g, m, b, n - 1), Pos(b, n - 1));
    }
  }

  /** Between the end of a block and the next one there is no instruction. */
  lemma NextBlock(g: Graph, b: nat, x: Pos)
    requires b < |g| && IsInst(g, x)
    ensures Less(x, End(g, b)) <==> Less(x, Pos(b + 1, 0))
  {
  }

  lemma HeldNextBlock(g: Graph, b: nat, x: Pos)
    requires b < |g|
    ensures Held(g, x, End(g, b)) <==> Held(g, x, Pos(b + 1, 0))
  {
    forall t | Takes(g, t, x)
      ensures Less(t, End(g, b)) <==> Less(t, Pos(b + 1, 0))
    {
      NextBlock(g, b, t);
    }
  }

  lemma MarkedNextBlock(g: Graph, b: nat, x: Pos, u: Pos)
    requires b < |g|
    ensures MarkedBy(g, End(g, b), End(g, b), x, u) <==> MarkedBy(g, Pos(b + 1, 0), Pos(b + 1, 0), x, u)
  {
    var p := Pos(b + 1, 0);
    forall t | IsInst(g, t)
      ensures Less(t, End(g, b)) <==> Less(t, p)
    {
      NextBlock(g, b, t);
    }
    forall c
      ensures UnmarkedAt(g, End(g, b), End(g, b), x, u, c) <==> UnmarkedAt(g, p, p, x, u, c)
    {
      assert forall t :: Takes(g, t, c) ==> IsInst(g, t);
    }
  }

  lemma ProgressNextBlock(g: Graph, m: Marks, b: nat)
    requires b < |g| && Progress(g, m, End(g, b), End(g, b))
    ensures Progress(g, m, Pos(b + 1, 0), Pos(b + 1, 0))
  {
    var p := Pos(b + 1, 0);
    forall x
      ensures KeptAt(g, End(g, b), End(g, b), x) <==> KeptAt(g, p, p, x)
      ensures ClearedAt(g, End(g, b), End(g, b), x) <==> ClearedAt(g, p, p, x)
    {
      HeldNextBlock(g, b, x);
      if IsInst(g, x) { NextBlock(g, b, x); }
    }
    forall u
      ensures MarkedAt(g, End(g, b), End(g, b), u) <==> MarkedAt(g, p, p, u)
    {
      forall x
        ensures MarkedBy(g, End(g, b), End(g, b), x, u) <==> MarkedBy(g, p, p, x, u)
      {
        MarkedNextBlock(g, b, x, u);
      }
    }
  }

  lemma {:induction false} AllocatedProgress(g: Graph, n: nat)
    requires GraphOk(g) && n <= |g|
    ensures Progress(g, Allocated(g, n), Pos(n, 0), Pos(n, 0))
    decreases n
  {
    if n > 0 {
      var b := n - 1;
      AllocatedProgress(g, b);
      AllocatedSound(g, b);
      MarkBlockProgress(g, Allocated(g, b), b, |g[b].insts|);
      UpdateBlockProgress(g, MarkedBlock(g, Allocated(g, b), b, |g[b].insts|), b, |g[b].insts|);
      ProgressNextBlock(g, Allocated(g, n), b);
    }
  }

  /**
   * What the pass marks. A result stays in the accumulator if and only if all its users but SaveStates read it there
   * freely and nothing takes it out again; a constant loses its flag if and only if it does not stay; and an operand
   * needs no load if and only if it can be read freely and no constant among the inputs unmarked its reader later.
   */
  lemma AllocatedExactly(g: Graph)
    requires GraphOk(g)
    ensures forall x :: x in Allocated(g, |g|).dst <==> EndsKept(g, x)
    ensures forall x :: x in Allocated(g, |g|).cleared <==> IsInst(g, x) && At(g, x).isConst && !EndsKept(g, x)
    ensures forall u :: u in Allocated(g, |g|).src <==> EndsMarked(g, u)
  {
    var m, p := Allocated(g, |g|), Pos(|g|, 0);
    AllocatedProgress(g, |g|);
    forall x
      ensures Held(g, x, p) <==> EndsKept(g, x)
      ensures x in m.dst <==> EndsKept(g, x)
      ensures x in m.cleared <==> IsInst(g, x) && At(g, x).isConst && !EndsKept(g, x)
    {
      assert forall t :: Takes(g, t, x) ==> Less(t, p);
      assert x in m.dst <==> KeptAt(g, p, p, x);
      assert x in m.cleared <==> ClearedAt(g, p, p, x);
    }
    forall u
      ensures u in m.src <==> EndsMarked(g, u)
    {
      MarkedInTheEnd(g, u);
      assert u in m.src <==> MarkedAt(g, p, p, u);
    }
  }

  lemma MarkedInTheEnd(g: Graph, u: Pos)
    ensures MarkedAt(g, Pos(|g|, 0), Pos(|g|, 0), u) <==> EndsMarked(g, u)
  {
    var p := Pos(|g|, 0);
    forall x, c
      ensures UnmarkedAt(g, p, p, x, u, c) <==> Unmarks(g, x, u, c)
    {
      assert forall t :: Takes(g, t, c) ==> Less(t, p);
    }
    if EndsMarked(g, u) {
      var x :| Gives(g, x) && ReadsFreely(g, x, u) && forall c :: !Unmarks(g, x, u, c);
      assert MarkedBy(g, p, p, x, u);
    }
    if MarkedAt(g, p, p, u) {
      var x :| MarkedBy(g, p, p, x, u);
      assert forall c :: !Unmarks(g, x, u, c);
    }
  }

  /** A result that no SaveState has as its operand stays exactly if all its users read it freely. */
  lemma StaysWithoutSaveStates(g: Graph, x: Pos)
    requires GraphOk(g) && forall s :: IsInst(g, s) && At(g, s).saveState ==> !FedBy(g, s, x)
    ensures x in Allocated(g, |g|).dst <==> Stays(g, x)
  {
    AllocatedExactly(g);
    if Stays(g, x) {
      forall t
        ensures !Takes(g, t, x)
      {
        if Takes(g, t, x) { OnlySaveStatesTake(g, x, t); }
      }
    }
  }

  /** Then its readers need no load, unless one of them has a constant input that does not stay. */
  lemma ReadersMarked(g: Graph, x: Pos, u: Pos)
    requires GraphOk(g) && Stays(g, x) && ReadsFreely(g, x, u)
    requires forall c :: c in At(g, u).inputs && IsInst(g, c) && At(g, c).isConst ==> EndsKept(g, c)
    ensures u in Allocated(g, |g|).src
  {
    AllocatedExactly(g);
    forall c
      ensures !Unmarks(g, x, u, c)
    {
    }
  }
}
