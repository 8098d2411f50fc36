/** From single blocks to whole runs, for any machine that moves from block to block as the graph does. */
module LineariseSim {
  import opened Linearise
  import opened LineariseRuns

  /** Visits are only ever added, one at a time, and nothing happens after the machine has stopped. */
  ghost predicate Steady(step: Conf -> Conf) {
    (forall c: Conf :: c.visits <= step(c).visits) && (forall c: Conf :: c.halted ==> step(c) == c)
  }

  lemma {:induction false} VisitsGrow(step: Conf -> Conf, c: Conf, n: nat, m: nat)
    requires Steady(step) && n <= m
    ensures Iter(step, c, n).visits <= Iter(step, c, m).visits
    decreases m
  {
    if n < m { VisitsGrow(step, c, n, m - 1); }
  }

  lemma {:induction false} HaltedStays(step: Conf -> Conf, c: Conf, n: nat)
    requires Steady(step) && c.halted
    ensures Iter(step, c, n) == c
    decreases n
  {
    if n > 0 { HaltedStays(step, c, n - 1); }
  }

  /** Control is at the label of block `b`. */
  ghost predicate At(starts: map<nat, nat>, b: nat, c: Conf) {
    b in starts && !c.halted && c.pc == starts[b]
  }

  /** The machine visits `b` in `n` steps and then stands at the block the graph goes to, or has stopped in a return. */
  ghost predicate Leads(g: Graph, sem: Semantics, step: Conf -> Conf, starts: map<nat, nat>, b: nat, c: Conf, n: nat,
      b': nat) {
    var d := Iter(step, c, n);
    && n > 0 && b < |g| && d.visits == c.visits + [Visit(b, c.s)]
    && if g[b].term.Return? then d.halted
       else At(starts, b', d) && GraphStep(g, sem, Visit(b, c.s), Visit(b', d.s))
  }

  ghost predicate Moves(g: Graph, sem: Semantics, step: Conf -> Conf, starts: map<nat, nat>, b: nat, c: Conf) {
    && Iter(step, c, 1).visits == c.visits + [Visit(b, c.s)]
    && exists n, b' :: Leads(g, sem, step, starts, b, c, n, b')
  }

  /** It does so wherever a run of the graph from `first` comes to. */
  ghost predicate Simulates(g: Graph, sem: Semantics, first: Visit, step: Conf -> Conf, starts: map<nat, nat>) {
    Steady(step)
    && forall b, c :: At(starts, b, c) && Comes(g, sem, first, b, c) ==> Moves(g, sem, step, starts, b, c)
  }

  /** With the visit of `b` the blocks visited are a run of the graph from `first`. */
  ghost predicate Comes(g: Graph, sem: Semantics, first: Visit, b: nat, c: Conf) {
    RunOf(g, sem, first, c.visits + [Visit(b, c.s)])
  }

  /** Within the steps of one block only that block is visited. */
  lemma SameVisits(step: Conf -> Conf, b: nat, c: Conf, n: nat, m: nat)
    requires Steady(step) && 0 < n <= m
    requires Iter(step, c, 1).visits == c.visits + [Visit(b, c.s)] == Iter(step, c, m).visits
    ensures Iter(step, c, n).visits == c.visits + [Visit(b, c.s)]
  {
    VisitsGrow(step, c, 1, n);
    VisitsGrow(step, c, n, m);
  }

  lemma RunExtends(g: Graph, sem: Semantics, first: Visit, vs: seq<Visit>, v: Visit, w: Visit)
    requires RunOf(g, sem, first, vs + [v]) && GraphStep(g, sem, v, w)
    ensures RunOf(g, sem, first, vs + [v] + [w])
  {
  }

  lemma VisitsWithin(g: Graph, sem: Semantics, step: Conf -> Conf, b: nat, c: Conf, n: nat, m: nat)
    requires Steady(step) && n <= m && GraphRun(g, sem, c.visits + [Visit(b, c.s)])
    requires 0 < n ==> Iter(step, c, 1).visits == c.visits + [Visit(b, c.s)] == Iter(step, c, m).visits
    ensures GraphRun(g, sem, Iter(step, c, n).visits)
  {
    if n == 0 {
      assert c.visits == (c.visits + [Visit(b, c.s)])[..|c.visits|];
    } else {
      SameVisits(step, b, c, n, m);
    }
  }

  lemma VisitsHalted(step: Conf -> Conf, c: Conf, m: nat, n: nat)
    requires Steady(step) && m <= n && Iter(step, c, m).halted
    ensures Iter(step, c, n) == Iter(step, c, m)
  {
    IterAdd(step, c, m, n - m);
    HaltedStays(step, Iter(step, c, m), n - m);
  }

  lemma {:induction false} FollowsGraph(g: Graph, sem: Semantics, first: Visit, step: Conf -> Conf,
      starts: map<nat, nat>, b: nat, c: Conf, n: nat)
    requires Simulates(g, sem, first, step, starts) && At(starts, b, c) && Comes(g, sem, first, b, c)
    ensures GraphRun(g, sem, Iter(step, c, n).visits)
    decreases n, 1
  {
    var m, b' := LeadsTo(g, sem, first, step, starts, b, c);
    if n <= m {
      VisitsWithin(g, sem, step, b, c, n, m);
    } else if g[b].term.Return? {
      VisitsHalted(step, c, m, n);
    } else {
      FollowsOn(g, sem, first, step, starts, b, c, m, b', n);
    }
  }

  lemma {:induction false} FollowsOn(g: Graph, sem: Semantics, first: Visit, step: Conf -> Conf,
      starts: map<nat, nat>, b: nat, c: Conf, m: nat, b': nat, n: nat)
    requires Simulates(g, sem, first, step, starts) && Comes(g, sem, first, b, c) && m < n
    requires Leads(g, sem, step, starts, b, c, m, b') && !g[b].term.Return?
    ensures GraphRun(g, sem, Iter(step, c, n).visits)
    decreases n, 0
  {
    var d := Iter(step, c, m);
    ComesNext(g, sem, first, step, starts, b, c, m, b');
    FollowsGraph(g, sem, first, step, starts, b', d, n - m);
    IterAdd(step, c, m, n - m);
  }

  lemma LeadsTo(g: Graph, sem: Semantics, first: Visit, step: Conf -> Conf, starts: map<nat, nat>, b: nat, c: Conf)
    returns (m: nat, b': nat)
    requires Simulates(g, sem, first, step, starts) && At(starts, b, c) && Comes(g, sem, first, b, c)
    ensures Leads(g, sem, step, starts, b, c, m, b') && Iter(step, c, 1).visits == c.visits + [Visit(b, c.s)]
  {
    assert Moves(g, sem, step, starts, b, c);
    m, b' :| Leads(g, sem, step, starts, b, c, m, b');
  }

  /** Execution stopped in a block that returns. */
  predicate Returned(g: Graph, d: Conf) {
    && d.halted && |d.visits| > 0
    && var last := d.visits[|d.visits| - 1].b;
    last < |g| && g[last].term.Return?
  }

  /** The machine never gets stuck: it goes on to any number of blocks, or stops in a block that returns. */
  lemma {:induction false} GoesOn(g: Graph, sem: Semantics, first: Visit, step: Conf -> Conf, starts: map<nat, nat>,
      b: nat, c: Conf, m: nat)
    returns (n: nat)
    requires Simulates(g, sem, first, step, starts) && At(starts, b, c) && Comes(g, sem, first, b, c)
    ensures var d := Iter(step, c, n); |d.visits| == |c.visits| + m || Returned(g, d)
    decreases m
  {
    n := 0;
    if m > 0 {
      var b';
      n, b' := LeadsTo(g, sem, first, step, starts, b, c);
      if !g[b].term.Return? {
        var d := Iter(step, c, n);
        ComesNext(g, sem, first, step, starts, b, c, n, b');
        var n2 := GoesOn(g, sem, first, step, starts, b', d, m - 1);
        IterAdd(step, c, n, n2);
        n := n + n2;
      }
    }
  }

  lemma ComesNext(g: Graph, sem: Semantics, first: Visit, step: Conf -> Conf, starts: map<nat, nat>, b: nat, c: Conf,
      n: nat, b': nat)
    requires Comes(g, sem, first, b, c) && Leads(g, sem, step, starts, b, c, n, b') && !g[b].term.Return?
    ensures At(starts, b', Iter(step, c, n)) && Comes(g, sem, first, b', Iter(step, c, n))
  {
    RunExtends(g, sem, first, c.visits, Visit(b, c.s), Visit(b', Iter(step, c, n).s));
  }

  lemma ComesFirst(g: Graph, sem: Semantics, b: nat, d: Conf)
    requires d.visits == []
    ensures Comes(g, sem, Visit(b, d.s), b, d)
  {
  }

  lemma NothingYet(step: Conf -> Conf, c: Conf, n: nat, m: nat)
    requires Steady(step) && n <= m && Iter(step, c, m).visits == []
    ensures Iter(step, c, n).visits == []
  {
    VisitsGrow(step, c, n, m);
  }

  lemma RunBehind(g: Graph, sem: Semantics, step: Conf -> Conf, starts: map<nat, nat>, b: nat, c: Conf, m: nat, n: nat,
      d: Conf)
    requires d == Iter(step, c, m) && Simulates(g, sem, Visit(b, d.s), step, starts) && d.visits == []
    requires At(starts, b, d) && m < n
    ensures RunOf(g, sem, Visit(b, d.s), Iter(step, c, n).visits)
  {
    IterAdd(step, c, m, n - m);
    RunOn(g, sem, step, starts, b, d, n - m);
  }

  /** From the first block on. */
  lemma RunFrom(g: Graph, sem: Semantics, step: Conf -> Conf, starts: map<nat, nat>, b: nat, c: Conf, m: nat, n: nat)
    requires Simulates(g, sem, Visit(b, c.s), step, starts) && c.visits == [] && At(starts, b, Iter(step, c, m))
    requires Iter(step, c, m).visits == [] && Iter(step, c, m).s == c.s
    ensures var vs := Iter(step, c, n).visits; GraphRun(g, sem, vs) && (|vs| > 0 ==> vs[0] == Visit(b, c.s))
  {
    if n <= m { NothingYet(step, c, n, m); } else { RunBehind(g, sem, step, starts, b, c, m, n, Iter(step, c, m)); }
  }

  lemma RunOn(g: Graph, sem: Semantics, step: Conf -> Conf, starts: map<nat, nat>, b: nat, d: Conf, n: nat)
    requires Simulates(g, sem, Visit(b, d.s), step, starts) && d.visits == [] && At(starts, b, d) && n > 0
    ensures RunOf(g, sem, Visit(b, d.s), Iter(step, d, n).visits)
  {
    ComesFirst(g, sem, b, d);
    FollowsGraph(g, sem, Visit(b, d.s), step, starts, b, d, n);
    var m, b' := LeadsTo(g, sem, Visit(b, d.s), step, starts, b, d);
    VisitsGrow(step, d, 1, n);
  }
}
