/** Orders of the local-variable events that have no inverted neighbours, built by rank. */
module LineRank {
  import opened LineEmitter
  import opened LineLocals
  import opened LineOrder
  import opened LineSort

  datatype Rank = Rank(order: int, group: int, start: int, tie: int)

  predicate Below(a: Rank, b: Rank) {
    a.order < b.order
    || (a.order == b.order && (a.group < b.group
                               || (a.group == b.group && (a.start < b.start
                                                          || (a.start == b.start && a.tie <= b.tie)))))
  }

  /** A start `c` and the ends of its register, `a` among them, kept apart by an event `b` of another register. */
  datatype Tied = Plain | Tied(c: Event, b: Event, a: Event)

  /** Variable `v` goes last or first among the starts it meets in its register; two instructions may be tied. */
  datatype Plan = Plan(v: nat, last: bool, here: Tied, next: Tied)

  function Group(f: Function, t: Tied, e: Event): int
    requires e.v < |f.vars|
  {
    if t.Plain? then f.vars[e.v].reg
    else if e == t.c then -3
    else if e == t.b then -2
    else if e.order == t.c.order && SameRegister(f, e, t.c) && !IsStart(f, e) then -1
    else f.vars[e.v].reg
  }

  /** By instruction, register and start, except where events are tied. */
  function RankOf(f: Function, p: Plan, e: Event): Rank {
    if e.v >= |f.vars| then Rank(e.order, 0, 0, 0)
    else
      var here := Group(f, p.here, e);
      Rank(e.order, if here < 0 then here else Group(f, p.next, e), f.vars[e.v].start,
           if e.v != p.v || !IsStart(f, e) then 0 else if p.last then 1 else -1)
  }

  ghost predicate Ranked(f: Function, p: Plan, ev: seq<Event>) {
    forall j, k :: 0 <= j < k < |ev| ==> Below(RankOf(f, p, ev[j]), RankOf(f, p, ev[k]))
  }

  ghost function Insert(f: Function, p: Plan, ev: seq<Event>, e: Event): (r: seq<Event>)
    ensures multiset(r) == multiset(ev) + multiset{e}
    decreases |ev|
  {
    if ev == [] || Below(RankOf(f, p, ev[|ev| - 1]), RankOf(f, p, e)) then ev + [e]
    else
      assert ev == ev[..|ev| - 1] + [ev[|ev| - 1]];
      Insert(f, p, ev[..|ev| - 1], e) + [ev[|ev| - 1]]
  }

  /** Everything in `ev` ranks below `e`. */
  ghost predicate AllBelow(f: Function, p: Plan, ev: seq<Event>, e: Event) {
    forall k :: 0 <= k < |ev| ==> Below(RankOf(f, p, ev[k]), RankOf(f, p, e))
  }

  lemma {:induction false} InsertBelow(f: Function, p: Plan, ev: seq<Event>, e: Event, top: Event)
    requires AllBelow(f, p, ev, top) && Below(RankOf(f, p, e), RankOf(f, p, top))
    ensures AllBelow(f, p, Insert(f, p, ev, e), top)
    decreases |ev|
  {
    if ev != [] && !Below(RankOf(f, p, ev[|ev| - 1]), RankOf(f, p, e)) { InsertBelow(f, p, ev[..|ev| - 1], e, top); }
  }

  lemma {:induction false} InsertRanked(f: Function, p: Plan, ev: seq<Event>, e: Event)
    requires Ranked(f, p, ev)
    ensures Ranked(f, p, Insert(f, p, ev, e))
    decreases |ev|
  {
    if ev != [] && !Below(RankOf(f, p, ev[|ev| - 1]), RankOf(f, p, e)) {
      InsertRanked(f, p, ev[..|ev| - 1], e);
      InsertBelow(f, p, ev[..|ev| - 1], e, ev[|ev| - 1]);
    }
  }

  ghost function ByRank(f: Function, p: Plan, es: seq<Event>): (r: seq<Event>)
    ensures Ranked(f, p, r) && multiset(r) == multiset(es)
    decreases |es|
  {
    if es == [] then []
    else
      assert es == es[..|es| - 1] + [es[|es| - 1]];
      InsertRanked(f, p, ByRank(f, p, es[..|es| - 1]), es[|es| - 1]);
      Insert(f, p, ByRank(f, p, es[..|es| - 1]), es[|es| - 1])
  }

  lemma SameMembers(es: seq<Event>, ev: seq<Event>)
    requires multiset(es) == multiset(ev)
    ensures forall e :: e in es <==> e in ev
  {
    forall e
      ensures e in es <==> e in ev
    {
      assert e in es <==> e in multiset(es);
      assert e in ev <==> e in multiset(ev);
    }
  }

  // ----- no inverted neighbours -----

  predicate Planned(f: Function, e: Event) {
    EventOf(f, e) && VarOk(f, e.v)
  }

  predicate TiedOk(f: Function, t: Tied) {
    t.Tied? ==> Planned(f, t.a) && Planned(f, t.b) && Planned(f, t.c) && Tie(f, t.a, t.b, t.c) && IsStart(f, t.c)
  }

  predicate PlanOk(f: Function, p: Plan) {
    && TiedOk(f, p.here) && TiedOk(f, p.next)
    && (p.here.Tied? && p.next.Tied? ==> p.here.c.order != p.next.c.order)
  }

  predicate TiedIn(t: Tied, ev: seq<Event>) {
    t.Tied? ==> t.a in ev && t.b in ev && t.c in ev
  }

  lemma RankBetween(f: Function, p: Plan, ev: seq<Event>, k: nat, e: Event)
    requires Ranked(f, p, ev) && 0 < k < |ev| && e in ev
    ensures e == ev[k - 1] || e == ev[k] || Below(RankOf(f, p, e), RankOf(f, p, ev[k - 1]))
      || Below(RankOf(f, p, ev[k]), RankOf(f, p, e))
  {
    var q :| 0 <= q < |ev| && ev[q] == e;
  }

  /** Where events are tied, the start is followed by `b`, and `b` by an end. */
  lemma TiedBetween(f: Function, p: Plan, t: Tied, ev: seq<Event>, k: nat)
    requires PlanOk(f, p) && (t == p.here || t == p.next) && t.Tied? && TiedIn(t, ev)
    requires Ranked(f, p, ev) && 0 < k < |ev| && Planned(f, ev[k]) && Planned(f, ev[k - 1])
    ensures ev[k - 1] == t.c && ev[k].order == t.c.order ==> !SameRegister(f, ev[k], t.c) || IsStart(f, ev[k])
    ensures ev[k - 1] == t.b && ev[k].order == t.b.order ==> !SameRegister(f, ev[k], t.b) || ev[k] == t.b
  {
    RankBetween(f, p, ev, k, t.a);
    RankBetween(f, p, ev, k, t.b);
  }

  lemma NoStep(f: Function, p: Plan, ev: seq<Event>, k: nat)
    requires PlanOk(f, p) && TiedIn(p.here, ev) && TiedIn(p.next, ev)
    requires Ranked(f, p, ev) && 0 < k < |ev| && Planned(f, ev[k]) && Planned(f, ev[k - 1])
    ensures !Less(f, ev[k], ev[k - 1])
  {
    var x, y := ev[k - 1], ev[k];
    assert Below(RankOf(f, p, x), RankOf(f, p, y));
    if p.here.Tied? { TiedBetween(f, p, p.here, ev, k); }
    if p.next.Tied? { TiedBetween(f, p, p.next, ev, k); }
  }

  /** The collected events by rank. */
  ghost function Order(f: Function, p: Plan): seq<Event> {
    ByRank(f, p, Collected(f, |f.vars|))
  }

  lemma OrderIsSorted(f: Function, p: Plan)
    requires VarsOk(f) && PlanOk(f, p)
    ensures Sorted(f, Order(f, p)) && EventsOk(f, Order(f, p))
  {
    var es, ev := Collected(f, |f.vars|), Order(f, p);
    CollectedIsOk(f, |f.vars|);
    SameMembers(es, ev);
    EventsAreCollected(f, p.here, ev);
    EventsAreCollected(f, p.next, ev);
    forall k | 0 < k < |ev|
      ensures !Less(f, ev[k], ev[k - 1])
    {
      assert ev[k] in es && ev[k - 1] in es;
      NoStep(f, p, ev, k);
    }
    SortedIsEventList(f, ev);
  }

  lemma EventsAreCollected(f: Function, t: Tied, ev: seq<Event>)
    requires VarsOk(f) && TiedOk(f, t) && multiset(ev) == multiset(Collected(f, |f.vars|))
    ensures TiedIn(t, ev)
  {
    CollectedIsOk(f, |f.vars|);
    SameMembers(Collected(f, |f.vars|), ev);
  }

  /** What ranks higher comes later. */
  lemma Later(f: Function, p: Plan, ev: seq<Event>, j: nat, k: nat)
    requires Ranked(f, p, ev) && j < |ev| && k < |ev| && !Below(RankOf(f, p, ev[k]), RankOf(f, p, ev[j]))
    ensures j < k
  {
  }
}
