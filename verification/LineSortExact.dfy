/** For which functions every order without an inversion closes every local variable by its own end event. */
module LineSortExact {
  import opened LineEmitter
  import opened LineLocals
  import opened LineOrder
  import opened LineSort
  import opened LineRank

  /** With variables apart, two events of a register at one instruction are an end and a start. */
  lemma EndAndStart(f: Function, a: Event, c: Event)
    requires VarsOk(f) && AllApart(f) && EventOf(f, a) && EventOf(f, c)
    ensures a.order == c.order && SameRegister(f, a, c) && f.vars[a.v].start < f.vars[c.v].start ==>
              !IsStart(f, a) && IsStart(f, c)
  {
    assert VarOk(f, a.v) && VarOk(f, c.v);
    ApartOrSame(f, a.v, c.v);
  }

  /** An order without an inversion that puts a start in front of an end in its register. */
  lemma TiedFails(f: Function, t: Tied) returns (ev: seq<Event>)
    requires VarsOk(f) && AllApart(f) && t.Tied? && Tie(f, t.a, t.b, t.c)
    requires EventOf(f, t.a) && EventOf(f, t.b) && EventOf(f, t.c)
    ensures Sorted(f, ev) && !Recovered(f, ev)
  {
    assert VarOk(f, t.a.v) && VarOk(f, t.b.v) && VarOk(f, t.c.v);
    EndAndStart(f, t.a, t.c);
    var p := Plan(t.c.v, true, t, Plain);
    ev := Order(f, p);
    OrderIsSorted(f, p);
    EventsAreCollected(f, t, ev);
    StartFirstFails(f, p, ev);
  }

  lemma StartFirstFails(f: Function, p: Plan, ev: seq<Event>)
    requires VarsOk(f) && EventsOk(f, ev) && Ranked(f, p, ev) && PlanOk(f, p) && p.here.Tied? && TiedIn(p.here, ev)
    ensures !Recovered(f, ev)
  {
    var a, c := p.here.a, p.here.c;
    var j :| 0 <= j < |ev| && ev[j] == c;
    var k :| 0 <= k < |ev| && ev[k] == a;
    Later(f, p, ev, j, k);
    NotEndsFirst(f, ev, j, k);
    MatchedExactly(f, ev);
    RecoveredExactly(f, ev);
  }

  lemma NotEndsFirst(f: Function, ev: seq<Event>, j: nat, k: nat)
    requires j < k < |ev| && ev[j].order == ev[k].order && SameRegister(f, ev[j], ev[k])
    requires IsStart(f, ev[j]) && !IsStart(f, ev[k])
    ensures !EndsFirst(f, ev)
  {
  }

  /**
   * Every order without an inversion closes all variables by their own ends if and only if no two variables are live
   * in one register at the same time and the comparator is a strict weak order on their events.
   */
  lemma SortRecoversExactly(f: Function)
    requires VarsOk(f)
    ensures (forall ev :: Sorted(f, ev) ==> Recovered(f, ev)) <==> AllApart(f) && StrictWeak(f, Collected(f, |f.vars|))
  {
    var es := Collected(f, |f.vars|);
    StrictWeakExactly(f, es);
    if AllApart(f) && NoTie(f, es) {
      forall ev | Sorted(f, ev)
        ensures Recovered(f, ev)
      {
        SortedIsEventList(f, ev);
        SameTies(f, es, ev);
        NoTieEndsFirst(f, ev);
        MatchedExactly(f, ev);
        RecoveredExactly(f, ev);
      }
    }
    if forall ev :: Sorted(f, ev) ==> Recovered(f, ev) {
      var p := Plan(0, true, Plain, Plain);
      OrderIsSorted(f, p);
      RecoveredExactly(f, Order(f, p));
      MatchedExactly(f, Order(f, p));
      CollectedIsOk(f, |f.vars|);
      forall a, b, c | a in es && b in es && c in es
        ensures !Tie(f, a, b, c)
      {
        if Tie(f, a, b, c) { var bad := TiedFails(f, Tied(c, b, a)); }
      }
    }
  }

  /** Whatever the order, of two variables live in one register at once one is not closed by its own end event. */
  lemma OverlapMissesOwnEnd(f: Function, ev: seq<Event>, u: nat, v: nat)
    requires VarsOk(f) && EventsOk(f, ev) && u < v < |f.vars| && !IsParameter(f, u) && !IsParameter(f, v)
    requires !Apart(f.vars[u], f.vars[v])
    ensures !Recovered(f, ev)
  {
    RecoveredExactly(f, ev);
    MatchedExactly(f, ev);
  }
}
