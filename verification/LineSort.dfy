/** The comparator that local-variable events are sorted with, and what an order without inversions is worth. */
module LineSort {
  import opened LineEmitter
  import opened LineLocals
  import opened LineOrder

  /** Events of one register at one instruction are compared by the start of their variables. */
  predicate Less(f: Function, a: Event, b: Event) {
    if a.order == b.order && SameRegister(f, a, b) then f.vars[a.v].start < f.vars[b.v].start else a.order < b.order
  }

  predicate Equivalent(f: Function, a: Event, b: Event) {
    !Less(f, a, b) && !Less(f, b, a)
  }

  /** What the library asks of a comparator. */
  ghost predicate StrictWeak(f: Function, es: seq<Event>) {
    && (forall a :: a in es ==> !Less(f, a, a))
    && (forall a, b, c :: a in es && b in es && c in es && Less(f, a, b) && Less(f, b, c) ==> Less(f, a, c))
    && (forall a, b, c :: a in es && b in es && c in es && Equivalent(f, a, b) && Equivalent(f, b, c) ==>
          Equivalent(f, a, c))
  }

  /** Two events of one register and different starts, and one of another register, all at one instruction. */
  predicate Tie(f: Function, a: Event, b: Event, c: Event) {
    && a.order == b.order == c.order && SameRegister(f, a, c) && !SameRegister(f, a, b)
    && f.vars[a.v].start < f.vars[c.v].start
  }

  ghost predicate NoTie(f: Function, es: seq<Event>) {
    forall a, b, c :: a in es && b in es && c in es ==> !Tie(f, a, b, c)
  }

  /** The comparator is a strict weak order exactly when no such three events meet. */
  lemma StrictWeakExactly(f: Function, es: seq<Event>)
    ensures StrictWeak(f, es) <==> NoTie(f, es)
  {
    if StrictWeak(f, es) {
      forall a, b, c | a in es && b in es && c in es
        ensures !Tie(f, a, b, c)
      {
        if Tie(f, a, b, c) { assert Equivalent(f, a, b) && Equivalent(f, b, c); }
      }
    }
    if NoTie(f, es) {
      forall a, b, c | a in es && b in es && c in es && Equivalent(f, a, b) && Equivalent(f, b, c)
        ensures Equivalent(f, a, c)
      {
        assert !Tie(f, a, b, c) && !Tie(f, c, b, a);
      }
    }
  }

  /** No event is less than the one in front of it. */
  ghost predicate NoInversion(f: Function, ev: seq<Event>) {
    forall k :: 0 < k < |ev| ==> !Less(f, ev[k], ev[k - 1])
  }

  /** The collected events in some order without an inversion. */
  ghost predicate Sorted(f: Function, ev: seq<Event>) {
    multiset(ev) == multiset(Collected(f, |f.vars|)) && NoInversion(f, ev)
  }

  lemma {:induction false} NoInversionInOrder(f: Function, ev: seq<Event>, j: nat, k: nat)
    requires NoInversion(f, ev) && j <= k < |ev|
    ensures ev[j].order <= ev[k].order
    decreases k
  {
    if j < k {
      NoInversionInOrder(f, ev, j, k - 1);
      assert !Less(f, ev[k], ev[k - 1]);
    }
  }

  lemma SortedIsEventList(f: Function, ev: seq<Event>)
    requires VarsOk(f) && Sorted(f, ev)
    ensures EventList(f, ev) && EventsOk(f, ev)
  {
    forall j, k | 0 <= j <= k < |ev|
      ensures ev[j].order <= ev[k].order
    {
      NoInversionInOrder(f, ev, j, k);
    }
    EventListIsOk(f, ev);
  }

  /** Where the comparator is a strict weak order, no two events at all are inverted. */
  lemma {:induction false} NothingInverted(f: Function, ev: seq<Event>, j: nat, k: nat)
    requires NoInversion(f, ev) && NoTie(f, ev) && j < k < |ev|
    ensures !Less(f, ev[k], ev[j])
    decreases k
  {
    assert ev[j] in ev && ev[k - 1] in ev && ev[k] in ev;
    assert !Less(f, ev[k], ev[k - 1]);
    if j < k - 1 {
      NothingInverted(f, ev, j, k - 1);
      assert !Tie(f, ev[k], ev[k - 1], ev[j]);
    }
  }

  lemma NoTieEndsFirst(f: Function, ev: seq<Event>)
    requires VarsOk(f) && Sorted(f, ev) && NoTie(f, ev)
    ensures EndsFirst(f, ev)
  {
    SortedIsEventList(f, ev);
    forall j, k | 0 <= j < k < |ev| && ev[j].order == ev[k].order && SameRegister(f, ev[j], ev[k])
      ensures !(IsStart(f, ev[j]) && !IsStart(f, ev[k]))
    {
      NothingInverted(f, ev, j, k);
      assert EventOf(f, ev[k]) && VarOk(f, ev[k].v);
    }
  }

  lemma SameTies(f: Function, es: seq<Event>, ev: seq<Event>)
    requires multiset(es) == multiset(ev) && NoTie(f, es)
    ensures NoTie(f, ev)
  {
    forall e | e in ev
      ensures e in es
    {
      assert e in multiset(ev);
      assert e in multiset(es);
    }
  }
}
