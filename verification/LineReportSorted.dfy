/** For which functions every order without inverted neighbours lets the reader report all ranges exactly. */
module LineReportSorted {
  import opened Options
  import opened LineEmitter
  import opened LineLocals
  import opened LineOrder
  import opened LineReport
  import opened LineSort
  import opened LineRank

  // ----- what a function says of the events in a register -----

  predicate StartsThere(f: Function, w: nat, reg: int, o: int) {
    w < |f.vars| && !IsParameter(f, w) && f.vars[w].reg == reg && f.vars[w].start == o
  }

  predicate EndsThere(f: Function, w: nat, reg: int, o: int) {
    w < |f.vars| && !IsParameter(f, w) && f.vars[w].reg == reg && End(f.vars[w]) == o
  }

  predicate MeetsThere(f: Function, w: nat, reg: int, o: int) {
    w < |f.vars| && !IsParameter(f, w) && f.vars[w].reg != reg && (f.vars[w].start == o || End(f.vars[w]) == o)
  }

  ghost predicate HasStart(f: Function, reg: int, o: int) {
    exists w: nat :: StartsThere(f, w, reg, o)
  }

  ghost predicate HasEnd(f: Function, reg: int, o: int) {
    exists w: nat :: EndsThere(f, w, reg, o)
  }

  /** Something starts or ends in another register. */
  ghost predicate HasOther(f: Function, reg: int, o: int) {
    exists w: nat :: MeetsThere(f, w, reg, o)
  }

  ghost predicate NoStartBetween(f: Function, reg: int, lo: int, hi: int) {
    forall o :: lo < o < hi ==> !HasStart(f, reg, o)
  }

  /** Another variable starts where `v` does, in its register. */
  ghost predicate Shared(f: Function, v: nat)
    requires v < |f.vars|
  {
    exists w: nat :: w != v && StartsThere(f, w, f.vars[v].reg, f.vars[v].start)
  }

  /** An end at `o` may close `v`; where `v` starts only with something of another register in between. */
  ghost predicate MayClose(f: Function, v: nat, o: int)
    requires v < |f.vars|
  {
    var x := f.vars[v];
    && HasEnd(f, x.reg, o) && x.start <= o && NoStartBetween(f, x.reg, x.start, o)
    && (o == x.start ==> HasOther(f, x.reg, o))
  }

  /** An end at `o` closes `v` if no other variable starts with `v`, for no start can get in front of it. */
  ghost predicate MustClose(f: Function, v: nat, o: int)
    requires v < |f.vars|
  {
    var x := f.vars[v];
    && HasEnd(f, x.reg, o) && x.start < o && NoStartBetween(f, x.reg, x.start, o)
    && (HasStart(f, x.reg, o) ==> !HasOther(f, x.reg, o))
  }

  /** Some order without inverted neighbours leaves `v` closed at `c`, or open. */
  ghost predicate Achievable(f: Function, v: nat, c: Option<int>)
    requires v < |f.vars|
  {
    match c
    case None => Shared(f, v) || forall o :: !MustClose(f, v, o)
    case Some(e) =>
      && MayClose(f, v, e)
      && ((Shared(f, v) && e == f.vars[v].start) || forall o :: e < o ==> !MustClose(f, v, o))
  }

  // ----- whatever an order does is achievable -----

  lemma EventThere(f: Function, ev: seq<Event>, k: nat)
    requires VarsOk(f) && EventsOk(f, ev) && k < |ev|
    ensures ev[k].v < |f.vars| && !IsParameter(f, ev[k].v) && VarOk(f, ev[k].v)
    ensures if IsStart(f, ev[k]) then StartsThere(f, ev[k].v, f.vars[ev[k].v].reg, ev[k].order)
            else EndsThere(f, ev[k].v, f.vars[ev[k].v].reg, ev[k].order)
  {
    assert EventOf(f, ev[k]);
  }

  lemma EndThere(f: Function, ev: seq<Event>, reg: int, o: int) returns (k: nat)
    requires VarsOk(f) && EventsOk(f, ev) && HasEnd(f, reg, o)
    ensures k < |ev| && ev[k].order == o && EndsThere(f, ev[k].v, reg, o) && !IsStart(f, ev[k])
  {
    var w: nat :| EndsThere(f, w, reg, o);
    var s, k' := EventsOf(f, ev, w);
    k := k';
  }

  /** An end right behind a start at one instruction, in one register, would be an inversion. */
  lemma StartThenEnd(f: Function, ev: seq<Event>, k: nat)
    requires VarsOk(f) && EventsOk(f, ev) && NoInversion(f, ev) && 0 < k < |ev|
    requires ev[k - 1].order == ev[k].order && SameRegister(f, ev[k - 1], ev[k])
    ensures IsStart(f, ev[k - 1]) ==> IsStart(f, ev[k])
  {
    EventThere(f, ev, k);
    assert !Less(f, ev[k], ev[k - 1]);
  }

  /** A start in front of an end at one instruction needs something of another register there. */
  lemma {:induction false} StartFirstMeets(f: Function, ev: seq<Event>, j: nat, k: nat)
    requires VarsOk(f) && EventsOk(f, ev) && NoInversion(f, ev) && j < k < |ev|
    requires ev[j].order == ev[k].order && SameRegister(f, ev[j], ev[k]) && IsStart(f, ev[j]) && !IsStart(f, ev[k])
    ensures HasOther(f, f.vars[ev[k].v].reg, ev[k].order)
    decreases k
  {
    EventThere(f, ev, k - 1);
    if SameRegister(f, ev[k - 1], ev[k]) {
      StartThenEnd(f, ev, k);
      StartFirstMeets(f, ev, j, k - 1);
    } else {
      assert MeetsThere(f, ev[k - 1].v, f.vars[ev[k].v].reg, ev[k].order);
    }
  }

  lemma OpenMayClose(f: Function, ev: seq<Event>, i: nat, j: nat)
    requires VarsOk(f) && EventsOk(f, ev) && NoInversion(f, ev) && i < |ev| && j < |ev|
    requires IsStart(f, ev[j]) && EndsOpen(f, ev, i, j)
    ensures MayClose(f, ev[j].v, ev[i].order)
  {
    var x, e := f.vars[ev[j].v], ev[i].order;
    EventThere(f, ev, i);
    forall o | x.start < o < e
      ensures !HasStart(f, x.reg, o)
    {
      if HasStart(f, x.reg, o) {
        var w: nat :| StartsThere(f, w, x.reg, o);
        var m, n := EventsOf(f, ev, w);
        Earlier(ev, j, m);
        Earlier(ev, m, i);
      }
    }
    if e == x.start { StartFirstMeets(f, ev, j, i); }
  }

  /** Another start in the register, at the instruction of event `j`, between events `j` and `k`. */
  ghost predicate StartsAgain(f: Function, ev: seq<Event>, j: nat, k: nat)
    requires j < |ev| && k <= |ev|
  {
    exists m :: j < m < k && IsStart(f, ev[m]) && SameRegister(f, ev[m], ev[j]) && ev[m].order == ev[j].order
  }

  /** Nothing but a start where the variable starts can take away an end that must close it. */
  lemma MustCloseDoes(f: Function, ev: seq<Event>, j: nat, o: int) returns (k: nat)
    requires VarsOk(f) && EventsOk(f, ev) && NoInversion(f, ev) && j < |ev|
    requires IsStart(f, ev[j]) && MustClose(f, ev[j].v, o)
    ensures k < |ev| && ev[k].order == o && j < k
    ensures EndsOpen(f, ev, k, j) || (Shared(f, ev[j].v) && StartsAgain(f, ev, j, k))
  {
    var x := f.vars[ev[j].v];
    k := EndThere(f, ev, x.reg, o);
    Earlier(ev, j, k);
    if !EndsOpen(f, ev, k, j) {
      var m :| j < m < k && IsStart(f, ev[m]) && SameRegister(f, ev[m], ev[j]);
      EventThere(f, ev, m);
      assert HasStart(f, x.reg, ev[m].order);
      if ev[m].order == o { StartFirstMeets(f, ev, m, k); }
      assert ev[m].order == x.start && ev[m] != ev[j];
      assert StartsThere(f, ev[m].v, x.reg, x.start);
    }
  }

  lemma OpenBeforeAgain(f: Function, ev: seq<Event>, i: nat, j: nat, k: nat)
    requires EventsOk(f, ev) && i < |ev| && j < |ev| && k <= |ev| && EndsOpen(f, ev, i, j) && StartsAgain(f, ev, j, k)
    ensures ev[i].order == ev[j].order
  {
    var m :| j < m < k && IsStart(f, ev[m]) && SameRegister(f, ev[m], ev[j]) && ev[m].order == ev[j].order;
    assert i <= m;
  }

  lemma LastEndIsAchievable(f: Function, ev: seq<Event>, i: nat, j: nat)
    requires VarsOk(f) && EventsOk(f, ev) && NoInversion(f, ev) && i < |ev| && j < |ev|
    requires IsStart(f, ev[j]) && LastEnd(f, ev, i, j)
    ensures Achievable(f, ev[j].v, Some(ev[i].order))
  {
    var v, e := ev[j].v, ev[i].order;
    OpenMayClose(f, ev, i, j);
    forall o | e < o && MustClose(f, v, o)
      ensures Shared(f, v) && e == f.vars[v].start
    {
      var k := MustCloseDoes(f, ev, j, o);
      Earlier(ev, i, k);
      OpenBeforeAgain(f, ev, i, j, k);
    }
  }

  lemma NoEndIsAchievable(f: Function, ev: seq<Event>, j: nat)
    requires VarsOk(f) && EventsOk(f, ev) && NoInversion(f, ev) && j < |ev|
    requires IsStart(f, ev[j]) && NoEnd(f, ev, j)
    ensures Achievable(f, ev[j].v, None)
  {
    forall o | MustClose(f, ev[j].v, o)
      ensures Shared(f, ev[j].v)
    {
      var k := MustCloseDoes(f, ev, j, o);
    }
  }

  lemma ClosedIsAchievable(f: Function, ev: seq<Event>, j: nat)
    requires VarsOk(f) && Sorted(f, ev) && j < |ev| && IsStart(f, ev[j])
    ensures Achievable(f, ev[j].v, ClosedAt(f, ev, |ev|, j))
  {
    SortedIsEventList(f, ev);
    var i := LastEndOrNone(f, ev, j, |ev|);
    if NoEnd(f, ev, j) {
      NoEndNotClosed(f, ev, j);
      NoEndIsAchievable(f, ev, j);
    } else {
      ClosedAtLastEnd(f, ev, i, j);
      LastEndIsAchievable(f, ev, i, j);
    }
  }

  // ----- whatever is achievable some order does -----

  /** What ties the events at `o` so that a start stands in front of the ends in the register. */
  ghost predicate Ties(f: Function, t: Tied, reg: int, o: int) {
    TiedOk(f, t) && t.Tied? && t.c.order == o && f.vars[t.c.v].reg == reg
  }

  lemma TieFor(f: Function, reg: int, o: int, c: nat) returns (t: Tied)
    requires VarsOk(f) && HasEnd(f, reg, o) && HasOther(f, reg, o) && StartsThere(f, c, reg, o)
    ensures Ties(f, t, reg, o) && t.c == Event(o, c)
  {
    var a: nat :| EndsThere(f, a, reg, o);
    var b: nat :| MeetsThere(f, b, reg, o);
    assert VarOk(f, a) && VarOk(f, b) && VarOk(f, c);
    t := Tied(Event(o, c), Event(o, b), Event(o, a));
  }

  /** An end behind `v` that a start can get in front of. */
  ghost predicate CanSkip(f: Function, v: nat, o: int)
    requires v < |f.vars|
  {
    var x := f.vars[v];
    && HasEnd(f, x.reg, o) && x.start < o && NoStartBetween(f, x.reg, x.start, o)
    && HasStart(f, x.reg, o) && HasOther(f, x.reg, o)
  }

  /** There is one instruction at most where ends can be skipped, and this ties it if it is behind `e`. */
  ghost predicate Skips(f: Function, v: nat, e: int, t: Tied)
    requires v < |f.vars|
  {
    && TiedOk(f, t) && (t.Tied? ==> e < t.c.order)
    && forall o :: e < o && CanSkip(f, v, o) ==> Ties(f, t, f.vars[v].reg, o)
  }

  lemma SkipFor(f: Function, v: nat, e: int) returns (t: Tied)
    requires VarsOk(f) && v < |f.vars| && f.vars[v].start <= e
    ensures Skips(f, v, e, t)
  {
    t := Plain;
    if o :| e < o && CanSkip(f, v, o) {
      var c: nat :| StartsThere(f, c, f.vars[v].reg, o);
      t := TieFor(f, f.vars[v].reg, o, c);
      forall o' | e < o' && CanSkip(f, v, o')
        ensures o' == o
      {
        assert HasStart(f, f.vars[v].reg, o) && HasStart(f, f.vars[v].reg, o');
      }
    }
  }

  /** The order with `v` in its place, as a start event at position `j`. */
  ghost predicate Placed(f: Function, p: Plan, ev: seq<Event>, j: nat) {
    && VarsOk(f) && PlanOk(f, p) && p.v < |f.vars| && !IsParameter(f, p.v)
    && ev == Order(f, p) && Sorted(f, ev) && EventsOk(f, ev) && Ranked(f, p, ev)
    && j < |ev| && ev[j] == Event(f.vars[p.v].start, p.v) && IsStart(f, ev[j])
  }

  lemma PlaceFor(f: Function, p: Plan) returns (ev: seq<Event>, j: nat)
    requires VarsOk(f) && PlanOk(f, p) && p.v < |f.vars| && !IsParameter(f, p.v)
    ensures Placed(f, p, ev, j)
  {
    ev := Order(f, p);
    OrderIsSorted(f, p);
    var j', k := EventsOf(f, ev, p.v);
    j := j';
  }

  /** Nothing is tied where `v` starts. */
  predicate FreeHere(f: Function, p: Plan)
    requires p.v < |f.vars|
  {
    p.here.Plain? && (p.next.Tied? ==> f.vars[p.v].start < p.next.c.order)
  }

  /** Only `v` itself is put in front of the ends where it starts. */
  predicate TiedHere(f: Function, p: Plan)
    requires p.v < |f.vars|
  {
    var start := f.vars[p.v].start;
    p.here.Tied? && p.here.c == Event(start, p.v) && (p.next.Tied? ==> start < p.next.c.order)
  }

  /** With nothing tied where `v` starts, no end there comes behind it. */
  lemma NoneOpenHere(f: Function, p: Plan, ev: seq<Event>, j: nat, k: nat)
    requires Placed(f, p, ev, j) && FreeHere(f, p) && k < |ev| && EndsOpen(f, ev, k, j)
    ensures ev[j].order < ev[k].order
  {
    EventThere(f, ev, k);
    assert Below(RankOf(f, p, ev[j]), RankOf(f, p, ev[k]));
  }

  /** Where ends can be skipped, a start ranks below them. */
  lemma SkippedRank(f: Function, p: Plan, e: int, a: Event)
    requires PlanOk(f, p) && p.v < |f.vars| && (FreeHere(f, p) || TiedHere(f, p)) && Skips(f, p.v, e, p.next)
    requires e < a.order && CanSkip(f, p.v, a.order)
    requires EndsThere(f, a.v, f.vars[p.v].reg, a.order) && VarOk(f, a.v)
    ensures p.next.Tied? && p.next.c.order == a.order && StartsThere(f, p.next.c.v, f.vars[p.v].reg, a.order)
    ensures !Below(RankOf(f, p, a), RankOf(f, p, p.next.c))
  {
    assert Ties(f, p.next, f.vars[p.v].reg, a.order);
  }

  /** An end behind a start that can be skipped is skipped. */
  lemma NoneOpenSkipped(f: Function, p: Plan, ev: seq<Event>, j: nat, k: nat, e: int)
    requires Placed(f, p, ev, j) && (FreeHere(f, p) || TiedHere(f, p)) && Skips(f, p.v, e, p.next)
    requires k < |ev| && e < ev[k].order && CanSkip(f, p.v, ev[k].order)
    requires EndsThere(f, ev[k].v, f.vars[p.v].reg, ev[k].order) && VarOk(f, ev[k].v)
    ensures !EndsOpen(f, ev, k, j)
  {
    SkippedRank(f, p, e, ev[k]);
    var m, n := EventsOf(f, ev, p.next.c.v);
    Earlier(ev, j, m);
    Later(f, p, ev, m, k);
  }

  lemma OpenIsMustOrSkip(f: Function, ev: seq<Event>, j: nat, k: nat)
    requires VarsOk(f) && EventsOk(f, ev) && NoInversion(f, ev) && j < |ev| && k < |ev| && IsStart(f, ev[j])
    requires EndsOpen(f, ev, k, j) && ev[j].order < ev[k].order
    ensures MustClose(f, ev[j].v, ev[k].order) || CanSkip(f, ev[j].v, ev[k].order)
  {
    OpenMayClose(f, ev, k, j);
  }

  /** No end at a later instruction than `e` closes what started at event `j`. */
  ghost predicate NoneBehind(f: Function, ev: seq<Event>, j: nat, e: int)
    requires j < |ev|
  {
    forall k :: 0 <= k < |ev| && EndsOpen(f, ev, k, j) ==> ev[k].order <= e
  }

  /** Where nothing behind `e` must close `v`, nothing behind `e` does. */
  lemma NoneOpenBehind(f: Function, p: Plan, ev: seq<Event>, j: nat, e: int)
    requires Placed(f, p, ev, j) && (FreeHere(f, p) || TiedHere(f, p)) && Skips(f, p.v, e, p.next)
    requires ev[j].order <= e && forall o :: e < o ==> !MustClose(f, p.v, o)
    ensures NoneBehind(f, ev, j, e)
  {
    forall k | 0 <= k < |ev| && EndsOpen(f, ev, k, j)
      ensures ev[k].order <= e
    {
      if e < ev[k].order {
        EventThere(f, ev, k);
        OpenIsMustOrSkip(f, ev, j, k);
        NoneOpenSkipped(f, p, ev, j, k, e);
      }
    }
  }

  lemma SomeEnd(f: Function, ev: seq<Event>, j: nat, k: nat) returns (i: nat)
    requires EventsOk(f, ev) && j < |ev| && k < |ev| && EndsOpen(f, ev, k, j) && NoneBehind(f, ev, j, ev[k].order)
    ensures i < |ev| && LastEnd(f, ev, i, j) && ev[k].order == ev[i].order
  {
    i := LastEndOrNone(f, ev, j, |ev|);
    assert k <= i && EndsOpen(f, ev, i, j);
  }

  /** With an end at `e` behind the start and none behind `e`, the variable is closed at `e`. */
  lemma ClosedThere(f: Function, ev: seq<Event>, j: nat, k: nat, e: int)
    requires EventsOk(f, ev) && j < |ev| && k < |ev| && IsStart(f, ev[j]) && EndsOpen(f, ev, k, j) && ev[k].order == e
    requires NoneBehind(f, ev, j, e)
    ensures ClosedAt(f, ev, |ev|, j) == Some(e)
  {
    var i := SomeEnd(f, ev, j, k);
    ClosedAtLastEnd(f, ev, i, j);
  }

  // ----- open -----

  /** With another variable starting there, `v` first. */
  lemma OpenShared(f: Function, v: nat) returns (ev: seq<Event>, j: nat)
    requires VarsOk(f) && v < |f.vars| && !IsParameter(f, v) && Shared(f, v)
    ensures Sorted(f, ev) && j < |ev| && ev[j] == Event(f.vars[v].start, v) && ClosedAt(f, ev, |ev|, j) == None
  {
    var p := Plan(v, false, Plain, Plain);
    ev, j := PlaceFor(f, p);
    var w: nat :| w != v && StartsThere(f, w, f.vars[v].reg, f.vars[v].start);
    var m, n := EventsOf(f, ev, w);
    Later(f, p, ev, j, m);
    forall k | 0 <= k < |ev|
      ensures !EndsOpen(f, ev, k, j)
    {
      if EndsOpen(f, ev, k, j) { NoneOpenHere(f, p, ev, j, k); }
    }
    NoEndNotClosed(f, ev, j);
  }

  lemma OpenAlone(f: Function, v: nat) returns (ev: seq<Event>, j: nat)
    requires VarsOk(f) && v < |f.vars| && !IsParameter(f, v) && forall o :: !MustClose(f, v, o)
    ensures Sorted(f, ev) && j < |ev| && ev[j] == Event(f.vars[v].start, v) && ClosedAt(f, ev, |ev|, j) == None
  {
    var start := f.vars[v].start;
    var t := SkipFor(f, v, start);
    var p := Plan(v, true, Plain, t);
    ev, j := PlaceFor(f, p);
    NoneOpenBehind(f, p, ev, j, start);
    forall k | 0 <= k < |ev|
      ensures !EndsOpen(f, ev, k, j)
    {
      if EndsOpen(f, ev, k, j) { NoneOpenHere(f, p, ev, j, k); }
    }
    NoEndNotClosed(f, ev, j);
  }

  // ----- closed -----

  /** With `v` last and nothing tied at `e`, other starts come before `v` or behind the ends at `e`. */
  lemma StartOutside(f: Function, p: Plan, ev: seq<Event>, j: nat, k: nat, m: nat)
    requires Placed(f, p, ev, j) && FreeHere(f, p) && p.last && k < |ev|
    requires p.next.Tied? ==> ev[k].order < p.next.c.order
    requires MayClose(f, p.v, ev[k].order) && ev[j].order < ev[k].order
    requires EndsThere(f, ev[k].v, f.vars[p.v].reg, ev[k].order)
    requires m < |ev| && m != j && IsStart(f, ev[m]) && SameRegister(f, ev[m], ev[j])
    ensures m < j || k < m
  {
    var e := ev[k].order;
    EventThere(f, ev, m);
    assert HasStart(f, f.vars[p.v].reg, ev[m].order) && ev[m] != ev[j];
    if ev[m].order == ev[j].order { Later(f, p, ev, m, j); }
    if ev[m].order == e { Later(f, p, ev, k, m); }
  }

  lemma EndOpenLater(f: Function, p: Plan, ev: seq<Event>, j: nat, e: int) returns (k: nat)
    requires Placed(f, p, ev, j) && FreeHere(f, p) && p.last && (p.next.Tied? ==> e < p.next.c.order)
    requires MayClose(f, p.v, e) && ev[j].order < e
    ensures k < |ev| && EndsOpen(f, ev, k, j) && ev[k].order == e
  {
    k := EndThere(f, ev, f.vars[p.v].reg, e);
    Earlier(ev, j, k);
    forall m | 0 <= m < |ev| && m != j && IsStart(f, ev[m]) && SameRegister(f, ev[m], ev[j])
      ensures m < j || k < m
    {
      StartOutside(f, p, ev, j, k, m);
    }
  }

  lemma ClosedLater(f: Function, v: nat, e: int) returns (ev: seq<Event>, j: nat)
    requires VarsOk(f) && v < |f.vars| && !IsParameter(f, v) && MayClose(f, v, e) && f.vars[v].start < e
    requires forall o :: e < o ==> !MustClose(f, v, o)
    ensures Sorted(f, ev) && j < |ev| && ev[j] == Event(f.vars[v].start, v) && ClosedAt(f, ev, |ev|, j) == Some(e)
  {
    var t := SkipFor(f, v, e);
    var p := Plan(v, true, Plain, t);
    ev, j := PlaceFor(f, p);
    var k := EndOpenLater(f, p, ev, j, e);
    NoneOpenBehind(f, p, ev, j, e);
    ClosedThere(f, ev, j, k, e);
  }

  /** Event `m` is another start in the register and at the instruction of event `j`. */
  predicate StartsWith(f: Function, ev: seq<Event>, m: nat, j: nat)
    requires m < |ev| && j < |ev|
  {
    m != j && IsStart(f, ev[m]) && SameRegister(f, ev[m], ev[j]) && ev[m].order == ev[j].order
  }

  /** With only `v` in front of them, the ends where it starts come before every other start there. */
  lemma StartBehind(f: Function, p: Plan, ev: seq<Event>, j: nat, k: nat, m: nat)
    requires Placed(f, p, ev, j) && TiedHere(f, p) && k < |ev| && m < |ev| && StartsWith(f, ev, m, j)
    requires EndsThere(f, ev[k].v, f.vars[p.v].reg, ev[j].order) && ev[k].order == ev[j].order
    ensures k < m
  {
    EventThere(f, ev, m);
    EventThere(f, ev, k);
    assert ev[m] != ev[j];
    Later(f, p, ev, k, m);
  }

  lemma EndBehind(f: Function, p: Plan, ev: seq<Event>, j: nat, k: nat)
    requires Placed(f, p, ev, j) && TiedHere(f, p) && k < |ev|
    requires EndsThere(f, ev[k].v, f.vars[p.v].reg, ev[j].order) && ev[k].order == ev[j].order
    ensures j < k && !IsStart(f, ev[k])
  {
    EventThere(f, ev, k);
    Later(f, p, ev, j, k);
  }

  lemma OpenAtOnce(f: Function, ev: seq<Event>, j: nat, k: nat)
    requires EventsOk(f, ev) && j < k < |ev| && ev[k].order == ev[j].order
    requires SameRegister(f, ev[k], ev[j]) && !IsStart(f, ev[k])
    requires forall m :: 0 <= m < |ev| && StartsWith(f, ev, m, j) ==> k < m
    ensures EndsOpen(f, ev, k, j)
  {
    forall m | j < m < k && IsStart(f, ev[m])
      ensures !SameRegister(f, ev[m], ev[j])
    {
      assert ev[m].order == ev[j].order;
      assert !StartsWith(f, ev, m, j);
    }
  }

  lemma EndOpenHere(f: Function, p: Plan, ev: seq<Event>, j: nat) returns (k: nat)
    requires Placed(f, p, ev, j) && TiedHere(f, p) && MayClose(f, p.v, ev[j].order)
    ensures j < k < |ev| && EndsOpen(f, ev, k, j) && ev[k].order == ev[j].order
    ensures forall m :: 0 <= m < |ev| && StartsWith(f, ev, m, j) ==> k < m
  {
    k := EndThere(f, ev, f.vars[p.v].reg, ev[j].order);
    EndBehind(f, p, ev, j, k);
    forall m | 0 <= m < |ev| && StartsWith(f, ev, m, j)
      ensures k < m
    {
      StartBehind(f, p, ev, j, k, m);
    }
    OpenAtOnce(f, ev, j, k);
  }

  /** Another start at the same instruction, behind the ends there, takes away all later ends. */
  lemma SharedTakesLater(f: Function, p: Plan, ev: seq<Event>, j: nat, k: nat)
    requires Placed(f, p, ev, j) && j < k < |ev| && ev[k].order == ev[j].order && Shared(f, p.v)
    requires forall m :: 0 <= m < |ev| && StartsWith(f, ev, m, j) ==> k < m
    ensures NoneBehind(f, ev, j, ev[j].order)
  {
    var w: nat :| w != p.v && StartsThere(f, w, f.vars[p.v].reg, f.vars[p.v].start);
    var m, n := EventsOf(f, ev, w);
    assert StartsWith(f, ev, m, j);
    forall i | 0 <= i < |ev| && EndsOpen(f, ev, i, j)
      ensures ev[i].order <= ev[j].order
    {
      assert i <= m;
    }
  }

  lemma ClosedHere(f: Function, v: nat) returns (ev: seq<Event>, j: nat)
    requires VarsOk(f) && v < |f.vars| && !IsParameter(f, v) && MayClose(f, v, f.vars[v].start)
    requires Shared(f, v) || forall o :: f.vars[v].start < o ==> !MustClose(f, v, o)
    ensures Sorted(f, ev) && j < |ev| && ev[j] == Event(f.vars[v].start, v)
    ensures ClosedAt(f, ev, |ev|, j) == Some(f.vars[v].start)
  {
    var start := f.vars[v].start;
    var here := TieFor(f, f.vars[v].reg, start, v);
    var next := SkipFor(f, v, start);
    var p := Plan(v, true, here, next);
    ev, j := PlaceFor(f, p);
    var k := EndOpenHere(f, p, ev, j);
    if Shared(f, v) { SharedTakesLater(f, p, ev, j, k); } else { NoneOpenBehind(f, p, ev, j, start); }
    ClosedThere(f, ev, j, k, start);
  }

  /** Some order without inverted neighbours leaves the variable just so. */
  lemma AchievableIsClosed(f: Function, v: nat, c: Option<int>) returns (ev: seq<Event>, j: nat)
    requires VarsOk(f) && v < |f.vars| && !IsParameter(f, v) && Achievable(f, v, c)
    ensures Sorted(f, ev) && j < |ev| && ev[j] == Event(f.vars[v].start, v) && ClosedAt(f, ev, |ev|, j) == c
  {
    match c
    case None =>
      if Shared(f, v) { ev, j := OpenShared(f, v); } else { ev, j := OpenAlone(f, v); }
    case Some(e) =>
      if e == f.vars[v].start { ev, j := ClosedHere(f, v); } else { ev, j := ClosedLater(f, v, e); }
  }

  /** However the variable may be left closed or open, the range that is reported of it is its own. */
  ghost predicate AlwaysRight(f: Function, v: nat)
    requires f.ins != [] && v < |f.vars|
  {
    forall c :: Achievable(f, v, c) ==> ReportedPc(f, c) == PcOf(f, End(f.vars[v]))
  }

  /**
   * Every order without inverted neighbours lets the reader report all ranges exactly if and only if each variable has
   * its own range reported wherever such an order can leave it closed, or open.
   */
  lemma SortReportsExactly(f: Function)
    requires FunctionOk(f) && VarsOk(f)
    ensures (forall ev :: Sorted(f, ev) ==> AllReported(f, ev))
            <==> forall v :: 0 <= v < |f.vars| && !IsParameter(f, v) ==> AlwaysRight(f, v)
  {
    if forall v :: 0 <= v < |f.vars| && !IsParameter(f, v) ==> AlwaysRight(f, v) {
      forall ev, j | Sorted(f, ev) && 0 <= j < |ev| && IsStart(f, ev[j])
        ensures ReportedRight(f, ev, j)
      {
        SortedIsEventList(f, ev);
        EventThere(f, ev, j);
        ClosedIsAchievable(f, ev, j);
      }
    }
    if forall ev :: Sorted(f, ev) ==> AllReported(f, ev) {
      forall v, c | 0 <= v < |f.vars| && !IsParameter(f, v) && Achievable(f, v, c)
        ensures ReportedPc(f, c) == PcOf(f, End(f.vars[v]))
      {
        var ev, j := AchievableIsClosed(f, v, c);
        assert VarOk(f, v) && AllReported(f, ev);
        assert ReportedRight(f, ev, j);
      }
    }
  }
}
