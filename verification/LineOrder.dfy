/** When the order that the sort leaves lets the reader recover every local variable. */
module LineOrder {
  import opened Options
  import opened LineEmitter
  import opened LineLocals

  /** Every variable is left closed at its own end, index by index. */
  ghost predicate Recovered(f: Function, ev: seq<Event>) {
    forall j :: 0 <= j < |ev| && IsStart(f, ev[j]) ==> ClosedAt(f, ev, |ev|, j) == Some(End(f.vars[ev[j].v]))
  }

  predicate EndMatches(f: Function, ev: seq<Event>, k: nat)
    requires k < |ev| && ev[k].v < |f.vars|
  {
    var j := LastStart(f, ev, k, f.vars[ev[k].v].reg);
    0 <= j && ev[j].v == ev[k].v
  }

  /** The most recent start in the register of each end event is its own. */
  ghost predicate EndsMatch(f: Function, ev: seq<Event>) {
    forall k :: 0 <= k < |ev| && ev[k].v < |f.vars| && !IsStart(f, ev[k]) ==> EndMatches(f, ev, k)
  }

  predicate Apart(x: Var, y: Var) {
    x.reg == y.reg ==> End(x) <= y.start || End(y) <= x.start
  }

  /** No two variables are live in one register at the same time. */
  ghost predicate AllApart(f: Function) {
    forall u, v :: 0 <= u < |f.vars| && 0 <= v < |f.vars| && u != v && !IsParameter(f, u) && !IsParameter(f, v) ==>
      Apart(f.vars[u], f.vars[v])
  }

  predicate SameRegister(f: Function, a: Event, b: Event) {
    a.v < |f.vars| && b.v < |f.vars| && f.vars[a.v].reg == f.vars[b.v].reg
  }

  /** At one instruction no start is put in front of an end in the same register. */
  ghost predicate EndsFirst(f: Function, ev: seq<Event>) {
    forall j, k :: 0 <= j < k < |ev| && ev[j].order == ev[k].order && SameRegister(f, ev[j], ev[k]) ==>
      !(IsStart(f, ev[j]) && !IsStart(f, ev[k]))
  }

  // ----- recovery, event by event -----

  lemma {:induction false} ClosedBy(f: Function, ev: seq<Event>, n: nat, j: int) returns (i: nat)
    requires n <= |ev| && ClosedAt(f, ev, n, j).Some?
    ensures i < n && Closes(f, ev, i, j) && ClosedAt(f, ev, n, j) == Some(ev[i].order)
    decreases n
  {
    if Closes(f, ev, n - 1, j) { i := n - 1; } else { i := ClosedBy(f, ev, n - 1, j); }
  }

  lemma {:induction false} ClosedLast(f: Function, ev: seq<Event>, n: nat, j: int, k: nat)
    requires k < n <= |ev| && Closes(f, ev, k, j) && forall i :: k < i < n ==> !Closes(f, ev, i, j)
    ensures ClosedAt(f, ev, n, j) == Some(ev[k].order)
    decreases n
  {
    if k < n - 1 { ClosedLast(f, ev, n - 1, j, k); }
  }

  /** The two events of a variable, by position. */
  lemma EventsOf(f: Function, ev: seq<Event>, v: nat) returns (j: nat, k: nat)
    requires VarsOk(f) && EventsOk(f, ev) && v < |f.vars| && !IsParameter(f, v)
    ensures j < k < |ev| && ev[j] == Event(f.vars[v].start, v) && ev[k] == Event(End(f.vars[v]), v)
    ensures IsStart(f, ev[j]) && !IsStart(f, ev[k])
  {
    assert VarOk(f, v);
    assert Event(f.vars[v].start, v) in ev && Event(End(f.vars[v]), v) in ev;
    j :| 0 <= j < |ev| && ev[j] == Event(f.vars[v].start, v);
    k :| 0 <= k < |ev| && ev[k] == Event(End(f.vars[v]), v);
    assert ev[j].order < ev[k].order;
  }

  lemma MatchedIsRecovered(f: Function, ev: seq<Event>, j: nat)
    requires VarsOk(f) && EventsOk(f, ev) && EndsMatch(f, ev) && j < |ev| && IsStart(f, ev[j])
    ensures ClosedAt(f, ev, |ev|, j) == Some(End(f.vars[ev[j].v]))
  {
    assert EventOf(f, ev[j]);
    var v := ev[j].v;
    var j', k := EventsOf(f, ev, v);
    assert j' == j;
    OwnStart(f, ev, k, j);
    forall i | k < i < |ev|
      ensures !Closes(f, ev, i, j)
    {
      OnlyOwn(f, ev, i, j);
    }
    ClosedLast(f, ev, |ev|, j, k);
  }

  /** Where ends match, what started at an event is closed by no end but its own. */
  lemma OnlyOwn(f: Function, ev: seq<Event>, i: nat, j: nat)
    requires EventsOk(f, ev) && EndsMatch(f, ev) && i < |ev| && j < |ev| && ev[j].v < |f.vars|
    ensures Closes(f, ev, i, j) ==> ev[i] == Event(End(f.vars[ev[j].v]), ev[j].v)
  {
    assert EventOf(f, ev[i]);
  }

  /** Where ends match, an end closes its own start. */
  lemma OwnStart(f: Function, ev: seq<Event>, k: nat, j: nat)
    requires VarsOk(f) && EventsOk(f, ev) && k < |ev| && !IsStart(f, ev[k]) && ev[k].v < |f.vars|
      && EndMatches(f, ev, k)
    requires j < |ev| && IsStart(f, ev[j]) && ev[j].v == ev[k].v
    ensures Closes(f, ev, k, j)
  {
    var i := LastStart(f, ev, k, f.vars[ev[k].v].reg);
    assert ev[i] == ev[j];
  }

  /** Starts come before every event at a later instruction. */
  lemma Earlier(ev: seq<Event>, j: nat, k: nat)
    requires InOrder(ev) && j < |ev| && k < |ev| && ev[j].order < ev[k].order
    ensures j < k
  {
  }

  lemma RecoveredIsMatched(f: Function, ev: seq<Event>, k: nat)
    requires VarsOk(f) && EventsOk(f, ev) && Recovered(f, ev) && k < |ev| && ev[k].v < |f.vars| && !IsStart(f, ev[k])
    ensures EndMatches(f, ev, k)
  {
    assert EventOf(f, ev[k]);
    var v := ev[k].v;
    var j, k' := EventsOf(f, ev, v);
    assert k' == k;
    var i := ClosedBy(f, ev, |ev|, j);
    assert EventOf(f, ev[i]) && ev[i].order == ev[k].order;
    var jw, iw := EventsOf(f, ev, ev[i].v);
    assert iw == i;
    var i2 := ClosedBy(f, ev, |ev|, jw);
    assert EventOf(f, ev[i2]) && ev[i2].order == ev[k].order;
    BothEarlier(ev, j, jw, i, i2);
    assert jw == j;
    assert i == k;
  }

  lemma BothEarlier(ev: seq<Event>, j: nat, jw: nat, i: nat, i2: nat)
    requires InOrder(ev) && j < |ev| && jw < |ev| && i < |ev| && i2 < |ev| && ev[i].order == ev[i2].order
    requires ev[j].order < ev[i].order && ev[jw].order < ev[i].order
    ensures j < i && jw < i && j < i2 && jw < i2
  {
  }

  /** All variables are recovered exactly when every end finds its own start. */
  lemma RecoveredExactly(f: Function, ev: seq<Event>)
    requires VarsOk(f) && EventsOk(f, ev)
    ensures Recovered(f, ev) <==> EndsMatch(f, ev)
    ensures Recovered(f, ev) ==> !Unmatched(f, ev, |ev|)
  {
    if EndsMatch(f, ev) {
      forall j | 0 <= j < |ev| && IsStart(f, ev[j])
        ensures ClosedAt(f, ev, |ev|, j) == Some(End(f.vars[ev[j].v]))
      {
        MatchedIsRecovered(f, ev, j);
      }
      assert Recovered(f, ev);
    }
    if Recovered(f, ev) {
      forall k | 0 <= k < |ev| && ev[k].v < |f.vars| && !IsStart(f, ev[k])
        ensures EndMatches(f, ev, k)
      {
        RecoveredIsMatched(f, ev, k);
      }
    }
  }

  // ----- a condition on the variables and the ties -----

  lemma OverlapIsOne(f: Function, ev: seq<Event>, u: nat, v: nat)
    requires VarsOk(f) && EventsOk(f, ev) && EndsMatch(f, ev)
    requires u < |f.vars| && v < |f.vars| && !IsParameter(f, u) && !IsParameter(f, v)
    requires f.vars[u].reg == f.vars[v].reg && f.vars[u].start < End(f.vars[v]) && f.vars[v].start < End(f.vars[u])
    ensures u == v
  {
    var ju, ku := EventsOf(f, ev, u);
    var jv, kv := EventsOf(f, ev, v);
    OwnStart(f, ev, ku, ju);
    OwnStart(f, ev, kv, jv);
    Earlier(ev, ju, kv);
    Earlier(ev, jv, ku);
    assert ju == jv;
  }

  lemma MatchedIsApart(f: Function, ev: seq<Event>, u: nat, v: nat)
    requires VarsOk(f) && EventsOk(f, ev) && EndsMatch(f, ev)
    requires u < |f.vars| && v < |f.vars| && u != v && !IsParameter(f, u) && !IsParameter(f, v)
    ensures Apart(f.vars[u], f.vars[v])
  {
    var x, y := f.vars[u], f.vars[v];
    if x.reg == y.reg && x.start < End(y) && y.start < End(x) { OverlapIsOne(f, ev, u, v); }
  }

  lemma MatchedEndsFirst(f: Function, ev: seq<Event>, j: nat, k: nat)
    requires VarsOk(f) && EventsOk(f, ev) && EndsMatch(f, ev) && j < |ev| && k < |ev|
    requires EventOf(f, ev[j]) && EventOf(f, ev[k]) && ev[j].order == ev[k].order && SameRegister(f, ev[j], ev[k])
    requires IsStart(f, ev[j]) && !IsStart(f, ev[k])
    ensures k <= j
  {
    assert VarOk(f, ev[k].v) && EndMatches(f, ev, k);
    var i := LastStart(f, ev, k, f.vars[ev[k].v].reg);
    Earlier(ev, i, j);
  }

  lemma ApartIsMatched(f: Function, ev: seq<Event>, k: nat)
    requires VarsOk(f) && EventsOk(f, ev) && AllApart(f) && EndsFirst(f, ev)
    requires k < |ev| && ev[k].v < |f.vars| && !IsStart(f, ev[k])
    ensures EndMatches(f, ev, k)
  {
    assert EventOf(f, ev[k]);
    var v := ev[k].v;
    var j, k' := EventsOf(f, ev, v);
    assert k' == k;
    var i := LastStart(f, ev, k, f.vars[v].reg);
    assert j <= i && EventOf(f, ev[i]) && VarOk(f, ev[i].v);
    assert SameRegister(f, ev[i], ev[k]) && ev[i].order != ev[k].order;
    assert ev[j].order <= ev[i].order < ev[k].order;
    ApartOrSame(f, ev[i].v, v);
  }

  lemma ApartOrSame(f: Function, u: nat, v: nat)
    requires AllApart(f) && u < |f.vars| && v < |f.vars| && !IsParameter(f, u) && !IsParameter(f, v)
    ensures u == v || Apart(f.vars[u], f.vars[v])
  {
  }

  /**
   * Every end finds its own start exactly when no two variables are live in one register at the same time and, at
   * each instruction, the ends in a register come before the starts.
   */
  lemma MatchedExactly(f: Function, ev: seq<Event>)
    requires VarsOk(f) && EventsOk(f, ev)
    ensures EndsMatch(f, ev) <==> AllApart(f) && EndsFirst(f, ev)
  {
    if EndsMatch(f, ev) {
      forall u, v | 0 <= u < |f.vars| && 0 <= v < |f.vars| && u != v && !IsParameter(f, u) && !IsParameter(f, v)
        ensures Apart(f.vars[u], f.vars[v])
      {
        MatchedIsApart(f, ev, u, v);
      }
      forall j, k | 0 <= j < k < |ev| && ev[j].order == ev[k].order && SameRegister(f, ev[j], ev[k])
        ensures !(IsStart(f, ev[j]) && !IsStart(f, ev[k]))
      {
        if IsStart(f, ev[j]) && !IsStart(f, ev[k]) { MatchedEndsFirst(f, ev, j, k); }
      }
    }
    if AllApart(f) && EndsFirst(f, ev) {
      forall k | 0 <= k < |ev| && ev[k].v < |f.vars| && !IsStart(f, ev[k])
        ensures EndMatches(f, ev, k)
      {
        ApartIsMatched(f, ev, k);
      }
    }
  }
}
