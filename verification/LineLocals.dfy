/** Local-variable events in the line-number program and what replaying them leaves. */
module LineLocals {
  import opened Options
  import opened LineProgram
  import opened LineEmitter
  import opened LineRoundTrip

  predicate IsParameter(f: Function, v: nat)
    requires v < |f.vars|
  {
    f.vars[v].reg < 0 || f.vars[v].reg >= f.regsNum
  }

  function End(x: Var): int {
    x.start + x.length
  }

  predicate VarOk(f: Function, v: nat)
    requires v < |f.vars|
  {
    0 <= f.vars[v].start && 0 < f.vars[v].length && End(f.vars[v]) <= |f.ins|
  }

  /** Non-parameter variables are not empty and lie inside the function; they may share registers in any way. */
  ghost predicate VarsOk(f: Function) {
    forall v :: 0 <= v < |f.vars| && !IsParameter(f, v) ==> VarOk(f, v)
  }

  predicate IsStart(f: Function, e: Event) {
    e.v < |f.vars| && e.order == f.vars[e.v].start
  }

  predicate EventOf(f: Function, e: Event) {
    e.v < |f.vars| && !IsParameter(f, e.v) && (e.order == f.vars[e.v].start || e.order == End(f.vars[e.v]))
  }

  // ----- collecting the events -----

  /** The events of the first `n` variables, before they are sorted. */
  function Collected(f: Function, n: nat): seq<Event>
    requires n <= |f.vars|
    decreases n
  {
    if n == 0 then []
    else Collected(f, n - 1)
         + if IsParameter(f, n - 1) then [] else [Event(f.vars[n - 1].start, n - 1), Event(End(f.vars[n - 1]), n - 1)]
  }

  /** A start and an end of each variable that lives in a register of the frame, and nothing else. */
  lemma {:induction false} CollectedExactly(f: Function, n: nat, e: Event)
    requires n <= |f.vars|
    ensures e in Collected(f, n) <==>
            && e.v < n && 0 <= f.vars[e.v].reg < f.regsNum
            && (e.order == f.vars[e.v].start || e.order == f.vars[e.v].start + f.vars[e.v].length)
    decreases n
  {
    if n > 0 { CollectedExactly(f, n - 1, e); }
  }

  ghost predicate InOrder(ev: seq<Event>) {
    forall j, k :: 0 <= j <= k < |ev| ==> ev[j].order <= ev[k].order
  }

  /** What the sort leaves for certain: the collected events, ordered by instruction. */
  ghost predicate EventList(f: Function, ev: seq<Event>) {
    multiset(ev) == multiset(Collected(f, |f.vars|)) && InOrder(ev)
  }

  ghost predicate EventsOk(f: Function, ev: seq<Event>) {
    && InOrder(ev) && (forall k :: 0 <= k < |ev| ==> EventOf(f, ev[k]))
    && (forall v :: 0 <= v < |f.vars| && !IsParameter(f, v) ==>
          Event(f.vars[v].start, v) in ev && Event(End(f.vars[v]), v) in ev)
    && (forall j, k :: 0 <= j < k < |ev| ==> ev[j] != ev[k])
  }

  ghost predicate CollectedOk(f: Function, n: nat, es: seq<Event>) {
    && n <= |f.vars| && (forall k :: 0 <= k < |es| ==> EventOf(f, es[k]) && es[k].v < n)
    && (forall v :: 0 <= v < n && !IsParameter(f, v) ==>
          Event(f.vars[v].start, v) in es && Event(End(f.vars[v]), v) in es)
    && (forall j, k :: 0 <= j < k < |es| ==> es[j] != es[k])
  }

  lemma {:induction false} CollectedIsOk(f: Function, n: nat)
    requires VarsOk(f) && n <= |f.vars|
    ensures CollectedOk(f, n, Collected(f, n))
    decreases n
  {
    if n > 0 {
      CollectedIsOk(f, n - 1);
      CollectedStep(f, n, Collected(f, n - 1), Collected(f, n));
    }
  }

  lemma CollectedStep(f: Function, n: nat, es: seq<Event>, more: seq<Event>)
    requires VarsOk(f) && 0 < n <= |f.vars| && CollectedOk(f, n - 1, es)
    requires more == es + if IsParameter(f, n - 1) then []
                          else [Event(f.vars[n - 1].start, n - 1), Event(End(f.vars[n - 1]), n - 1)]
    ensures CollectedOk(f, n, more)
  {
    if !IsParameter(f, n - 1) {
      assert VarOk(f, n - 1) && more[|es|].v == more[|es| + 1].v == n - 1;
    }
    forall v | 0 <= v < n && !IsParameter(f, v)
      ensures Event(f.vars[v].start, v) in more && Event(End(f.vars[v]), v) in more
    {
      if v == n - 1 { assert more[|es|] == Event(f.vars[v].start, v) && more[|es| + 1] == Event(End(f.vars[v]), v); }
    }
  }

  lemma {:induction false} TwiceIn(ev: seq<Event>, j: nat, k: nat)
    requires j < k < |ev| && ev[j] == ev[k]
    ensures multiset(ev)[ev[j]] >= 2
  {
    assert ev == ev[..k] + ev[k..];
    assert ev[..k][j] == ev[j] && ev[k..][0] == ev[k];
    assert ev[j] in multiset(ev[..k]) && ev[j] in multiset(ev[k..]);
  }

  lemma {:induction false} OnceIn(es: seq<Event>, e: Event)
    requires forall j, k :: 0 <= j < k < |es| ==> es[j] != es[k]
    ensures multiset(es)[e] <= 1
    decreases |es|
  {
    if es != [] {
      var init := es[..|es| - 1];
      OnceIn(init, e);
      assert es == init + [es[|es| - 1]];
      if e == es[|es| - 1] {
        assert e !in init;
        assert e !in multiset(init);
      }
    }
  }

  /** Sorted, every event of every variable is still there exactly once. */
  lemma EventListIsOk(f: Function, ev: seq<Event>)
    requires VarsOk(f) && EventList(f, ev)
    ensures EventsOk(f, ev)
  {
    var es := Collected(f, |f.vars|);
    CollectedIsOk(f, |f.vars|);
    forall k | 0 <= k < |ev|
      ensures EventOf(f, ev[k])
    {
      assert ev[k] in multiset(ev);
      assert ev[k] in es;
    }
    forall e | e in es
      ensures e in ev
    {
      assert e in multiset(es);
      assert e in multiset(ev);
    }
    forall j, k | 0 <= j < k < |ev|
      ensures ev[j] != ev[k]
    {
      if ev[j] == ev[k] {
        TwiceIn(ev, j, k);
        OnceIn(es, ev[j]);
      }
    }
  }

  // ----- which variable an end closes -----

  /** The most recent start in register `reg` before event `k`, if any. */
  function LastStart(f: Function, ev: seq<Event>, k: nat, reg: int): (j: int)
    requires k <= |ev|
    ensures -1 <= j < k
    ensures 0 <= j ==> IsStart(f, ev[j]) && f.vars[ev[j].v].reg == reg
    ensures forall i :: j < i < k && IsStart(f, ev[i]) ==> f.vars[ev[i].v].reg != reg
    decreases k
  {
    if k == 0 then -1
    else if IsStart(f, ev[k - 1]) && f.vars[ev[k - 1].v].reg == reg then k - 1
    else LastStart(f, ev, k - 1, reg)
  }

  /** Event `i` is an end, and the reader takes it for the end of what started at event `j`. */
  predicate Closes(f: Function, ev: seq<Event>, i: nat, j: int)
    requires i < |ev|
  {
    ev[i].v < |f.vars| && !IsStart(f, ev[i]) && LastStart(f, ev, i, f.vars[ev[i].v].reg) == j
  }

  /** The instruction at which the first `k` events leave the variable started at event `j` closed. */
  function ClosedAt(f: Function, ev: seq<Event>, k: nat, j: int): Option<int>
    requires k <= |ev|
    decreases k
  {
    if k == 0 then None else if Closes(f, ev, k - 1, j) then Some(ev[k - 1].order) else ClosedAt(f, ev, k - 1, j)
  }

  /** An end before any start in its register: the reader gives up on it. */
  ghost predicate Unmatched(f: Function, ev: seq<Event>, k: nat)
    requires k <= |ev|
  {
    exists i :: 0 <= i < k && Closes(f, ev, i, -1)
  }

  // ----- the start events -----

  /** The start events among the first `k`, in order. */
  ghost function StartsIn(f: Function, ev: seq<Event>, k: nat): (js: seq<int>)
    requires k <= |ev|
    ensures forall n :: 0 <= n < |js| ==> 0 <= js[n] < k && IsStart(f, ev[js[n]])
    ensures forall m, n :: 0 <= m < n < |js| ==> js[m] < js[n]
    decreases k
  {
    if k == 0 then [] else StartsIn(f, ev, k - 1) + (if IsStart(f, ev[k - 1]) then [k - 1] else [])
  }

  lemma StartIsListed(f: Function, ev: seq<Event>, k: nat, j: nat) returns (n: nat)
    requires j < k <= |ev| && IsStart(f, ev[j])
    ensures n < |StartsIn(f, ev, k)| && StartsIn(f, ev, k)[n] == j
    decreases k
  {
    if j == k - 1 { n := |StartsIn(f, ev, k - 1)|; } else { n := StartIsListed(f, ev, k - 1, j); }
  }

  // ----- the reader -----

  ghost function PcOf(f: Function, i: int): int {
    if 0 <= i <= |f.ins| then Pc(f, i) else 0
  }

  /** The entry of a variable whose end was seen at instruction `end`, or not yet. */
  ghost function LocalOf(f: Function, v: nat, end: Option<int>): Local
    requires v < |f.vars|
  {
    var x := f.vars[v];
    Local(x.name, x.reg, PcOf(f, x.start), if end.Some? then PcOf(f, end.value) else 0)
  }

  /** After `k` events the reader has one entry per start, with the end that the last closing event gave it. */
  ghost predicate LocalsOk(f: Function, ev: seq<Event>, k: nat, r: Reader)
    requires k <= |ev|
  {
    var js := StartsIn(f, ev, k);
    && (r.bad <==> Unmatched(f, ev, k)) && |r.locals| == |js|
    && forall n :: 0 <= n < |js| ==> r.locals[n] == LocalOf(f, ev[js[n]].v, ClosedAt(f, ev, k, js[n]))
  }

  lemma LastInIs(locals: seq<Local>, reg: int, n: int)
    requires -1 <= n < |locals| && (0 <= n ==> locals[n].reg == reg)
    requires forall m :: n < m < |locals| ==> locals[m].reg != reg
    ensures LastIn(locals, reg) == n
    decreases |locals|
  {
    if n < |locals| - 1 { LastInIs(locals[..|locals| - 1], reg, n); }
  }

  /** The reader's most recent entry in a register is that of the most recent start. */
  lemma LastEntry(f: Function, ev: seq<Event>, k: nat, r: Reader, reg: int)
    requires k <= |ev| && LocalsOk(f, ev, k, r)
    ensures var n, j := LastIn(r.locals, reg), LastStart(f, ev, k, reg);
            if j < 0 then n < 0 else 0 <= n && StartsIn(f, ev, k)[n] == j
  {
    var js, j := StartsIn(f, ev, k), LastStart(f, ev, k, reg);
    var n := -1;
    if 0 <= j { n := StartIsListed(f, ev, k, j); }
    forall m | n < m < |js|
      ensures r.locals[m].reg != reg
    {
      assert j < js[m] < k && IsStart(f, ev[js[m]]);
    }
    LastInIs(r.locals, reg, n);
  }

  lemma StartStep(f: Function, ev: seq<Event>, k: nat, r: Reader)
    requires k < |ev| && IsStart(f, ev[k]) && LocalsOk(f, ev, k, r) && r.address == PcOf(f, ev[k].order)
    ensures LocalsOk(f, ev, k + 1, ReadOp(r, StartLocal(f.vars[ev[k].v].reg, f.vars[ev[k].v].name)))
  {
    var js := StartsIn(f, ev, k);
    assert StartsIn(f, ev, k + 1) == js + [k];
    NotClosedYet(f, ev, k, k);
    UnmatchedStep(f, ev, k);
  }

  lemma {:induction false} NotClosedYet(f: Function, ev: seq<Event>, k: nat, j: nat)
    requires k <= |ev| && k <= j
    ensures ClosedAt(f, ev, k, j) == None
    decreases k
  {
    if k > 0 { NotClosedYet(f, ev, k - 1, j); }
  }

  lemma UnmatchedStep(f: Function, ev: seq<Event>, k: nat)
    requires k < |ev|
    ensures Unmatched(f, ev, k + 1) <==> Unmatched(f, ev, k) || Closes(f, ev, k, -1)
  {
    if Unmatched(f, ev, k) {
      var i :| 0 <= i < k && Closes(f, ev, i, -1);
      assert Unmatched(f, ev, k + 1);
    }
  }

  lemma EndStep(f: Function, ev: seq<Event>, k: nat, r: Reader)
    requires k < |ev| && ev[k].v < |f.vars| && !IsStart(f, ev[k]) && LocalsOk(f, ev, k, r)
    requires r.address == PcOf(f, ev[k].order)
    ensures LocalsOk(f, ev, k + 1, ReadOp(r, EndLocal(f.vars[ev[k].v].reg)))
  {
    var reg := f.vars[ev[k].v].reg;
    var js := StartsIn(f, ev, k);
    assert StartsIn(f, ev, k + 1) == js;
    LastEntry(f, ev, k, r, reg);
    UnmatchedStep(f, ev, k);
    var n, r' := LastIn(r.locals, reg), ReadOp(r, EndLocal(reg));
    forall m | 0 <= m < |js|
      ensures r'.locals[m] == LocalOf(f, ev[js[m]].v, ClosedAt(f, ev, k + 1, js[m]))
    {
      assert Closes(f, ev, k, js[m]) <==> m == n;
    }
  }

  /** One event, with the pending pc increment flushed before it. */
  lemma TrackLocal(f: Function, ev: seq<Event>, k: nat, st: Emitted)
    requires VarsOk(f) && EventsOk(f, ev) && k < |ev| && 0 <= ev[k].order <= |f.ins|
    requires Tracks(f, true, ev[k].order, ev[k].order, ev[k].order, st) && LocalsOk(f, ev, k, Read(f, st))
    ensures var st' := WithLocal(f, st, ev[k].order, ev[k].v);
            && Tracks(f, true, ev[k].order, ev[k].order, ev[k].order, st')
            && LocalsOk(f, ev, k + 1, Read(f, st')) && Read(f, st').address == Pc(f, ev[k].order)
            && st'.prevLine == st.prevLine && st'.prevColumn == st.prevColumn
            && Read(f, st').lines == Read(f, st).lines && Read(f, st').columns == Read(f, st).columns
  {
    var i, x := ev[k].order, f.vars[ev[k].v];
    assert EventOf(f, ev[k]) && VarOk(f, ev[k].v);
    var st1 := WithPc(st);
    TrackPc(f, true, i, st);
    var op := if IsStart(f, ev[k]) then StartLocal(x.reg, x.name) else EndLocal(x.reg);
    LocalsAfterPc(f, ev, k, Read(f, st), Pc(f, i));
    if IsStart(f, ev[k]) { StartStep(f, ev, k, Read(f, st1)); } else { EndStep(f, ev, k, Read(f, st1)); }
    LocalOpTracks(f, i, st1, op);
    assert WithLocal(f, st, i, ev[k].v) == st1.(ops := st1.ops + [op]);
  }

  lemma LocalsAfterPc(f: Function, ev: seq<Event>, k: nat, r: Reader, address: int)
    requires k <= |ev| && LocalsOk(f, ev, k, r)
    ensures LocalsOk(f, ev, k, r.(address := address))
  {
  }

  lemma LocalOpTracks(f: Function, i: int, st: Emitted, op: Op)
    requires Tracks(f, true, i, i, i, st) && (op.StartLocal? || op.EndLocal?)
    ensures Tracks(f, true, i, i, i, st.(ops := st.ops + [op]))
    ensures Read(f, st.(ops := st.ops + [op])) == ReadOp(Read(f, st), op)
  {
    ReadMore(f, st, [op]);
    ReadOne(Read(f, st), op);
  }
}
