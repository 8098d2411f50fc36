/** Functions in which variables meet or share a register, and the ranges that are reported of them. */
module LineReportCases {
  import opened Options
  import opened LineEmitter
  import opened LineLocals
  import opened LineOrder
  import opened LineAddress
  import opened LineReport
  import opened LineSort
  import opened LineSortExact
  import opened LineReportSorted

  // ----- two functions that lose a variable -----

  /**
   * Four instructions and variables P, Q and R; P starts in register 1 where R ends, and Q ends there in register 2.
   */
  function ThreeMeet(): Function {
    var ins := Ins(true, 1, 1, 0, false);
    Function([ins, ins, ins, ins], [Var("P", 1, 2, 2), Var("Q", 2, 1, 1), Var("R", 1, 0, 2)], 3)
  }

  /** What an insertion sort makes of their events: P starts before R ends, with the end of Q in between. */
  function ThreeMeetOrder(): seq<Event> {
    [Event(0, 2), Event(1, 1), Event(2, 0), Event(2, 1), Event(2, 2), Event(4, 0)]
  }

  lemma ThreeMeetCollected()
    ensures Collected(ThreeMeet(), 3)
            == [Event(2, 0), Event(4, 0), Event(1, 1), Event(2, 1), Event(0, 2), Event(2, 2)]
  {
    var f := ThreeMeet();
    assert Collected(f, 0) == [];
    assert Collected(f, 1) == [Event(2, 0), Event(4, 0)];
    assert Collected(f, 2) == [Event(2, 0), Event(4, 0), Event(1, 1), Event(2, 1)];
  }

  lemma ThreeMeetNoInversion(k: nat)
    requires 0 < k < 6
    ensures !Less(ThreeMeet(), ThreeMeetOrder()[k], ThreeMeetOrder()[k - 1])
  {
    var f, ev := ThreeMeet(), ThreeMeetOrder();
    assert k == 1 || k == 2 || k == 5 ==> ev[k - 1].order < ev[k].order;
  }

  lemma SixSame(p: seq<Event>, q: seq<Event>, u: seq<Event>, v: seq<Event>, w: seq<Event>,
    x: seq<Event>, y: seq<Event>, z: seq<Event>)
    requires p == u + v + w + x + y + z && q == y + w + u + x + z + v
    ensures multiset(p) == multiset(q)
  {
    SumSame(multiset(u), multiset(v), multiset(w), multiset(x), multiset(y), multiset(z));
  }

  lemma SumSame(u: multiset<Event>, v: multiset<Event>, w: multiset<Event>,
    x: multiset<Event>, y: multiset<Event>, z: multiset<Event>)
    ensures y + w + u + x + z + v == u + v + w + x + y + z
  {
  }

  lemma ThreeMeetSame()
    ensures multiset(ThreeMeetOrder()) == multiset(Collected(ThreeMeet(), 3))
  {
    ThreeMeetCollected();
    SixSame(Collected(ThreeMeet(), 3), ThreeMeetOrder(),
            [Event(2, 0)], [Event(4, 0)], [Event(1, 1)], [Event(2, 1)], [Event(0, 2)], [Event(2, 2)]);
  }

  lemma ThreeMeetVars()
    ensures VarsOk(ThreeMeet()) && AllApart(ThreeMeet())
  {
  }

  lemma ThreeMeetIsSorted()
    ensures Sorted(ThreeMeet(), ThreeMeetOrder())
  {
    ThreeMeetSame();
    forall k | 0 < k < 6
      ensures !Less(ThreeMeet(), ThreeMeetOrder()[k], ThreeMeetOrder()[k - 1])
    {
      ThreeMeetNoInversion(k);
    }
  }

  lemma ThreeMeetStarts()
    ensures var f, ev := ThreeMeet(), ThreeMeetOrder();
            LastStart(f, ev, 3, 2) == 1 && LastStart(f, ev, 4, 1) == 2 && LastStart(f, ev, 5, 1) == 2
  {
    var f, ev := ThreeMeet(), ThreeMeetOrder();
    assert IsStart(f, ev[1]) && IsStart(f, ev[2]) && !IsStart(f, ev[3]) && !IsStart(f, ev[4]);
    assert LastStart(f, ev, 2, 2) == 1;
    assert LastStart(f, ev, 3, 1) == 2;
  }

  lemma ThreeMeetClosings(i: nat)
    requires i < 6
    ensures !Closes(ThreeMeet(), ThreeMeetOrder(), i, 0)
    ensures i == 4 ==> Closes(ThreeMeet(), ThreeMeetOrder(), i, 2)
  {
    var f, ev := ThreeMeet(), ThreeMeetOrder();
    ThreeMeetStarts();
    if i == 0 { assert IsStart(f, ev[0]); }
    if i == 1 { assert IsStart(f, ev[1]); }
    if i == 2 { assert IsStart(f, ev[2]); }
  }

  lemma ThreeMeetOpen()
    ensures ClosedAt(ThreeMeet(), ThreeMeetOrder(), 6, 0) == None
  {
    forall i | 0 <= i < 6
      ensures !Closes(ThreeMeet(), ThreeMeetOrder(), i, 0)
    {
      ThreeMeetClosings(i);
    }
    NeverClosed(ThreeMeet(), ThreeMeetOrder(), 6, 0);
  }

  lemma FourInstructions(f: Function)
    requires f.ins == ThreeMeet().ins
    ensures FunctionOk(f) && NewPc(f, 4) == 0 && forall i :: 0 <= i <= 4 ==> PcOf(f, i) == i
  {
    assert Pc(f, 0) == 0 && Pc(f, 1) == 1 && Pc(f, 2) == 2 && Pc(f, 3) == 3 && Pc(f, 4) == 4;
    assert !IsNew(f, 1) && !IsNew(f, 2) && !IsNew(f, 3);
    assert NewPc(f, 1) == 0 && NewPc(f, 2) == 0 && NewPc(f, 3) == 0;
  }

  lemma ThreeMeetLast()
    ensures LastPc(ThreeMeet()) == 4
  {
    var f := ThreeMeet();
    FourInstructions(f);
    assert EndPc(f, 1) == 4 && EndPc(f, 2) == 4;
  }

  /**
   * No variables overlap and no neighbours are inverted, yet the end of R closes P, and R, which ends at 2, never ends:
   * it is reported up to 4.
   */
  lemma ThreeMeetLosesOne()
    ensures VarsOk(ThreeMeet()) && AllApart(ThreeMeet()) && Sorted(ThreeMeet(), ThreeMeetOrder())
    ensures Closes(ThreeMeet(), ThreeMeetOrder(), 4, 2) && ClosedAt(ThreeMeet(), ThreeMeetOrder(), 6, 0) == None
    ensures ReportedPc(ThreeMeet(), None) == 4 && PcOf(ThreeMeet(), End(ThreeMeet().vars[2])) == 2
    ensures !Recovered(ThreeMeet(), ThreeMeetOrder()) && !AllReported(ThreeMeet(), ThreeMeetOrder())
  {
    ThreeMeetVars();
    ThreeMeetIsSorted();
    ThreeMeetOpen();
    ThreeMeetClosings(4);
    ThreeMeetLast();
    FourInstructions(ThreeMeet());
    assert IsStart(ThreeMeet(), ThreeMeetOrder()[0]);
    assert !ReportedRight(ThreeMeet(), ThreeMeetOrder(), 0);
  }

  // ----- two variables live in one register at once -----

  /** Four instructions, x in register 1 over all of them, and y in the same register from the second one on. */
  function TwoVars(yLength: int): Function {
    Function(ThreeMeet().ins, [Var("x", 1, 0, 4), Var("y", 1, 1, yLength)], 3)
  }

  lemma TwoVarsLast(yLength: int)
    requires 0 < yLength <= 3
    ensures FunctionOk(TwoVars(yLength)) && VarsOk(TwoVars(yLength)) && !AllApart(TwoVars(yLength))
    ensures LastPc(TwoVars(yLength)) == 4 && forall i :: 0 <= i <= 4 ==> PcOf(TwoVars(yLength), i) == i
  {
    var f := TwoVars(yLength);
    FourInstructions(f);
    assert EndPc(f, 1) == 4;
    assert !Apart(f.vars[0], f.vars[1]);
  }

  /** Whatever the order, y starts behind x and both end behind that. */
  lemma TwoVarsEvents(yLength: int, ev: seq<Event>) returns (i: nat, j: nat, k: nat, m: nat)
    requires 0 < yLength <= 3 && EventsOk(TwoVars(yLength), ev)
    ensures i < j && j < k < |ev| && j < m < |ev|
    ensures ev[i] == Event(0, 0) && ev[j] == Event(1, 1) && ev[k] == Event(4, 0) && ev[m] == Event(1 + yLength, 1)
    ensures forall n :: 0 <= n < |ev| ==> ev[n] == ev[i] || ev[n] == ev[j] || ev[n] == ev[k] || ev[n] == ev[m]
  {
    var f := TwoVars(yLength);
    TwoVarsLast(yLength);
    var i', k' := EventsOf(f, ev, 0);
    var j', m' := EventsOf(f, ev, 1);
    i, j, k, m := i', j', k', m';
    forall n | 0 <= n < |ev|
      ensures ev[n] == ev[i] || ev[n] == ev[j] || ev[n] == ev[k] || ev[n] == ev[m]
    {
      assert EventOf(f, ev[n]);
    }
  }

  /** The start of y takes all ends away from x. */
  lemma XStaysOpen(yLength: int, ev: seq<Event>, i: nat, j: nat)
    requires 0 < yLength <= 3 && EventsOk(TwoVars(yLength), ev) && i < |ev| && j < |ev|
    requires ev[i] == Event(0, 0) && ev[j] == Event(1, 1)
    ensures ClosedAt(TwoVars(yLength), ev, |ev|, i) == None
  {
    var f := TwoVars(yLength);
    var i', j', k, m := TwoVarsEvents(yLength, ev);
    assert i == i' && j == j';
    forall n | 0 <= n < |ev|
      ensures !EndsOpen(f, ev, n, i)
    {
      assert n > j ==> SameRegister(f, ev[j], ev[i]) && IsStart(f, ev[j]);
    }
    NoEndNotClosed(f, ev, i);
  }

  /** The end of x is the last behind the start of y. */
  lemma YClosedLast(ev: seq<Event>, j: nat)
    requires EventsOk(TwoVars(2), ev) && j < |ev| && ev[j] == Event(1, 1)
    ensures ClosedAt(TwoVars(2), ev, |ev|, j) == Some(4)
  {
    var f := TwoVars(2);
    var i, j', k, m := TwoVarsEvents(2, ev);
    assert j == j' && m < k;
    assert !IsStart(f, ev[k]) && !IsStart(f, ev[m]);
    assert EndsOpen(f, ev, k, j);
    assert LastEnd(f, ev, k, j);
    ClosedAtLastEnd(f, ev, k, j);
  }

  /**
   * With y over [1, 3) the comparator is a strict weak order, and in every order y is reported up to 4, while x, which
   * no end closes, has its own range.
   */
  lemma NestedLosesOne(ev: seq<Event>) returns (i: nat, j: nat)
    requires EventList(TwoVars(2), ev)
    ensures StrictWeak(TwoVars(2), ev) && i < |ev| && j < |ev| && ev[i] == Event(0, 0) && ev[j] == Event(1, 1)
    ensures ReportedPc(TwoVars(2), ClosedAt(TwoVars(2), ev, |ev|, i)) == 4 == PcOf(TwoVars(2), 4)
    ensures ReportedPc(TwoVars(2), ClosedAt(TwoVars(2), ev, |ev|, j)) == 4 != PcOf(TwoVars(2), 3)
  {
    TwoVarsLast(2);
    EventListIsOk(TwoVars(2), ev);
    var k, m;
    i, j, k, m := TwoVarsEvents(2, ev);
    OneRegister(ev);
    XStaysOpen(2, ev, i, j);
    YClosedLast(ev, j);
  }

  lemma OneRegister(ev: seq<Event>)
    requires EventsOk(TwoVars(2), ev)
    ensures StrictWeak(TwoVars(2), ev)
  {
    var f := TwoVars(2);
    forall a, b, c | a in ev && b in ev && c in ev
      ensures !Tie(f, a, b, c)
    {
      assert EventOf(f, a) && EventOf(f, b);
    }
    StrictWeakExactly(f, ev);
  }

  /** With y over [1, 4) no end can close x, and y is closed at 4 in any case. */
  lemma TwoVarsRight(v: nat)
    requires v < 2
    ensures AlwaysRight(TwoVars(3), v)
  {
    var f := TwoVars(3);
    TwoVarsLast(3);
    assert StartsThere(f, 1, 1, 1) && EndsThere(f, 1, 1, 4);
    assert HasStart(f, 1, 1) && HasEnd(f, 1, 4);
    forall o
      ensures HasEnd(f, 1, o) ==> o == 4
      ensures HasStart(f, 1, o) ==> o == 0 || o == 1
    {
    }
    assert v == 0 ==> !MayClose(f, v, 4);
    assert v == 1 ==> !Shared(f, v) && !HasStart(f, 1, 4) && MustClose(f, v, 4);
  }

  lemma OverlapReportsAll()
    ensures forall ev :: Sorted(TwoVars(3), ev) ==> AllReported(TwoVars(3), ev)
  {
    TwoVarsLast(3);
    TwoVarsRight(0);
    TwoVarsRight(1);
    SortReportsExactly(TwoVars(3));
  }

  /** Then no order closes both variables by their own ends, yet every one has both ranges reported exactly. */
  lemma OverlapLosesNone(ev: seq<Event>)
    requires Sorted(TwoVars(3), ev)
    ensures !Recovered(TwoVars(3), ev) && AllReported(TwoVars(3), ev)
  {
    TwoVarsLast(3);
    SortedIsEventList(TwoVars(3), ev);
    OverlapMissesOwnEnd(TwoVars(3), ev, 0, 1);
    OverlapReportsAll();
  }
}
