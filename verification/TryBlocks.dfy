/** The emitter's side of the exception tables: catch blocks with labels become try blocks with pc ranges. */
module TryBlocks {
  import opened CodeTables

  datatype Key = Key(begin: int, end: int)

  function KeyOf(cb: CatchBlock): Key {
    Key(cb.tryBegin, cb.tryEnd)
  }

  /** The try ranges in the order of their first catch block. */
  function Keys(cbs: seq<CatchBlock>): seq<Key>
    decreases |cbs|
  {
    if cbs == [] then []
    else
      var rest, k := Keys(cbs[..|cbs| - 1]), KeyOf(cbs[|cbs| - 1]);
      if k in rest then rest else rest + [k]
  }

  ghost predicate HasKey(cbs: seq<CatchBlock>, k: Key) {
    exists i :: 0 <= i < |cbs| && KeyOf(cbs[i]) == k
  }

  /** Every range that has a catch block is listed, and listed once. */
  lemma {:induction false} KeysAreDistinct(cbs: seq<CatchBlock>)
    ensures forall k :: k in Keys(cbs) <==> HasKey(cbs, k)
    ensures forall i, j :: 0 <= i < j < |Keys(cbs)| ==> Keys(cbs)[i] != Keys(cbs)[j]
    decreases |cbs|
  {
    if cbs != [] {
      var init := cbs[..|cbs| - 1];
      KeysAreDistinct(init);
      forall k
        ensures HasKey(cbs, k) <==> HasKey(init, k) || k == KeyOf(cbs[|cbs| - 1])
      {
        if HasKey(init, k) { var i :| 0 <= i < |init| && KeyOf(init[i]) == k; assert KeyOf(cbs[i]) == k; }
        if HasKey(cbs, k) {
          var i :| 0 <= i < |cbs| && KeyOf(cbs[i]) == k;
          if i < |init| { assert KeyOf(init[i]) == k; }
        }
      }
    }
  }

  /** The catch blocks of one range, in order. */
  function Group(cbs: seq<CatchBlock>, k: Key): seq<CatchBlock>
    decreases |cbs|
  {
    if cbs == [] then []
    else Group(cbs[..|cbs| - 1], k) + if KeyOf(cbs[|cbs| - 1]) == k then [cbs[|cbs| - 1]] else []
  }

  function MeasuredCatch(items: seq<Item>, cb: CatchBlock): Catch {
    var pc := LabelPc(items, cb.catchBegin, |items|);
    Catch(cb.record, pc, LabelPc(items, cb.catchEnd, |items|) - pc)
  }

  function MeasuredCatches(items: seq<Item>, cbs: seq<CatchBlock>): (cs: seq<Catch>)
    ensures |cs| == |cbs| && forall i :: 0 <= i < |cbs| ==> cs[i] == MeasuredCatch(items, cbs[i])
  {
    seq(|cbs|, i requires 0 <= i < |cbs| => MeasuredCatch(items, cbs[i]))
  }

  function MeasuredTry(items: seq<Item>, k: Key, cbs: seq<CatchBlock>): Try {
    var start := LabelPc(items, k.begin, |items|);
    Try(start, LabelPc(items, k.end, |items|) - start, MeasuredCatches(items, cbs))
  }

  /** The try blocks of the first `n` ranges. */
  function MeasuredKeys(items: seq<Item>, cbs: seq<CatchBlock>, ks: seq<Key>, n: nat): seq<Try>
    requires n <= |ks|
    decreases n
  {
    if n == 0 then [] else MeasuredKeys(items, cbs, ks, n - 1) + [MeasuredTry(items, ks[n - 1], Group(cbs, ks[n - 1]))]
  }

  function Measured(items: seq<Item>, cbs: seq<CatchBlock>): seq<Try> {
    MeasuredKeys(items, cbs, Keys(cbs), |Keys(cbs)|)
  }

  lemma {:induction false} MeasuredAt(items: seq<Item>, cbs: seq<CatchBlock>, ks: seq<Key>, n: nat)
    requires n <= |ks|
    ensures |MeasuredKeys(items, cbs, ks, n)| == n
    ensures forall i :: 0 <= i < n ==>
      MeasuredKeys(items, cbs, ks, n)[i] == MeasuredTry(items, ks[i], Group(cbs, ks[i]))
    decreases n
  {
    if n > 0 { MeasuredAt(items, cbs, ks, n - 1); }
  }

  lemma {:induction false} GroupIs(cbs: seq<CatchBlock>, k: Key)
    ensures forall i :: 0 <= i < |Group(cbs, k)| ==> Group(cbs, k)[i] in cbs && KeyOf(Group(cbs, k)[i]) == k
    ensures k in Keys(cbs) ==> |Group(cbs, k)| > 0
    decreases |cbs|
  {
    if cbs != [] {
      var init := cbs[..|cbs| - 1];
      GroupIs(init, k);
      assert forall c :: c in init ==> c in cbs;
    }
  }

  // ----- the emitter -----

  ghost predicate Grouped(cbs: seq<CatchBlock>, order: seq<Key>, groups: map<Key, seq<CatchBlock>>) {
    && order == Keys(cbs) && groups.Keys == (set k | k in order)
    && forall k :: k in groups ==> groups[k] == Group(cbs, k)
  }

  lemma {:induction false} NoGroup(cbs: seq<CatchBlock>, k: Key)
    requires k !in Keys(cbs)
    ensures Group(cbs, k) == []
    decreases |cbs|
  {
    if cbs != [] { NoGroup(cbs[..|cbs| - 1], k); }
  }

  ghost predicate References(cb: CatchBlock, l: int) {
    l == cb.tryBegin || l == cb.tryEnd || l == cb.catchBegin || l == cb.catchEnd
  }

  ghost predicate Referenced(cbs: seq<CatchBlock>, l: int) {
    exists i :: 0 <= i < |cbs| && References(cbs[i], l)
  }

  /** Groups the catch blocks by range, first come first. */
  method MakeOrder(cbs: seq<CatchBlock>) returns (order: seq<Key>, groups: map<Key, seq<CatchBlock>>)
    ensures Grouped(cbs, order, groups)
  {
    order, groups := [], map[];
    for i := 0 to |cbs|
      invariant Grouped(cbs[..i], order, groups)
    {
      var key := KeyOf(cbs[i]);
      assert cbs[..i + 1][..i] == cbs[..i];
      if key !in groups {
        NoGroup(cbs[..i], key);
        groups := groups[key := []];
        order := order + [key];
      }
      groups := groups[key := groups[key] + [cbs[i]]];
    }
    assert cbs[..|cbs|] == cbs;
  }

  /** The labels the catch blocks use, each with the pc where it stands. */
  method MakeOffsets(items: seq<Item>, cbs: seq<CatchBlock>) returns (labels: map<int, int>)
    ensures forall l :: l in labels <==> Referenced(cbs, l)
    ensures forall l :: l in labels ==> labels[l] == LabelPc(items, l, |items|)
  {
    labels := map[];
    for i := 0 to |cbs|
      invariant forall l :: l in labels <==> Referenced(cbs[..i], l)
      invariant forall l :: l in labels ==> labels[l] == 0
    {
      var cb := cbs[i];
      labels := labels[cb.tryBegin := 0][cb.tryEnd := 0][cb.catchBegin := 0][cb.catchEnd := 0];
      OneMoreReferenced(cbs, i);
    }
    assert cbs[..|cbs|] == cbs;
    var pc := 0;
    for i := 0 to |items|
      invariant pc == ItemPc(items, i)
      invariant forall l :: l in labels <==> Referenced(cbs, l)
      invariant forall l :: l in labels ==> labels[l] == LabelPc(items, l, i)
    {
      if items[i].LabelIns? {
        if items[i].l in labels { labels := labels[items[i].l := pc]; }
      } else {
        pc := pc + items[i].size;
      }
    }
  }

  lemma OneMoreReferenced(cbs: seq<CatchBlock>, i: nat)
    requires i < |cbs|
    ensures forall l :: Referenced(cbs[..i + 1], l) <==> Referenced(cbs[..i], l) || References(cbs[i], l)
  {
    forall l
      ensures Referenced(cbs[..i + 1], l) <==> Referenced(cbs[..i], l) || References(cbs[i], l)
    {
      if Referenced(cbs[..i], l) {
        var j :| 0 <= j < i && References(cbs[..i][j], l);
        assert References(cbs[..i + 1][j], l);
      }
      if References(cbs[i], l) { assert References(cbs[..i + 1][i], l); }
      if Referenced(cbs[..i + 1], l) {
        var j :| 0 <= j < i + 1 && References(cbs[..i + 1][j], l);
        if j < i { assert References(cbs[..i][j], l); }
      }
    }
  }

  ghost predicate OffsetsOf(items: seq<Item>, cbs: seq<CatchBlock>, labels: map<int, int>) {
    && (forall l :: l in labels <==> Referenced(cbs, l))
    && (forall l :: l in labels ==> labels[l] == LabelPc(items, l, |items|))
  }

  lemma KnownLabel(items: seq<Item>, cbs: seq<CatchBlock>, labels: map<int, int>, cb: CatchBlock, l: int)
    requires OffsetsOf(items, cbs, labels) && cb in cbs && References(cb, l)
    ensures l in labels && labels[l] == LabelPc(items, l, |items|)
  {
    var j :| 0 <= j < |cbs| && cbs[j] == cb;
    assert Referenced(cbs, l);
  }

  method BuildCatches(items: seq<Item>, cbs: seq<CatchBlock>, group: seq<CatchBlock>, labels: map<int, int>)
    returns (catches: seq<Catch>)
    requires OffsetsOf(items, cbs, labels)
    requires forall i :: 0 <= i < |group| ==> group[i] in cbs
    ensures catches == MeasuredCatches(items, group)
  {
    catches := [];
    for i := 0 to |group|
      invariant |catches| == i && forall k :: 0 <= k < i ==> catches[k] == MeasuredCatch(items, group[k])
    {
      var cb := group[i];
      KnownLabel(items, cbs, labels, cb, cb.catchBegin);
      KnownLabel(items, cbs, labels, cb, cb.catchEnd);
      var pc := labels[cb.catchBegin];
      catches := catches + [Catch(cb.record, pc, labels[cb.catchEnd] - pc)];
    }
  }

  method BuildTry(items: seq<Item>, cbs: seq<CatchBlock>, group: seq<CatchBlock>, labels: map<int, int>)
    returns (t: Try)
    requires OffsetsOf(items, cbs, labels) && |group| > 0
    requires forall i :: 0 <= i < |group| ==> group[i] in cbs
    ensures t == MeasuredTry(items, KeyOf(group[0]), group)
  {
    var catches := BuildCatches(items, cbs, group, labels);
    KnownLabel(items, cbs, labels, group[0], group[0].tryBegin);
    KnownLabel(items, cbs, labels, group[0], group[0].tryEnd);
    var start := labels[group[0].tryBegin];
    t := Try(start, labels[group[0].tryEnd] - start, catches);
  }

  method BuildAll(items: seq<Item>, cbs: seq<CatchBlock>, order: seq<Key>, groups: map<Key, seq<CatchBlock>>,
      labels: map<int, int>)
    returns (blocks: seq<Try>)
    requires Grouped(cbs, order, groups) && OffsetsOf(items, cbs, labels)
    ensures blocks == Measured(items, cbs)
  {
    blocks := [];
    for i := 0 to |order|
      invariant blocks == MeasuredKeys(items, cbs, order, i)
    {
      var t := BuildOne(items, cbs, order, groups, labels, i);
      blocks := blocks + [t];
    }
  }

  method BuildOne(items: seq<Item>, cbs: seq<CatchBlock>, order: seq<Key>, groups: map<Key, seq<CatchBlock>>,
      labels: map<int, int>, i: nat)
    returns (t: Try)
    requires Grouped(cbs, order, groups) && OffsetsOf(items, cbs, labels) && i < |order|
    ensures t == MeasuredTry(items, order[i], Group(cbs, order[i]))
  {
    GroupOfKey(cbs, order, groups, i);
    t := BuildTry(items, cbs, groups[order[i]], labels);
  }

  /** Every range appears once, in order of first use, with all its handlers in order. */
  method BuildTryBlocks(items: seq<Item>, cbs: seq<CatchBlock>) returns (blocks: seq<Try>)
    ensures items == [] ==> blocks == []
    ensures items != [] ==> blocks == Measured(items, cbs)
  {
    if items == [] {
      return [];
    }
    var order, groups := MakeOrder(cbs);
    var labels := MakeOffsets(items, cbs);
    blocks := BuildAll(items, cbs, order, groups, labels);
  }

  lemma GroupOfKey(cbs: seq<CatchBlock>, order: seq<Key>, groups: map<Key, seq<CatchBlock>>, i: nat)
    requires Grouped(cbs, order, groups) && i < |order|
    ensures order[i] in groups && groups[order[i]] == Group(cbs, order[i])
    ensures |groups[order[i]]| > 0 && KeyOf(groups[order[i]][0]) == order[i]
    ensures forall k :: 0 <= k < |groups[order[i]]| ==> groups[order[i]][k] in cbs
  {
    assert order[i] in Keys(cbs);
    GroupIs(cbs, order[i]);
  }
}
