/** Labels made from pcs and measured again give the same jumps and the same try tables. */
module TryRoundTrip {
  import opened CodeTables
  import opened TryBlocks

  predicate SameRange(t: Try, u: Try) {
    t.start == u.start && t.length == u.length
  }

  /** Among the first `m` try blocks every range is used once and has a handler. */
  predicate Proper(tries: seq<Try>, m: int)
    requires 0 <= m <= |tries|
  {
    && (forall k :: 0 <= k < m ==> tries[k].catches != [])
    && (forall j, k :: 0 <= j < k < m ==> !SameRange(tries[j], tries[k]))
  }

  ghost predicate TriesOk(raw: seq<Raw>, tries: seq<Try>) {
    RawOk(raw) && forall k :: 0 <= k < |tries| ==> TryOk(raw, tries[k])
  }

  ghost function TryKey(raw: seq<Raw>, t: Try): Key
    requires TryOk(raw, t)
  {
    Key(Idx(raw, t.start), Idx(raw, t.start + t.length))
  }

  lemma SameKeySameRange(raw: seq<Raw>, t: Try, u: Try)
    requires RawOk(raw) && TryOk(raw, t) && TryOk(raw, u)
    ensures TryKey(raw, t) == TryKey(raw, u) <==> SameRange(t, u)
  {
    PcInjective(raw, Idx(raw, t.start), Idx(raw, u.start));
    PcInjective(raw, Idx(raw, t.start + t.length), Idx(raw, u.start + u.length));
  }

  // ----- grouping what was flattened -----

  ghost predicate AllOf(b: seq<CatchBlock>, k: Key) {
    forall i :: 0 <= i < |b| ==> KeyOf(b[i]) == k
  }

  lemma {:induction false} KeysAppend(a: seq<CatchBlock>, b: seq<CatchBlock>, k: Key)
    requires AllOf(b, k)
    ensures Keys(a + b) == if b == [] || k in Keys(a) then Keys(a) else Keys(a) + [k]
    decreases |b|
  {
    if b == [] {
      assert a + b == a;
    } else {
      var init := b[..|b| - 1];
      assert (a + b)[..|a + b| - 1] == a + init;
      KeysAppend(a, init, k);
    }
  }

  lemma {:induction false} GroupAppend(a: seq<CatchBlock>, b: seq<CatchBlock>, k: Key, other: Key)
    requires AllOf(b, k)
    ensures Group(a + b, other) == Group(a, other) + if other == k then b else []
    decreases |b|
  {
    if b == [] {
      assert a + b == a;
    } else {
      var init := b[..|b| - 1];
      assert (a + b)[..|a + b| - 1] == a + init;
      GroupAppend(a, init, k, other);
      assert b == init + [b[|b| - 1]];
    }
  }

  ghost function TryKeys(raw: seq<Raw>, tries: seq<Try>, m: int): (ks: seq<Key>)
    requires TriesOk(raw, tries) && 0 <= m <= |tries|
    ensures |ks| == m && forall i :: 0 <= i < m ==> ks[i] == TryKey(raw, tries[i])
  {
    seq(m, i requires 0 <= i < m => TryKey(raw, tries[i]))
  }

  lemma BlocksHaveKey(raw: seq<Raw>, t: Try)
    requires TryOk(raw, t)
    ensures AllOf(BlocksOf(raw, t, |t.catches|), TryKey(raw, t))
  {
  }

  lemma KeyIsNew(raw: seq<Raw>, tries: seq<Try>, m: int)
    requires TriesOk(raw, tries) && 0 < m <= |tries|
    ensures TryKey(raw, tries[m - 1]) in TryKeys(raw, tries, m - 1)
            <==> exists j :: 0 <= j < m - 1 && SameRange(tries[j], tries[m - 1])
  {
    forall j | 0 <= j < m - 1
      ensures TryKey(raw, tries[m - 1]) == TryKey(raw, tries[j]) <==> SameRange(tries[j], tries[m - 1])
    {
      SameKeySameRange(raw, tries[j], tries[m - 1]);
    }
  }

  lemma KeysStep(raw: seq<Raw>, tries: seq<Try>, m: int)
    requires TriesOk(raw, tries) && 0 < m <= |tries|
    ensures var ks, key := Keys(AllBlocks(raw, tries, m - 1)), TryKey(raw, tries[m - 1]);
            Keys(AllBlocks(raw, tries, m)) == if tries[m - 1].catches == [] || key in ks then ks else ks + [key]
  {
    var t := tries[m - 1];
    BlocksHaveKey(raw, t);
    KeysAppend(AllBlocks(raw, tries, m - 1), BlocksOf(raw, t, |t.catches|), TryKey(raw, t));
  }

  /** What `ks`, the ranges found in the first `m` try blocks, says about them. */
  ghost predicate Counts(ks: seq<Key>, raw: seq<Raw>, tries: seq<Try>, m: int)
    requires TriesOk(raw, tries) && 0 <= m <= |tries|
  {
    && |ks| <= m && (|ks| == m <==> Proper(tries, m))
    && (Proper(tries, m) ==> ks == TryKeys(raw, tries, m))
  }

  /** One key per try block exactly when the ranges are distinct and none is without a handler. */
  lemma {:induction false} KeysOfAll(raw: seq<Raw>, tries: seq<Try>, m: int, ks: seq<Key>)
    requires TriesOk(raw, tries) && 0 <= m <= |tries| && ks == Keys(AllBlocks(raw, tries, m))
    ensures Counts(ks, raw, tries, m)
    decreases m
  {
    if m > 0 {
      var before := Keys(AllBlocks(raw, tries, m - 1));
      KeysOfAll(raw, tries, m - 1, before);
      KeysStep(raw, tries, m);
      KeysCounted(before, ks, raw, tries, m);
    }
  }

  lemma KeysCounted(ks: seq<Key>, more: seq<Key>, raw: seq<Raw>, tries: seq<Try>, m: int)
    requires TriesOk(raw, tries) && 0 < m <= |tries| && Counts(ks, raw, tries, m - 1)
    requires more == if tries[m - 1].catches == [] || TryKey(raw, tries[m - 1]) in ks then ks
                     else ks + [TryKey(raw, tries[m - 1])]
    ensures Counts(more, raw, tries, m)
  {
    KeyIsNew(raw, tries, m);
    ProperStep(tries, m);
    TryKeysStep(raw, tries, m);
    CountStep(ks, TryKeys(raw, tries, m - 1), TryKey(raw, tries[m - 1]), Proper(tries, m - 1),
      tries[m - 1].catches != [], m);
  }

  lemma TryKeysStep(raw: seq<Raw>, tries: seq<Try>, m: int)
    requires TriesOk(raw, tries) && 0 < m <= |tries|
    ensures TryKeys(raw, tries, m) == TryKeys(raw, tries, m - 1) + [TryKey(raw, tries[m - 1])]
  {
  }

  lemma CountStep(ks: seq<Key>, all: seq<Key>, key: Key, proper: bool, some: bool, m: int)
    requires |ks| <= m - 1 && (|ks| == m - 1 <==> proper) && (proper ==> ks == all)
    ensures var more := if !some || key in ks then ks else ks + [key];
            && |more| <= m && (|more| == m <==> proper && some && key !in all)
            && (proper && some && key !in all ==> more == all + [key])
  {
  }

  lemma ProperStep(tries: seq<Try>, m: int)
    requires 0 < m <= |tries|
    ensures Proper(tries, m) <==>
            && Proper(tries, m - 1) && tries[m - 1].catches != []
            && !exists j :: 0 <= j < m - 1 && SameRange(tries[j], tries[m - 1])
  {
  }

  lemma {:induction false} GroupOfTry(raw: seq<Raw>, tries: seq<Try>, m: int, k: int)
    requires TriesOk(raw, tries) && 0 <= k < |tries| && 0 <= m <= |tries| && Proper(tries, |tries|)
    ensures Group(AllBlocks(raw, tries, m), TryKey(raw, tries[k]))
            == if k < m then BlocksOf(raw, tries[k], |tries[k].catches|) else []
    decreases m
  {
    if m > 0 {
      GroupOfTry(raw, tries, m - 1, k);
      OwnBlocks(raw, tries, m, k);
    }
  }

  lemma OwnBlocks(raw: seq<Raw>, tries: seq<Try>, m: int, k: int)
    requires TriesOk(raw, tries) && 0 <= k < |tries| && 0 < m <= |tries| && Proper(tries, |tries|)
    ensures var key := TryKey(raw, tries[k]);
            Group(AllBlocks(raw, tries, m), key)
            == Group(AllBlocks(raw, tries, m - 1), key)
               + if k == m - 1 then BlocksOf(raw, tries[k], |tries[k].catches|) else []
  {
    GroupOneMore(raw, tries, m, k);
    RangeOnce(tries, m - 1, k);
  }

  lemma RangeOnce(tries: seq<Try>, j: int, k: int)
    requires Proper(tries, |tries|) && 0 <= j < |tries| && 0 <= k < |tries|
    ensures SameRange(tries[j], tries[k]) <==> j == k
  {
    if j < k { assert !SameRange(tries[j], tries[k]); }
    if k < j { assert !SameRange(tries[k], tries[j]); }
  }

  lemma GroupOneMore(raw: seq<Raw>, tries: seq<Try>, m: int, k: int)
    requires TriesOk(raw, tries) && 0 <= k < |tries| && 0 < m <= |tries|
    ensures var key, t := TryKey(raw, tries[k]), tries[m - 1];
            Group(AllBlocks(raw, tries, m), key)
            == Group(AllBlocks(raw, tries, m - 1), key)
               + if SameRange(t, tries[k]) then BlocksOf(raw, t, |t.catches|) else []
  {
    var t := tries[m - 1];
    BlocksHaveKey(raw, t);
    GroupAppend(AllBlocks(raw, tries, m - 1), BlocksOf(raw, t, |t.catches|), TryKey(raw, t), TryKey(raw, tries[k]));
    SameKeySameRange(raw, t, tries[k]);
  }

  // ----- measuring -----

  ghost predicate HasLabels(raw: seq<Raw>, t: Try, labels: set<int>)
    requires TryOk(raw, t)
  {
    && Idx(raw, t.start) in labels && Idx(raw, t.start + t.length) in labels
    && forall k :: 0 <= k < |t.catches| ==>
         Idx(raw, t.catches[k].handler) in labels && Idx(raw, t.catches[k].handler + t.catches[k].size) in labels
  }

  /** The list the disassembler leaves: every pc that is referred to has its label. */
  ghost predicate Rebuilt(raw: seq<Raw>, tries: seq<Try>, ins: seq<Item>, labels: set<int>) {
    && InputOk(raw, tries) && TargetsAre(raw, ins)
    && (forall k :: 0 <= k < |tries| ==> HasLabels(raw, tries[k], labels))
    && (forall i :: 0 <= i < |raw| && raw[i].jump.Some? ==> TargetOf(raw, i).value in labels)
  }

  lemma PcMeasured(raw: seq<Raw>, ins: seq<Item>, labels: set<int>, pc: int)
    requires TargetsAre(raw, ins) && Boundary(raw, pc) && Idx(raw, pc) in labels
    ensures LabelPc(AllLabelled(ins, labels), Idx(raw, pc), |AllLabelled(ins, labels)|) == pc
  {
    LabelMeasured(raw, ins, labels, Idx(raw, pc));
  }

  lemma CatchMeasured(raw: seq<Raw>, ins: seq<Item>, labels: set<int>, t: Try, k: int)
    requires TargetsAre(raw, ins) && TryOk(raw, t) && HasLabels(raw, t, labels) && 0 <= k < |t.catches|
    ensures MeasuredCatch(AllLabelled(ins, labels), BlockOf(raw, t, t.catches[k])) == t.catches[k]
  {
    var c := t.catches[k];
    assert CatchOk(raw, c);
    PcMeasured(raw, ins, labels, c.handler);
    PcMeasured(raw, ins, labels, c.handler + c.size);
  }

  lemma TryMeasured(raw: seq<Raw>, ins: seq<Item>, labels: set<int>, t: Try)
    requires TargetsAre(raw, ins) && TryOk(raw, t) && HasLabels(raw, t, labels)
    ensures MeasuredTry(AllLabelled(ins, labels), TryKey(raw, t), BlocksOf(raw, t, |t.catches|)) == t
  {
    PcMeasured(raw, ins, labels, t.start);
    PcMeasured(raw, ins, labels, t.start + t.length);
    var cs := MeasuredCatches(AllLabelled(ins, labels), BlocksOf(raw, t, |t.catches|));
    forall k | 0 <= k < |t.catches|
      ensures cs[k] == t.catches[k]
    {
      CatchMeasured(raw, ins, labels, t, k);
    }
  }

  /**
   * The try tables come back as they were if and only if no two of them have the same range and each has a
   * handler: ranges that are equal are merged, and a range without handlers is lost.
   */
  lemma TriesComeBack(raw: seq<Raw>, tries: seq<Try>, ins: seq<Item>, labels: set<int>)
    requires Rebuilt(raw, tries, ins, labels)
    ensures Measured(AllLabelled(ins, labels), AllBlocks(raw, tries, |tries|)) == tries <==> Proper(tries, |tries|)
  {
    var cbs := AllBlocks(raw, tries, |tries|);
    KeysOfAll(raw, tries, |tries|, Keys(cbs));
    MeasuredAt(AllLabelled(ins, labels), cbs, Keys(cbs), |Keys(cbs)|);
    if Proper(tries, |tries|) {
      var ts := Measured(AllLabelled(ins, labels), cbs);
      forall k | 0 <= k < |tries|
        ensures ts[k] == tries[k]
      {
        GroupOfTry(raw, tries, |tries|, k);
        TryMeasured(raw, ins, labels, tries[k]);
      }
    }
  }

  // ----- jumps and indices -----

  /** Labels in front of instruction `i`, its own included. */
  function LabelsUpTo(labels: set<int>, i: int): nat
    requires 0 <= i
    decreases i
  {
    (if i in labels then 1 else 0) + if i == 0 then 0 else LabelsUpTo(labels, i - 1)
  }

  /** Where instruction `i`, or the end of the code, is in the list with labels. */
  function NewIndex(labels: set<int>, i: int): int
    requires 0 <= i
  {
    i + LabelsUpTo(labels, i)
  }

  lemma {:induction false} LabelledLength(ins: seq<Item>, labels: set<int>, n: int)
    requires 0 <= n <= |ins|
    ensures |Labelled(ins, labels, n)| == n + if n == 0 then 0 else LabelsUpTo(labels, n - 1)
    decreases n
  {
    if n > 0 { LabelledLength(ins, labels, n - 1); }
  }

  lemma {:induction false} LabelledAt(ins: seq<Item>, labels: set<int>, i: int, n: int)
    requires 0 <= i < n <= |ins|
    ensures NewIndex(labels, i) < |Labelled(ins, labels, n)| && Labelled(ins, labels, n)[NewIndex(labels, i)] == ins[i]
    decreases n
  {
    LabelledLength(ins, labels, n - 1);
    if i < n - 1 { LabelledAt(ins, labels, i, n - 1); }
  }

  lemma {:induction false} LabelledPrefix(ins: seq<Item>, labels: set<int>, i: int, n: int)
    requires 0 <= i <= n <= |ins|
    ensures Labelled(ins, labels, i) <= Labelled(ins, labels, n)
    decreases n
  {
    if i < n { LabelledPrefix(ins, labels, i, n - 1); }
  }

  /** Every instruction is still there, behind its label, at the pc it had. */
  lemma InstructionStays(raw: seq<Raw>, ins: seq<Item>, labels: set<int>, i: int)
    requires TargetsAre(raw, ins) && 0 <= i < |raw|
    ensures var all := AllLabelled(ins, labels);
            NewIndex(labels, i) < |all| && all[NewIndex(labels, i)] == ins[i]
              && ItemPc(all, NewIndex(labels, i)) == Pc(raw, i)
  {
    var all, front := AllLabelled(ins, labels), Labelled(ins, labels, i) + Here(labels, i);
    LabelledAt(ins, labels, i, |ins|);
    FrontOf(ins, labels, i);
    FrontPc(raw, ins, labels, i);
    PrefixPc(front, all[|front|..], |front|);
    assert all == front + all[|front|..];
  }

  /** What stands in front of instruction `i`: the earlier instructions and labels, and its own label. */
  lemma FrontOf(ins: seq<Item>, labels: set<int>, i: int)
    requires 0 <= i < |ins|
    ensures var front := Labelled(ins, labels, i) + Here(labels, i);
            |front| == NewIndex(labels, i) && front <= AllLabelled(ins, labels)
  {
    LabelledLength(ins, labels, i);
    LabelledPrefix(ins, labels, i + 1, |ins|);
    assert Labelled(ins, labels, i + 1) == Labelled(ins, labels, i) + Here(labels, i) + [ins[i]];
  }

  lemma FrontPc(raw: seq<Raw>, ins: seq<Item>, labels: set<int>, i: int)
    requires TargetsAre(raw, ins) && 0 <= i < |raw|
    ensures var front := Labelled(ins, labels, i) + Here(labels, i); ItemPc(front, |front|) == Pc(raw, i)
  {
    LabelledPc(raw, ins, labels, 0, i);
    HerePc(Labelled(ins, labels, i), labels, i, 0);
  }

  /** A jump is as long as it was: from where the instruction stands to where its target label stands. */
  lemma JumpsComeBack(raw: seq<Raw>, tries: seq<Try>, ins: seq<Item>, labels: set<int>, i: int)
    requires Rebuilt(raw, tries, ins, labels) && 0 <= i < |raw| && raw[i].jump.Some?
    ensures var all := AllLabelled(ins, labels);
            && 0 <= NewIndex(labels, i) < |all| && all[NewIndex(labels, i)] == ins[i] && ins[i].target.Some?
            && LabelPc(all, ins[i].target.value, |all|) - ItemPc(all, NewIndex(labels, i)) == raw[i].jump.value
  {
    InstructionStays(raw, ins, labels, i);
    assert JumpOk(raw, i);
    PcMeasured(raw, ins, labels, Pc(raw, i) + raw[i].jump.value);
  }
}
