/** The deduplication itself: one walk over each program's instructions, then the rewrite. */
module LiteralDedupPass {
  import opened LiteralKeys
  import opened LiteralDedup
  import opened LiteralSharing
  import opened LiteralHolders

  /** What the walk over `p` may rely on about the programs before it. */
  ghost predicate Prepared(w: World, p: Program, canonical: map<Bytes, Id>) {
    w.Valid() && Inhabits(w, p) && CanonicalOk(w, canonical) && canonical.Values !! p.table.Keys
  }

  ghost predicate SharesSoFar(w: World, kinds: Kinds, p: Program, canonical: map<Bytes, Id>) {
    Prepared(w, p, canonical) && OneKind(p, kinds) && Keyed(w, kinds, canonical)
  }

  /** Sharing is exact so far, and the next use is by the one instruction that uses the id. */
  ghost predicate SameKindNext(w: World, kinds: Kinds, st: Walk, op: Opcode, id: Id) {
    WalkShares(w, kinds, st) && Known(w, kinds, id) && kinds[id] == op
  }

  /** The first time an id is seen: it becomes canonical for its class, or an alias of what already is. */
  method RecordFirst(op: Opcode, id: Id, table: Table, st: Walk, ghost w: World, ghost prior: set<Id>,
      ghost kinds: Kinds)
    returns (st': Walk)
    requires id !in st.deduplicable
    ensures st'.deduplicable.Keys == st.deduplicable.Keys + {id} && st'.aliases.Keys <= st.aliases.Keys + {id}
    ensures WalkOk(w, table, prior, st) && id in table ==>
      WalkOk(w, table, prior, st') && st' == Met(w, st, op, id, st'.keyCache)
    ensures WalkOk(w, table, prior, st) && id in table && SameKindNext(w, kinds, st, op, id) ==>
      WalkShares(w, kinds, st') && Extends(st.canonical, st'.canonical)
  {
    var key, keyCache := ComputeContentKey(id, table, st.keyCache, {}, w.rank);
    if WalkOk(w, table, prior, st) && id in table {
      RecordedOk(w, table, prior, st, op, id, key, keyCache);
      PartUnfolds(table, w.all, w.rank, id);
      if WalkShares(w, kinds, st) && Known(w, kinds, id) && kinds[id] == op {
        ClassOfKey(w, kinds, table, st, id, key, keyCache);
        RecordedShares(w, kinds, st, id, key, keyCache);
      }
    }
    st' := Recorded(st, op, id, key, keyCache);
  }

  /** One buffer instruction; it fails where the memoised key of a mixed-use id is not there. */
  method MeetBuffer(op: Opcode, id: Id, table: Table, st: Walk, ghost w: World, ghost prior: set<Id>,
      ghost kinds: Kinds)
    returns (ok: bool, st': Walk)
    ensures ok ==> st'.deduplicable.Keys == st.deduplicable.Keys + {id} && st'.aliases.Keys <= st.aliases.Keys + {id}
    ensures WalkOk(w, table, prior, st) && id in table ==>
      ok && WalkOk(w, table, prior, st') && st' == Met(w, st, op, id, st'.keyCache)
    ensures WalkOk(w, table, prior, st) && id in table && SameKindNext(w, kinds, st, op, id) ==>
      WalkShares(w, kinds, st') && Extends(st.canonical, st'.canonical)
  {
    ok, st' := true, st;
    if id !in st.deduplicable {
      st' := RecordFirst(op, id, table, st, w, prior, kinds);
    } else if st.deduplicable[id] != op {
      if id !in st.keyCache {
        return false, st;
      }
      if WalkOk(w, table, prior, st) {
        UndoneOk(w, table, prior, st, id);
        if id in table { PartUnfolds(table, w.all, w.rank, id); }
      }
      st' := Undone(st, id);
    }
  }

  /** The walk after `n` instructions. */
  ghost predicate Walked(p: Program, n: nat, st: Walk)
    requires n <= |p.code|
  {
    && (forall id :: id in st.aliases ==> exists i :: 0 <= i < n && IsBuffer(p.code[i]) && p.code[i].id == id)
    && (forall i :: 0 <= i < n && IsBuffer(p.code[i]) ==> p.code[i].id in st.deduplicable)
  }

  lemma WalkedStep(p: Program, n: nat, st: Walk, st': Walk)
    requires n < |p.code| && Walked(p, n, st) && IsBuffer(p.code[n])
    requires st'.deduplicable.Keys == st.deduplicable.Keys + {p.code[n].id}
    requires st'.aliases.Keys <= st.aliases.Keys + {p.code[n].id}
    ensures Walked(p, n + 1, st')
  {
    forall id | id in st'.aliases
      ensures exists i :: 0 <= i < n + 1 && IsBuffer(p.code[i]) && p.code[i].id == id
    {
      if id == p.code[n].id { assert IsBuffer(p.code[n]); } else { assert id in st.aliases; }
    }
  }

  lemma BufferIsKnown(w: World, kinds: Kinds, p: Program, n: nat)
    requires w.Valid() && Inhabits(w, p) && n < |p.code| && IsBuffer(p.code[n])
    ensures p.code[n].id in p.table
    ensures OneKind(p, kinds) ==> Known(w, kinds, p.code[n].id) && kinds[p.code[n].id] == p.code[n].op
  {
  }

  /** The walk has gone through `n` instructions of a program. */
  ghost predicate CollectedTo(w: World, kinds: Kinds, p: Program, c0: map<Bytes, Id>, n: nat, st: Walk)
    requires n <= |p.code|
  {
    && Walked(p, n, st)
    && (Prepared(w, p, c0) ==> WalkOk(w, p.table, c0.Values, st) && Follows(w, p, c0, n, st))
    && (SharesSoFar(w, kinds, p, c0) ==> WalkShares(w, kinds, st) && Extends(c0, st.canonical))
  }

  method CollectNext(p: Program, n: nat, st: Walk, ghost w: World, ghost kinds: Kinds, ghost c0: map<Bytes, Id>)
    returns (ok: bool, st': Walk)
    requires n < |p.code| && CollectedTo(w, kinds, p, c0, n, st)
    ensures Prepared(w, p, c0) ==> ok
    ensures ok ==> CollectedTo(w, kinds, p, c0, n + 1, st')
  {
    ghost var good := Prepared(w, p, c0);
    if !IsBuffer(p.code[n]) {
      if good { FollowsStep(w, p, c0, n, st, st); }
      return true, st;
    }
    if good { BufferIsKnown(w, kinds, p, n); }
    ok, st' := MeetBuffer(p.code[n].op, p.code[n].id, p.table, st, w, c0.Values, kinds);
    if ok {
      WalkedStep(p, n, st, st');
      if good { FollowsStep(w, p, c0, n, st, st'); }
    }
  }

  /**
   * One walk over a program's instructions: what holds before it for the arrays seen so far holds after it, and
   * every class has the canonical id, and every id the alias, that the order of the uses gives it.
   */
  method CollectAndResolveDuplicates(p: Program, canonical: map<Bytes, Id>, ghost w: World, ghost kinds: Kinds)
    returns (ok: bool, st: Walk)
    ensures Prepared(w, p, canonical) ==> ok && WalkOk(w, p.table, canonical.Values, st)
    ensures Prepared(w, p, canonical) ==> Follows(w, p, canonical, |p.code|, st)
    ensures ok ==> (forall id :: id in st.aliases ==> NamedByBuffer(p, id)) && AllSeen(p, st)
    ensures SharesSoFar(w, kinds, p, canonical) ==> WalkShares(w, kinds, st) && Extends(canonical, st.canonical)
  {
    st := Walk(canonical, map[], map[], map[]);
    if Prepared(w, p, canonical) { PartIsAcyclic(p.table, w.all, w.rank); }
    ok := true;
    for n := 0 to |p.code|
      invariant CollectedTo(w, kinds, p, canonical, n, st)
    {
      ok, st := CollectNext(p, n, st, w, kinds, canonical);
      if !ok {
        return;
      }
    }
    AllCollected(w, kinds, p, canonical, st);
  }

  lemma AllCollected(w: World, kinds: Kinds, p: Program, c0: map<Bytes, Id>, st: Walk)
    requires CollectedTo(w, kinds, p, c0, |p.code|, st)
    ensures (forall id :: id in st.aliases ==> NamedByBuffer(p, id)) && AllSeen(p, st)
  {
  }

  /** The rewrite of one program: resolve its buffer instructions, then drop the arrays that became aliases. */
  method Rewrite(p: Program, aliases: map<Id, Id>) returns (r: Program)
    ensures r == Rewritten(p, aliases)
  {
    var code := p.code;
    for i := 0 to |p.code|
      invariant |code| == |p.code|
      invariant forall j :: 0 <= j < i ==> code[j] == Resolved(aliases, p.code[j])
      invariant forall j :: i <= j < |code| ==> code[j] == p.code[j]
    {
      if IsBuffer(code[i]) && code[i].id in aliases {
        code := code[i := code[i].(id := aliases[code[i].id])];
      }
    }
    r := Program(p.table - aliases.Keys, code);
  }

  /** After `n` programs: content is kept and, where every id has one kind, sharing is exact. */
  ghost predicate MergedSoFar(w: World, kinds: Kinds, before: seq<Program>, al: seq<map<Id, Id>>, n: nat,
      canonical: map<Bytes, Id>) {
    && (Mergeable(w, before) ==> Merged(w, before, al, n, canonical))
    && (Mergeable(w, before) && OneKindEach(before, kinds) ==> Shares(w, kinds, before, al, n, canonical))
  }

  lemma NextIsPrepared(w: World, kinds: Kinds, before: seq<Program>, al: seq<map<Id, Id>>, n: nat,
      canonical: map<Bytes, Id>)
    requires MergedSoFar(w, kinds, before, al, n, canonical) && n < |before|
    ensures Mergeable(w, before) ==> Prepared(w, before[n], canonical)
    ensures Mergeable(w, before) && OneKindEach(before, kinds) ==> SharesSoFar(w, kinds, before[n], canonical)
  {
    if Mergeable(w, before) {
      HomesAreElsewhere(w, before, al, n, canonical);
      assert Inhabits(w, before[n]);
    }
  }

  lemma NextIsMerged(w: World, kinds: Kinds, before: seq<Program>, al: seq<map<Id, Id>>, n: nat,
      canonical: map<Bytes, Id>, st: Walk)
    requires MergedSoFar(w, kinds, before, al, n, canonical) && n < |before|
    requires (forall id :: id in st.aliases ==> NamedByBuffer(before[n], id)) && AllSeen(before[n], st)
    requires Mergeable(w, before) ==> WalkOk(w, before[n].table, canonical.Values, st)
    requires Mergeable(w, before) && OneKindEach(before, kinds) ==>
      WalkShares(w, kinds, st) && Extends(canonical, st.canonical)
    ensures MergedSoFar(w, kinds, before, al + [st.aliases], n + 1, st.canonical)
  {
    if Mergeable(w, before) {
      MergeStep(w, before, al, n, canonical, st);
      if OneKindEach(before, kinds) { SharesStep(w, kinds, before, al, n, canonical, st); }
    }
  }

  lemma AllIsMerged(w: World, before: seq<Program>, al: seq<map<Id, Id>>, canonical: map<Bytes, Id>)
    requires MergedSoFar(w, KindsOf(w.all, before), before, al, |before|, canonical) && Mergeable(w, before)
    ensures ContentKept(w, before, Finished(before, al)) <==> NothingLost(w, before, Finished(before, al))
    ensures BufferIdsExclusive(before) ==> NothingLost(w, before, Finished(before, al))
    ensures SharedExactly(w, before, Finished(before, al)) <==> NoMixedIds(before)
    ensures forall p :: 0 <= p < |before| ==> ErasedExactly(before[p], Finished(before, al)[p])
  {
    forall p | 0 <= p < |before|
      ensures ErasedExactly(before[p], Finished(before, al)[p])
    {
      GivenUpExactly(w, before, al, canonical, p);
    }
    MergedKeepsContent(w, before, al, canonical);
    if BufferIdsExclusive(before) { ExclusiveLosesNothing(w, before, al, canonical); }
    if NoMixedIds(before) {
      UnmixedHaveKinds(w, before);
      SharesExactly(w, KindsOf(w.all, before), before, al, canonical);
    }
    if SharedExactly(w, before, Finished(before, al)) { MixedIdsAreShared(w, before, al); }
  }

  /**
   * Every instruction still loads what it loaded if and only if none reaches an array that was given up, which holds
   * where only buffer instructions name what they name. Two of these share an array exactly when they are the same
   * instruction and load the same content, if and only if no id is named by both instructions.
   */
  method DeduplicateLiteralArrays(progs: array<Program>, ghost w: World) returns (ok: bool)
    modifies progs
    ensures Mergeable(w, old(progs[..])) ==>
      ok && (ContentKept(w, old(progs[..]), progs[..]) <==> NothingLost(w, old(progs[..]), progs[..]))
    ensures Mergeable(w, old(progs[..])) && BufferIdsExclusive(old(progs[..])) ==>
      NothingLost(w, old(progs[..]), progs[..])
    ensures Mergeable(w, old(progs[..])) ==>
      (SharedExactly(w, old(progs[..]), progs[..]) <==> NoMixedIds(old(progs[..])))
    ensures Mergeable(w, old(progs[..])) ==>
      forall p :: 0 <= p < progs.Length ==> ErasedExactly(old(progs[..])[p], progs[..][p])
  {
    ghost var before := progs[..];
    ghost var kinds := KindsOf(w.all, before);
    ghost var al: seq<map<Id, Id>> := [];
    var canonical: map<Bytes, Id> := map[];
    ok := true;
    for n := 0 to progs.Length
      invariant |before| == progs.Length && |al| == n
      invariant forall i :: 0 <= i < n ==> progs[i] == Rewritten(before[i], al[i])
      invariant forall i :: n <= i < progs.Length ==> progs[i] == before[i]
      invariant MergedSoFar(w, kinds, before, al, n, canonical)
    {
      var st: Walk;
      NextIsPrepared(w, kinds, before, al, n, canonical);
      ok, st := CollectAndResolveDuplicates(progs[n], canonical, w, kinds);
      if !ok {
        return;
      }
      NextIsMerged(w, kinds, before, al, n, canonical, st);
      progs[n] := Rewrite(progs[n], st.aliases);
      canonical := st.canonical;
      al := al + [st.aliases];
    }
    assert progs[..] == Finished(before, al);
    if Mergeable(w, before) { AllIsMerged(w, before, al, canonical); }
  }
}
