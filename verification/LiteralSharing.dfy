/** Deduplication is complete and keeps the two kinds of array apart, when no id is used by both instructions. */
module LiteralSharing {
  import opened LiteralKeys
  import opened LiteralKeysExact
  import opened LiteralDedup

  /** The one instruction that names each id. */
  type Kinds = map<Id, Opcode>

  /** No buffer instruction names an id that belongs to the other instruction. */
  ghost predicate OneKind(p: Program, kinds: Kinds) {
    forall i :: 0 <= i < |p.code| && IsBuffer(p.code[i]) ==>
      p.code[i].id in kinds && kinds[p.code[i].id] == p.code[i].op
  }

  ghost predicate Known(w: World, kinds: Kinds, id: Id) {
    w.Valid() && id in w.all && id in kinds && kinds[id] != Other
  }

  /** The instruction and the content of an id, as one key. */
  ghost function Class(w: World, kinds: Kinds, id: Id): Bytes
    requires Known(w, kinds, id)
  {
    CompositeKey(kinds[id], TreeKey(w.Content(id)))
  }

  /** Every canonical id is listed under its own class. */
  ghost predicate Keyed(w: World, kinds: Kinds, canonical: map<Bytes, Id>) {
    forall k :: k in canonical ==> Known(w, kinds, canonical[k]) && k == Class(w, kinds, canonical[k])
  }

  /** `id` ends as the canonical id of its class. */
  ghost predicate Ends(w: World, kinds: Kinds, canonical: map<Bytes, Id>, id: Id, end: Id) {
    && Known(w, kinds, id) && Class(w, kinds, id) in canonical && canonical[Class(w, kinds, id)] == end
  }

  function Final(aliases: map<Id, Id>, id: Id): Id {
    if id in aliases then aliases[id] else id
  }

  ghost predicate Extends(c: map<Bytes, Id>, d: map<Bytes, Id>) {
    forall k :: k in c ==> k in d && d[k] == c[k]
  }

  /** During the walk every id seen so far ends as the canonical id of its class. */
  ghost predicate WalkShares(w: World, kinds: Kinds, st: Walk) {
    && Keyed(w, kinds, st.canonical) && st.aliases.Keys <= st.deduplicable.Keys
    && forall id :: id in st.deduplicable ==>
         id in kinds && st.deduplicable[id] == kinds[id] && Ends(w, kinds, st.canonical, id, Final(st.aliases, id))
  }

  lemma ClassOfKey(w: World, kinds: Kinds, table: Table, st: Walk, id: Id, key: Bytes, keyCache: map<Id, Bytes>)
    requires Known(w, kinds, id) && Part(table, w.all) && Closed(table) && Acyclic(table, w.rank) && id in table
    requires Cached(w, table, st, id, key, keyCache)
    ensures CompositeKey(kinds[id], key) == Class(w, kinds, id)
  {
    PartUnfolds(table, w.all, w.rank, id);
  }

  lemma RecordedShares(w: World, kinds: Kinds, st: Walk, id: Id, key: Bytes, keyCache: map<Id, Bytes>)
    requires WalkShares(w, kinds, st) && Known(w, kinds, id) && id !in st.deduplicable
    requires CompositeKey(kinds[id], key) == Class(w, kinds, id)
    ensures WalkShares(w, kinds, Recorded(st, kinds[id], id, key, keyCache))
    ensures Extends(st.canonical, Recorded(st, kinds[id], id, key, keyCache).canonical)
  {
    var st' := Recorded(st, kinds[id], id, key, keyCache);
    forall x | x in st'.deduplicable
      ensures x in kinds && st'.deduplicable[x] == kinds[x] && Ends(w, kinds, st'.canonical, x, Final(st'.aliases, x))
    {
      assert x != id ==> Ends(w, kinds, st.canonical, x, Final(st.aliases, x));
    }
  }

  // ----- all programs -----

  ghost predicate OneKindEach(progs: seq<Program>, kinds: Kinds) {
    forall p :: 0 <= p < |progs| ==> OneKind(progs[p], kinds)
  }

  ghost predicate ProgramShares(w: World, kinds: Kinds, p: Program, aliases: map<Id, Id>, canonical: map<Bytes, Id>) {
    forall i :: 0 <= i < |p.code| && IsBuffer(p.code[i]) ==>
      Ends(w, kinds, canonical, p.code[i].id, Final(aliases, p.code[i].id))
  }

  /** After `n` programs every buffer instruction names the canonical id of its class. */
  ghost predicate Shares(w: World, kinds: Kinds, progs: seq<Program>, al: seq<map<Id, Id>>, n: nat,
      canonical: map<Bytes, Id>) {
    && n <= |progs| && n == |al| && Keyed(w, kinds, canonical)
    && forall p :: 0 <= p < n ==> ProgramShares(w, kinds, progs[p], al[p], canonical)
  }

  ghost predicate AllSeen(p: Program, st: Walk) {
    forall i :: 0 <= i < |p.code| && IsBuffer(p.code[i]) ==> p.code[i].id in st.deduplicable
  }

  lemma SharesStep(w: World, kinds: Kinds, progs: seq<Program>, al: seq<map<Id, Id>>, n: nat,
      canonical: map<Bytes, Id>, st: Walk)
    requires Shares(w, kinds, progs, al, n, canonical) && n < |progs|
    requires WalkShares(w, kinds, st) && Extends(canonical, st.canonical) && AllSeen(progs[n], st)
    ensures Shares(w, kinds, progs, al + [st.aliases], n + 1, st.canonical)
  {
    forall p | 0 <= p < n + 1
      ensures ProgramShares(w, kinds, progs[p], (al + [st.aliases])[p], st.canonical)
    {
      assert p < n ==> ProgramShares(w, kinds, progs[p], al[p], canonical);
    }
  }

  /** Two buffer instructions, by program and position. */
  ghost predicate BothBuffers(progs: seq<Program>, p: nat, i: nat, q: nat, j: nat) {
    && p < |progs| && i < |progs[p].code| && Creates(progs[p].code[i])
    && q < |progs| && j < |progs[q].code| && Creates(progs[q].code[j])
  }

  ghost predicate SameArray(w: World, before: seq<Program>, p: nat, i: nat, q: nat, j: nat)
    requires BothBuffers(before, p, i, q, j)
  {
    && w.Valid() && before[p].code[i].id in w.all && before[q].code[j].id in w.all
    && before[p].code[i].op == before[q].code[j].op
    && w.Content(before[p].code[i].id) == w.Content(before[q].code[j].id)
  }

  ghost predicate PairShares(w: World, before: seq<Program>, after: seq<Program>, p: nat, i: nat, q: nat, j: nat)
    requires BothBuffers(before, p, i, q, j)
  {
    && p < |after| && i < |after[p].code| && q < |after| && j < |after[q].code|
    && (after[p].code[i].id == after[q].code[j].id <==> SameArray(w, before, p, i, q, j))
  }

  /**
   * Across all programs two buffer instructions name the same array afterwards if and only if they are the same
   * instruction and loaded the same content before.
   */
  ghost predicate SharedExactly(w: World, before: seq<Program>, after: seq<Program>) {
    forall p: nat, i: nat, q: nat, j: nat :: BothBuffers(before, p, i, q, j) ==>
      PairShares(w, before, after, p, i, q, j)
  }

  lemma SameClass(w: World, kinds: Kinds, a: Id, b: Id)
    requires Known(w, kinds, a) && Known(w, kinds, b)
    ensures Class(w, kinds, a) == Class(w, kinds, b) <==> kinds[a] == kinds[b] && w.Content(a) == w.Content(b)
  {
    var x, y := Class(w, kinds, a), Class(w, kinds, b);
    assert x[1..] == TreeKey(w.Content(a)) && y[1..] == TreeKey(w.Content(b));
    if x == y {
      assert x[0] == y[0];
      KeyIsExact(w.kind, w.all, w.rank, a, w.all, w.rank, b);
    }
  }

  /** Ids end alike exactly when they are of one class. */
  lemma EndsAlike(w: World, kinds: Kinds, canonical: map<Bytes, Id>, a: Id, endA: Id, b: Id, endB: Id)
    requires Keyed(w, kinds, canonical) && Ends(w, kinds, canonical, a, endA) && Ends(w, kinds, canonical, b, endB)
    ensures endA == endB <==> kinds[a] == kinds[b] && w.Content(a) == w.Content(b)
  {
    SameClass(w, kinds, a, b);
  }

  lemma SharesExactly(w: World, kinds: Kinds, progs: seq<Program>, al: seq<map<Id, Id>>, canonical: map<Bytes, Id>)
    requires OneKindEach(progs, kinds) && Shares(w, kinds, progs, al, |progs|, canonical)
    ensures SharedExactly(w, progs, Finished(progs, al))
  {
    forall p: nat, i: nat, q: nat, j: nat | BothBuffers(progs, p, i, q, j)
      ensures PairShares(w, progs, Finished(progs, al), p, i, q, j)
    {
      assert OneKind(progs[p], kinds) && OneKind(progs[q], kinds);
      assert ProgramShares(w, kinds, progs[p], al[p], canonical) && ProgramShares(w, kinds, progs[q], al[q], canonical);
      var a, b := progs[p].code[i].id, progs[q].code[j].id;
      EndsAlike(w, kinds, canonical, a, Final(al[p], a), b, Final(al[q], b));
    }
  }

  // ----- exactly when no id is used by both instructions -----

  /** Within a program an id is named by one of the two buffer instructions only. */
  ghost predicate NoMixedIds(progs: seq<Program>) {
    forall p, i, j :: 0 <= p < |progs| && 0 <= i < |progs[p].code| && 0 <= j < |progs[p].code|
      && Creates(progs[p].code[i]) && Creates(progs[p].code[j]) && progs[p].code[i].id == progs[p].code[j].id
      ==> progs[p].code[i].op == progs[p].code[j].op
  }

  ghost predicate Uses(progs: seq<Program>, id: Id, p: nat, i: nat) {
    p < |progs| && i < |progs[p].code| && IsBuffer(progs[p].code[i]) && progs[p].code[i].id == id
  }

  ghost predicate Used(progs: seq<Program>, id: Id) {
    exists p: nat, i: nat :: Uses(progs, id, p, i)
  }

  ghost function KindOf(progs: seq<Program>, id: Id): (op: Opcode)
    requires Used(progs, id)
    ensures exists p: nat, i: nat :: Uses(progs, id, p, i) && progs[p].code[i].op == op
  {
    var p: nat, i: nat :| Uses(progs, id, p, i);
    progs[p].code[i].op
  }

  ghost function KindsOf(all: Table, progs: seq<Program>): Kinds {
    map id | id in all && Used(progs, id) :: KindOf(progs, id)
  }

  /** An id is named by the buffer instructions of one program only. */
  lemma UsedInOneProgram(w: World, progs: seq<Program>, id: Id, p: nat, i: nat, q: nat, j: nat)
    requires Mergeable(w, progs) && Uses(progs, id, p, i) && Uses(progs, id, q, j)
    ensures p == q && id in w.all
  {
    assert Inhabits(w, progs[p]) && Inhabits(w, progs[q]);
  }

  lemma UnmixedHaveKinds(w: World, progs: seq<Program>)
    requires Mergeable(w, progs) && NoMixedIds(progs)
    ensures OneKindEach(progs, KindsOf(w.all, progs))
  {
    var kinds := KindsOf(w.all, progs);
    forall p | 0 <= p < |progs|
      ensures OneKind(progs[p], kinds)
    {
      forall i | 0 <= i < |progs[p].code| && IsBuffer(progs[p].code[i])
        ensures progs[p].code[i].id in kinds && kinds[progs[p].code[i].id] == progs[p].code[i].op
      {
        var id := progs[p].code[i].id;
        assert Uses(progs, id, p, i);
        var q: nat, j: nat :| Uses(progs, id, q, j) && progs[q].code[j].op == KindOf(progs, id);
        UsedInOneProgram(w, progs, id, p, i, q, j);
      }
    }
  }

  /** An id that both instructions name ends in one array whatever is done about it. */
  lemma MixedIdsAreShared(w: World, progs: seq<Program>, al: seq<map<Id, Id>>)
    requires |al| == |progs| && SharedExactly(w, progs, Finished(progs, al))
    ensures NoMixedIds(progs)
  {
    forall p: nat, i: nat, j: nat | BothBuffers(progs, p, i, p, j) && progs[p].code[i].id == progs[p].code[j].id
      ensures progs[p].code[i].op == progs[p].code[j].op
    {
      assert PairShares(w, progs, Finished(progs, al), p, i, p, j);
    }
    forall p, i, j | 0 <= p < |progs| && 0 <= i < |progs[p].code| && 0 <= j < |progs[p].code|
      && Creates(progs[p].code[i]) && Creates(progs[p].code[j]) && progs[p].code[i].id == progs[p].code[j].id
      ensures progs[p].code[i].op == progs[p].code[j].op
    {
      assert BothBuffers(progs, p, i, p, j);
    }
  }
}
