/** Deduplication of identical literal arrays across the merged programs. */
module LiteralDedup {
  import opened LiteralKeys
  import opened LiteralKeysExact

  datatype Opcode = CreateArrayWithBuffer | CreateObjectWithBuffer | Other

  datatype Insn = Insn(op: Opcode, id: Id)

  /** A program's literal arrays and the instructions of all its functions in traversal order. */
  datatype Program = Program(table: Table, code: seq<Insn>)

  predicate IsBuffer(insn: Insn) {
    insn.op != Other
  }

  /** The two instructions that create an array or an object from a literal array. */
  predicate Creates(insn: Insn) {
    insn.op == CreateArrayWithBuffer || insn.op == CreateObjectWithBuffer
  }

  function CompositeKey(op: Opcode, key: Bytes): Bytes {
    [if op == CreateArrayWithBuffer then 1 else 2] + key
  }

  // ----- part of a table -----

  ghost predicate Part(t: Table, u: Table) {
    forall id :: id in t ==> id in u && t[id] == u[id]
  }

  ghost predicate RefsIn(t: Table, id: Id)
    requires id in t
  {
    forall i :: 0 <= i < |t[id]| && IsRef(t[id][i]) ==> t[id][i].value.s in t
  }

  /** Every reference leads to an entry of the same table. */
  ghost predicate Closed(t: Table) {
    forall id :: id in t ==> RefsIn(t, id)
  }

  lemma PartIsAcyclic(t: Table, u: Table, rank: map<Id, nat>)
    requires Part(t, u) && Acyclic(u, rank)
    ensures Acyclic(t, rank)
  {
    forall id | id in t
      ensures RefsBelow(t, rank, id)
    {
      assert RefsBelow(u, rank, id);
    }
  }

  /** A closed part of a table unfolds its arrays as the whole table does. */
  lemma {:induction false} PartUnfolds(t: Table, u: Table, rank: map<Id, nat>, id: Id)
    requires Part(t, u) && Closed(t) && Acyclic(u, rank) && Acyclic(t, rank) && id in t
    ensures Unfold(t, rank, id) == Unfold(u, rank, id)
    decreases Rank(rank, id)
  {
    forall i | 0 <= i < |t[id]|
      ensures UnfoldLiteral(t, rank, id, i) == UnfoldLiteral(u, rank, id, i)
    {
      var lit := t[id][i];
      if IsRef(lit) {
        assert RefsIn(t, id) && RefsBelow(t, rank, id);
        PartUnfolds(t, u, rank, lit.value.s);
      }
    }
  }

  /** The array and all that it refers to, at any depth, are among those that remain. */
  ghost predicate Whole(t: Table, remaining: Table, rank: map<Id, nat>, id: Id)
    requires Acyclic(t, rank) && id in t
    decreases Rank(rank, id), 1
  {
    id in remaining && forall i :: 0 <= i < |t[id]| ==> WholeLiteral(t, remaining, rank, id, i)
  }

  ghost predicate WholeLiteral(t: Table, remaining: Table, rank: map<Id, nat>, id: Id, i: int)
    requires Acyclic(t, rank) && id in t && 0 <= i < |t[id]|
    decreases Rank(rank, id), 0
  {
    var lit := t[id][i];
    IsRef(lit) && lit.value.s in t ==> (assert RefsBelow(t, rank, id); Whole(t, remaining, rank, lit.value.s))
  }

  /** In what remains of a table an array unfolds as it did before exactly if all that it refers to remains. */
  lemma {:induction false} WholeUnfolds(t: Table, remaining: Table, rank: map<Id, nat>, id: Id)
    requires Part(remaining, t) && Acyclic(t, rank) && Acyclic(remaining, rank) && id in remaining
    ensures Unfold(remaining, rank, id) == Unfold(t, rank, id) <==> Whole(t, remaining, rank, id)
    decreases Rank(rank, id)
  {
    var x, y := Unfold(remaining, rank, id).items, Unfold(t, rank, id).items;
    assert |x| == |y| == |t[id]|;
    forall i | 0 <= i < |t[id]|
      ensures x[i] == y[i] <==> WholeLiteral(t, remaining, rank, id, i)
    {
      var lit := t[id][i];
      assert x[i] == UnfoldLiteral(remaining, rank, id, i) && y[i] == UnfoldLiteral(t, rank, id, i);
      if IsRef(lit) && lit.value.s in remaining {
        assert RefsBelow(t, rank, id);
        WholeUnfolds(t, remaining, rank, lit.value.s);
      }
    }
    if Whole(t, remaining, rank, id) { assert x == y; }
  }

  // ----- one program -----

  /** What one walk over the instructions keeps. */
  datatype Walk = Walk(
    canonical: map<Bytes, Id>,
    aliases: map<Id, Id>,
    deduplicable: map<Id, Opcode>,
    keyCache: map<Id, Bytes>)

  /** All original arrays with their ranks, and the kind of value each tag carries. */
  datatype World = World(all: Table, rank: map<Id, nat>, kind: Byte -> Kind) {
    ghost predicate Valid() {
      Acyclic(all, rank) && forall id :: id in all ==> Typed(kind, Unfold(all, rank, id).items)
    }

    ghost function Content(id: Id): Tree
      requires Valid() && id in all
    {
      Unfold(all, rank, id)
    }
  }

  /** A program of the world: its references stay inside it and its buffer instructions name its own arrays. */
  ghost predicate Inhabits(w: World, p: Program) {
    && Part(p.table, w.all) && Closed(p.table)
    && forall i :: 0 <= i < |p.code| && IsBuffer(p.code[i]) ==> p.code[i].id in p.table
  }

  /** Equal composite keys mean equal content. */
  ghost predicate CanonicalOk(w: World, canonical: map<Bytes, Id>)
    requires w.Valid()
  {
    forall k :: k in canonical ==> |k| > 0 && canonical[k] in w.all && k[1..] == TreeKey(w.Content(canonical[k]))
  }

  /** An id that is already placed: seen in this program, or canonical before it. */
  ghost predicate Settled(prior: set<Id>, st: Walk, id: Id) {
    (id in st.deduplicable || id in prior) && id !in st.aliases
  }

  ghost predicate AliasOk(w: World, table: Table, prior: set<Id>, st: Walk, id: Id)
    requires w.Valid() && id in st.aliases
  {
    && id in st.deduplicable && id in table && st.aliases[id] in w.all && id in w.all
    && w.Content(st.aliases[id]) == w.Content(id)
    && Settled(prior, st, st.aliases[id])
  }

  ghost predicate WalkOk(w: World, table: Table, prior: set<Id>, st: Walk) {
    && w.Valid() && Part(table, w.all) && Closed(table) && Acyclic(table, w.rank) && prior !! table.Keys
    && CacheExact(table, w.rank, st.keyCache)
    && (forall id :: id in st.deduplicable ==> id in table && id in st.keyCache)
    && CanonicalOk(w, st.canonical)
    && (forall k :: k in st.canonical ==> Settled(prior, st, st.canonical[k]))
    && (forall id :: id in st.aliases ==> AliasOk(w, table, prior, st, id))
  }

  /** First occurrence of a buffer id: it becomes canonical for its content, or an alias of what already is. */
  function Recorded(st: Walk, op: Opcode, id: Id, key: Bytes, keyCache: map<Id, Bytes>): Walk {
    var ck := CompositeKey(op, key);
    var st1 := st.(deduplicable := st.deduplicable[id := op], keyCache := keyCache);
    if ck in st.canonical then st1.(aliases := st.aliases[id := st.canonical[ck]])
    else st1.(canonical := st.canonical[ck := id])
  }

  /** An id used by both instructions is taken out again; aliases that point to it stay. */
  function Undone(st: Walk, id: Id): Walk
    requires id in st.deduplicable && id in st.keyCache
  {
    st.(canonical := st.canonical - {CompositeKey(st.deduplicable[id], st.keyCache[id])}, aliases := st.aliases - {id})
  }

  ghost predicate Cached(w: World, table: Table, st: Walk, id: Id, key: Bytes, keyCache: map<Id, Bytes>)
    requires Acyclic(table, w.rank)
  {
    CacheExact(table, w.rank, keyCache) && st.keyCache.Keys <= keyCache.Keys && id in keyCache && key == keyCache[id]
  }

  lemma KeyIsContentKey(w: World, table: Table, prior: set<Id>, st: Walk, op: Opcode, id: Id, key: Bytes,
      keyCache: map<Id, Bytes>)
    requires WalkOk(w, table, prior, st) && id in table && Cached(w, table, st, id, key, keyCache)
    ensures CompositeKey(op, key)[1..] == TreeKey(w.Content(id))
    ensures CompositeKey(op, key) in st.canonical ==>
      w.Content(st.canonical[CompositeKey(op, key)]) == w.Content(id)
  {
    var ck := CompositeKey(op, key);
    PartUnfolds(table, w.all, w.rank, id);
    assert ck[1..] == key;
    if ck in st.canonical {
      KeyIsExact(w.kind, w.all, w.rank, st.canonical[ck], w.all, w.rank, id);
    }
  }

  lemma NewAliasOk(w: World, table: Table, prior: set<Id>, st: Walk, op: Opcode, id: Id, target: Id,
      keyCache: map<Id, Bytes>)
    requires WalkOk(w, table, prior, st) && id in table && id !in st.deduplicable
    requires CacheExact(table, w.rank, keyCache) && st.keyCache.Keys <= keyCache.Keys && id in keyCache
    requires target in w.all && w.Content(target) == w.Content(id) && Settled(prior, st, target)
    ensures WalkOk(w, table, prior, Walk(st.canonical, st.aliases[id := target], st.deduplicable[id := op], keyCache))
  {
    var st' := Walk(st.canonical, st.aliases[id := target], st.deduplicable[id := op], keyCache);
    forall k | k in st'.canonical
      ensures Settled(prior, st', st'.canonical[k])
    {
      assert Settled(prior, st, st.canonical[k]);
    }
    forall a | a in st'.aliases
      ensures AliasOk(w, table, prior, st', a)
    {
      assert a != id ==> AliasOk(w, table, prior, st, a);
    }
  }

  lemma AliasesAreSeen(w: World, table: Table, prior: set<Id>, st: Walk)
    requires WalkOk(w, table, prior, st)
    ensures st.aliases.Keys <= st.deduplicable.Keys
  {
    forall id | id in st.aliases
      ensures id in st.deduplicable
    {
      assert AliasOk(w, table, prior, st, id);
    }
  }

  lemma NewCanonicalOk(w: World, table: Table, prior: set<Id>, st: Walk, op: Opcode, id: Id, ck: Bytes,
      keyCache: map<Id, Bytes>)
    requires WalkOk(w, table, prior, st) && id in table && id !in st.deduplicable
    requires CacheExact(table, w.rank, keyCache) && st.keyCache.Keys <= keyCache.Keys && id in keyCache
    requires |ck| > 0 && ck[1..] == TreeKey(w.Content(id))
    ensures WalkOk(w, table, prior, Walk(st.canonical[ck := id], st.aliases, st.deduplicable[id := op], keyCache))
  {
    var st' := Walk(st.canonical[ck := id], st.aliases, st.deduplicable[id := op], keyCache);
    forall k | k in st'.canonical
      ensures Settled(prior, st', st'.canonical[k])
    {
      AliasesAreSeen(w, table, prior, st);
      assert k != ck ==> Settled(prior, st, st.canonical[k]);
    }
    forall a | a in st'.aliases
      ensures AliasOk(w, table, prior, st', a)
    {
      assert AliasOk(w, table, prior, st, a);
    }
  }

  lemma RecordedOk(w: World, table: Table, prior: set<Id>, st: Walk, op: Opcode, id: Id, key: Bytes,
      keyCache: map<Id, Bytes>)
    requires WalkOk(w, table, prior, st) && id in table && id !in st.deduplicable
      && Cached(w, table, st, id, key, keyCache)
    ensures WalkOk(w, table, prior, Recorded(st, op, id, key, keyCache))
  {
    var ck := CompositeKey(op, key);
    KeyIsContentKey(w, table, prior, st, op, id, key, keyCache);
    if ck in st.canonical {
      NewAliasOk(w, table, prior, st, op, id, st.canonical[ck], keyCache);
    } else {
      NewCanonicalOk(w, table, prior, st, op, id, ck, keyCache);
    }
  }

  lemma UndoneOk(w: World, table: Table, prior: set<Id>, st: Walk, id: Id)
    requires WalkOk(w, table, prior, st) && id in st.deduplicable && id in st.keyCache
    ensures WalkOk(w, table, prior, Undone(st, id))
  {
    var st' := Undone(st, id);
    forall k | k in st'.canonical
      ensures Settled(prior, st', st'.canonical[k])
    {
      assert Settled(prior, st, st.canonical[k]);
    }
    forall a | a in st'.aliases
      ensures AliasOk(w, table, prior, st', a)
    {
      assert AliasOk(w, table, prior, st, a);
    }
  }

  // ----- all programs -----

  function Union(progs: seq<Program>): Table
    decreases |progs|
  {
    if progs == [] then map[] else Union(progs[..|progs| - 1]) + progs[|progs| - 1].table
  }

  /** The instruction after its alias, if any, was resolved. */
  function Resolved(aliases: map<Id, Id>, insn: Insn): Insn {
    if IsBuffer(insn) && insn.id in aliases then insn.(id := aliases[insn.id]) else insn
  }

  function Rewritten(p: Program, aliases: map<Id, Id>): Program {
    Program(p.table - aliases.Keys, seq(|p.code|, i requires 0 <= i < |p.code| => Resolved(aliases, p.code[i])))
  }

  /** Ids unique across programs, every program in the world. */
  ghost predicate Disjoint(progs: seq<Program>) {
    forall i, j :: 0 <= i < j < |progs| ==> progs[i].table.Keys !! progs[j].table.Keys
  }

  ghost predicate Names(lits: LiteralArray, id: Id) {
    exists i :: 0 <= i < |lits| && IsRef(lits[i]) && lits[i].value.s == id
  }

  /** The id is not named by a nested literal nor by another instruction. */
  ghost predicate OnlyBuffersName(progs: seq<Program>, id: Id) {
    && (forall p, a :: 0 <= p < |progs| && a in progs[p].table ==> !Names(progs[p].table[a], id))
    && (forall p, i :: 0 <= p < |progs| && 0 <= i < |progs[p].code| && !IsBuffer(progs[p].code[i]) ==>
          progs[p].code[i].id != id)
  }

  ghost predicate BufferIdsExclusive(progs: seq<Program>) {
    forall p, i :: 0 <= p < |progs| && 0 <= i < |progs[p].code| && IsBuffer(progs[p].code[i]) ==>
      OnlyBuffersName(progs, progs[p].code[i].id)
  }

  ghost predicate Mergeable(w: World, progs: seq<Program>) {
    && w.Valid() && Disjoint(progs)
    && w.all == Union(progs)
    && forall i :: 0 <= i < |progs| ==> Inhabits(w, progs[i])
  }

  lemma {:induction false} UnionHolds(progs: seq<Program>, i: nat, id: Id)
    requires Disjoint(progs) && i < |progs| && id in progs[i].table
    ensures id in Union(progs) && Union(progs)[id] == progs[i].table[id]
    decreases |progs|
  {
    var n := |progs| - 1;
    if i < n { UnionHolds(progs[..n], i, id); }
  }

  lemma {:induction false} UnionSource(progs: seq<Program>, id: Id) returns (i: nat)
    requires id in Union(progs)
    ensures i < |progs| && id in progs[i].table
    decreases |progs|
  {
    var n := |progs| - 1;
    if id in progs[n].table { i := n; } else { i := UnionSource(progs[..n], id); }
  }

  // ----- what the whole pass keeps -----

  /** `id` is an array of one of the first `n` programs that was not given up for another one. */
  ghost predicate Home(progs: seq<Program>, al: seq<map<Id, Id>>, n: nat, id: Id)
    requires n <= |progs| && n <= |al|
  {
    exists i :: 0 <= i < n && id in progs[i].table && id !in al[i]
  }

  ghost predicate NamedByBuffer(p: Program, id: Id) {
    exists i :: 0 <= i < |p.code| && IsBuffer(p.code[i]) && p.code[i].id == id
  }

  ghost predicate AliasKept(w: World, progs: seq<Program>, al: seq<map<Id, Id>>, n: nat, i: nat, id: Id)
    requires w.Valid() && n <= |progs| && n <= |al| && i < n && id in al[i]
  {
    && id in w.all && al[i][id] in w.all && w.Content(al[i][id]) == w.Content(id)
    && NamedByBuffer(progs[i], id) && Home(progs, al, n, al[i][id])
  }

  /** After `n` programs: canonical ids survive, and every alias has the content of a survivor. */
  ghost predicate Merged(w: World, progs: seq<Program>, al: seq<map<Id, Id>>, n: nat, canonical: map<Bytes, Id>) {
    && w.Valid() && n <= |progs| && n == |al|
    && CanonicalOk(w, canonical)
    && (forall k :: k in canonical ==> Home(progs, al, n, canonical[k]))
    && (forall i, id :: 0 <= i < n && id in al[i] ==> AliasKept(w, progs, al, n, i, id))
  }

  lemma HomeExtends(progs: seq<Program>, al: seq<map<Id, Id>>, n: nat, a: map<Id, Id>, id: Id)
    requires n < |progs| && n == |al| && Home(progs, al, n, id)
    ensures Home(progs, al + [a], n + 1, id)
  {
    var i :| 0 <= i < n && id in progs[i].table && id !in al[i];
    assert id !in (al + [a])[i];
  }

  /** Canonical ids of earlier programs are not in a later one. */
  lemma HomesAreElsewhere(w: World, progs: seq<Program>, al: seq<map<Id, Id>>, n: nat, canonical: map<Bytes, Id>)
    requires Merged(w, progs, al, n, canonical) && Disjoint(progs) && n < |progs|
    ensures canonical.Values !! progs[n].table.Keys
  {
    forall id | id in canonical.Values
      ensures id !in progs[n].table
    {
      var k :| k in canonical && canonical[k] == id;
      assert Home(progs, al, n, id);
      var i :| 0 <= i < n && id in progs[i].table && id !in al[i];
      assert progs[i].table.Keys !! progs[n].table.Keys;
    }
  }

  lemma SettledIsHome(w: World, progs: seq<Program>, al: seq<map<Id, Id>>, n: nat, canonical: map<Bytes, Id>, st: Walk,
      id: Id)
    requires Merged(w, progs, al, n, canonical) && n < |progs|
    requires WalkOk(w, progs[n].table, canonical.Values, st) && Settled(canonical.Values, st, id)
    ensures Home(progs, al + [st.aliases], n + 1, id)
  {
    if id in st.deduplicable {
      assert (al + [st.aliases])[n] == st.aliases;
    } else {
      var k :| k in canonical && canonical[k] == id;
      HomeExtends(progs, al, n, st.aliases, id);
    }
  }

  lemma AliasExtends(w: World, progs: seq<Program>, al: seq<map<Id, Id>>, n: nat, a: map<Id, Id>, i: nat, id: Id)
    requires w.Valid() && n < |progs| && n == |al| && i < n && id in al[i] && AliasKept(w, progs, al, n, i, id)
    ensures AliasKept(w, progs, al + [a], n + 1, i, id)
  {
    assert (al + [a])[i] == al[i];
    HomeExtends(progs, al, n, a, al[i][id]);
  }

  lemma NewAliasKept(w: World, progs: seq<Program>, al: seq<map<Id, Id>>, n: nat, canonical: map<Bytes, Id>, st: Walk,
      id: Id)
    requires Merged(w, progs, al, n, canonical) && n < |progs|
    requires WalkOk(w, progs[n].table, canonical.Values, st)
    requires id in st.aliases && NamedByBuffer(progs[n], id)
    ensures AliasKept(w, progs, al + [st.aliases], n + 1, n, id)
  {
    assert (al + [st.aliases])[n] == st.aliases;
    assert AliasOk(w, progs[n].table, canonical.Values, st, id);
    SettledIsHome(w, progs, al, n, canonical, st, st.aliases[id]);
  }

  lemma MergeStep(w: World, progs: seq<Program>, al: seq<map<Id, Id>>, n: nat, canonical: map<Bytes, Id>, st: Walk)
    requires Merged(w, progs, al, n, canonical) && n < |progs|
    requires WalkOk(w, progs[n].table, canonical.Values, st)
    requires forall id :: id in st.aliases ==> NamedByBuffer(progs[n], id)
    ensures Merged(w, progs, al + [st.aliases], n + 1, st.canonical)
  {
    var al' := al + [st.aliases];
    forall k | k in st.canonical
      ensures Home(progs, al', n + 1, st.canonical[k])
    {
      SettledIsHome(w, progs, al, n, canonical, st, st.canonical[k]);
    }
    forall i, id | 0 <= i < n + 1 && id in al'[i]
      ensures AliasKept(w, progs, al', n + 1, i, id)
    {
      if i == n {
        NewAliasKept(w, progs, al, n, canonical, st, id);
      } else {
        AliasExtends(w, progs, al, n, st.aliases, i, id);
      }
    }
  }

  function Finished(progs: seq<Program>, al: seq<map<Id, Id>>): seq<Program>
    requires |al| == |progs|
  {
    seq(|progs|, i requires 0 <= i < |progs| => Rewritten(progs[i], al[i]))
  }

  lemma AliasesAreExclusive(w: World, progs: seq<Program>, al: seq<map<Id, Id>>, canonical: map<Bytes, Id>)
    requires Mergeable(w, progs) && BufferIdsExclusive(progs) && Merged(w, progs, al, |progs|, canonical)
    ensures forall i, id :: 0 <= i < |al| && id in al[i] ==> OnlyBuffersName(progs, id)
  {
    forall i, id | 0 <= i < |al| && id in al[i]
      ensures OnlyBuffersName(progs, id)
    {
      assert AliasKept(w, progs, al, |progs|, i, id);
      var j :| 0 <= j < |progs[i].code| && IsBuffer(progs[i].code[j]) && progs[i].code[j].id == id;
    }
  }

  lemma SurvivorsDisjoint(progs: seq<Program>, al: seq<map<Id, Id>>)
    requires |al| == |progs| && Disjoint(progs)
    ensures Disjoint(Finished(progs, al))
  {
    var out := Finished(progs, al);
    forall i, j | 0 <= i < j < |out|
      ensures out[i].table.Keys !! out[j].table.Keys
    {
      assert progs[i].table.Keys !! progs[j].table.Keys;
    }
  }

  lemma SurvivorsArePart(w: World, progs: seq<Program>, al: seq<map<Id, Id>>)
    requires Mergeable(w, progs) && |al| == |progs|
    ensures Part(Union(Finished(progs, al)), w.all)
  {
    var out := Finished(progs, al);
    SurvivorsDisjoint(progs, al);
    forall id | id in Union(out)
      ensures id in w.all && Union(out)[id] == w.all[id]
    {
      var i := UnionSource(out, id);
      UnionHolds(out, i, id);
      UnionHolds(progs, i, id);
    }
  }

  /** In the remaining tables `id` unfolds to what `original` unfolded to before. */
  ghost predicate Loads(w: World, remaining: Table, id: Id, original: Id) {
    && w.Valid() && Acyclic(remaining, w.rank)
    && id in remaining && original in w.all
    && Unfold(remaining, w.rank, id) == w.Content(original)
  }

  ghost predicate Remains(w: World, after: seq<Program>, id: Id) {
    w.Valid() && id in w.all && Whole(w.all, Union(after), w.rank, id)
  }

  lemma SurvivorRemains(progs: seq<Program>, al: seq<map<Id, Id>>, id: Id)
    requires Disjoint(progs) && |al| == |progs| && Home(progs, al, |progs|, id)
    ensures id in Union(Finished(progs, al))
  {
    var i :| 0 <= i < |progs| && id in progs[i].table && id !in al[i];
    SurvivorsDisjoint(progs, al);
    UnionHolds(Finished(progs, al), i, id);
  }

  /** Through the remaining tables an array loads what it did exactly if nothing that it refers to was given up. */
  lemma LoadsExactly(w: World, progs: seq<Program>, al: seq<map<Id, Id>>, id: Id, original: Id)
    requires Mergeable(w, progs) && |al| == |progs| && id in w.all && original in w.all
    requires w.Content(id) == w.Content(original)
    ensures Loads(w, Union(Finished(progs, al)), id, original) <==> Remains(w, Finished(progs, al), id)
  {
    var u := Union(Finished(progs, al));
    SurvivorsArePart(w, progs, al);
    PartIsAcyclic(u, w.all, w.rank);
    if id in u { WholeUnfolds(w.all, u, w.rank, id); }
  }

  /** What each instruction reaches through the tables that remain is what it reached before, in one hop. */
  ghost predicate ContentKept(w: World, before: seq<Program>, after: seq<Program>) {
    && |after| == |before|
    && forall p, i :: 0 <= p < |before| && 0 <= i < |before[p].code| ==> InsnKept(w, before, after, p, i)
  }

  ghost predicate InsnKept(w: World, before: seq<Program>, after: seq<Program>, p: nat, i: nat)
    requires |after| == |before| && p < |before| && i < |before[p].code|
  {
    && i < |after[p].code|
    && var old', new' := before[p].code[i], after[p].code[i];
    && new'.op == old'.op
    && (if IsBuffer(old') then Loads(w, Union(after), new'.id, old'.id)
        else new' == old' && (old'.id in w.all ==> Loads(w, Union(after), old'.id, old'.id)))
  }

  /** No instruction reaches an array that was given up. */
  ghost predicate NothingLost(w: World, before: seq<Program>, after: seq<Program>) {
    && |after| == |before|
    && forall p, i :: 0 <= p < |before| && 0 <= i < |before[p].code| ==> NotLost(w, before, after, p, i)
  }

  ghost predicate NotLost(w: World, before: seq<Program>, after: seq<Program>, p: nat, i: nat)
    requires |after| == |before| && p < |before| && i < |before[p].code|
  {
    i < |after[p].code| &&
    if IsBuffer(before[p].code[i]) then Remains(w, after, after[p].code[i].id)
    else before[p].code[i].id in w.all ==> Remains(w, after, before[p].code[i].id)
  }

  lemma InsnKeptExactly(w: World, progs: seq<Program>, al: seq<map<Id, Id>>, canonical: map<Bytes, Id>, p: nat, i: nat)
    requires Mergeable(w, progs) && Merged(w, progs, al, |progs|, canonical) && p < |progs| && i < |progs[p].code|
    ensures InsnKept(w, progs, Finished(progs, al), p, i) <==> NotLost(w, progs, Finished(progs, al), p, i)
  {
    var insn := progs[p].code[i];
    if IsBuffer(insn) {
      assert Inhabits(w, progs[p]);
      assert insn.id in al[p] ==> AliasKept(w, progs, al, |progs|, p, insn.id);
      LoadsExactly(w, progs, al, Resolved(al[p], insn).id, insn.id);
    } else if insn.id in w.all {
      LoadsExactly(w, progs, al, insn.id, insn.id);
    }
  }

  /** The content that every instruction reaches is kept if and only if none reaches an array that was given up. */
  lemma MergedKeepsContent(w: World, progs: seq<Program>, al: seq<map<Id, Id>>, canonical: map<Bytes, Id>)
    requires Mergeable(w, progs) && Merged(w, progs, al, |progs|, canonical)
    ensures ContentKept(w, progs, Finished(progs, al)) <==> NothingLost(w, progs, Finished(progs, al))
  {
    forall p, i | 0 <= p < |progs| && 0 <= i < |progs[p].code|
      ensures InsnKept(w, progs, Finished(progs, al), p, i) <==> NotLost(w, progs, Finished(progs, al), p, i)
    {
      InsnKeptExactly(w, progs, al, canonical, p, i);
    }
  }

  // ----- where only buffer instructions name what they name -----

  /** A surviving array names only surviving arrays. */
  lemma RefSurvives(w: World, progs: seq<Program>, al: seq<map<Id, Id>>, canonical: map<Bytes, Id>, i: nat, id: Id,
      k: nat)
    requires Mergeable(w, progs) && BufferIdsExclusive(progs) && Merged(w, progs, al, |progs|, canonical)
    requires i < |progs| && id in progs[i].table && k < |progs[i].table[id]| && IsRef(progs[i].table[id][k])
    ensures progs[i].table[id][k].value.s in progs[i].table && progs[i].table[id][k].value.s !in al[i]
  {
    var r := progs[i].table[id][k].value.s;
    assert Inhabits(w, progs[i]) && RefsIn(progs[i].table, id);
    assert Names(progs[i].table[id], r);
    AliasesAreExclusive(w, progs, al, canonical);
  }

  lemma {:induction false} SurvivorIsWhole(w: World, progs: seq<Program>, al: seq<map<Id, Id>>,
      canonical: map<Bytes, Id>, id: Id)
    requires Mergeable(w, progs) && BufferIdsExclusive(progs) && Merged(w, progs, al, |progs|, canonical)
    requires Home(progs, al, |progs|, id) && id in w.all
    ensures Remains(w, Finished(progs, al), id)
    decreases Rank(w.rank, id)
  {
    var u := Union(Finished(progs, al));
    SurvivorRemains(progs, al, id);
    var i :| 0 <= i < |progs| && id in progs[i].table && id !in al[i];
    assert Inhabits(w, progs[i]);
    forall k | 0 <= k < |w.all[id]|
      ensures WholeLiteral(w.all, u, w.rank, id, k)
    {
      if IsRef(w.all[id][k]) {
        RefSurvives(w, progs, al, canonical, i, id, k);
        assert RefsBelow(w.all, w.rank, id);
        SurvivorIsWhole(w, progs, al, canonical, w.all[id][k].value.s);
      }
    }
  }

  lemma ExclusiveNotLost(w: World, progs: seq<Program>, al: seq<map<Id, Id>>, canonical: map<Bytes, Id>, p: nat, i: nat)
    requires Mergeable(w, progs) && BufferIdsExclusive(progs) && Merged(w, progs, al, |progs|, canonical)
    requires p < |progs| && i < |progs[p].code|
    ensures NotLost(w, progs, Finished(progs, al), p, i)
  {
    var insn := progs[p].code[i];
    if IsBuffer(insn) {
      assert Inhabits(w, progs[p]);
      if insn.id in al[p] {
        assert AliasKept(w, progs, al, |progs|, p, insn.id);
        SurvivorIsWhole(w, progs, al, canonical, al[p][insn.id]);
      } else {
        assert Home(progs, al, |progs|, insn.id);
        SurvivorIsWhole(w, progs, al, canonical, insn.id);
      }
    } else if insn.id in w.all {
      var j := UnionSource(progs, insn.id);
      AliasesAreExclusive(w, progs, al, canonical);
      assert Home(progs, al, |progs|, insn.id);
      SurvivorIsWhole(w, progs, al, canonical, insn.id);
    }
  }

  /** Nothing is lost where no buffer id is also named by a nested literal or by another instruction. */
  lemma ExclusiveLosesNothing(w: World, progs: seq<Program>, al: seq<map<Id, Id>>, canonical: map<Bytes, Id>)
    requires Mergeable(w, progs) && BufferIdsExclusive(progs) && Merged(w, progs, al, |progs|, canonical)
    ensures NothingLost(w, progs, Finished(progs, al))
  {
    forall p, i | 0 <= p < |progs| && 0 <= i < |progs[p].code|
      ensures NotLost(w, progs, Finished(progs, al), p, i)
    {
      ExclusiveNotLost(w, progs, al, canonical, p, i);
    }
  }

  // ----- which arrays are given up -----

  ghost predicate CreatedFrom(p: Program, id: Id) {
    exists i :: 0 <= i < |p.code| && Creates(p.code[i]) && p.code[i].id == id
  }

  /** Gone are just the arrays that instructions were created from and are no longer; all others stay as they are. */
  ghost predicate ErasedExactly(before: Program, after: Program) {
    && (forall id :: id in after.table ==> id in before.table && after.table[id] == before.table[id])
    && forall id :: id in before.table ==>
         (id !in after.table <==> CreatedFrom(before, id) && !CreatedFrom(after, id))
  }

  lemma AliasIsOwn(w: World, progs: seq<Program>, al: seq<map<Id, Id>>, canonical: map<Bytes, Id>, p: nat, id: Id)
    requires Mergeable(w, progs) && Merged(w, progs, al, |progs|, canonical) && p < |progs| && id in al[p]
    ensures CreatedFrom(progs[p], id) && id in progs[p].table && Home(progs, al, |progs|, al[p][id])
  {
    assert AliasKept(w, progs, al, |progs|, p, id) && Inhabits(w, progs[p]);
    var i :| 0 <= i < |progs[p].code| && IsBuffer(progs[p].code[i]) && progs[p].code[i].id == id;
    assert Creates(progs[p].code[i]);
  }

  /** No alias is renamed to an alias of the same program. */
  lemma TargetsStay(w: World, progs: seq<Program>, al: seq<map<Id, Id>>, canonical: map<Bytes, Id>, p: nat, id: Id)
    requires Mergeable(w, progs) && Merged(w, progs, al, |progs|, canonical) && p < |progs| && id in al[p]
    ensures al[p][id] !in al[p] && CreatedFrom(progs[p], id)
  {
    AliasIsOwn(w, progs, al, canonical, p, id);
    var to := al[p][id];
    var j :| 0 <= j < |progs| && to in progs[j].table && to !in al[j];
    forall a | a in al[p]
      ensures a in progs[p].table
    {
      AliasIsOwn(w, progs, al, canonical, p, a);
    }
    assert j == p || progs[j].table.Keys !! progs[p].table.Keys;
  }

  lemma GoneExactly(w: World, progs: seq<Program>, al: seq<map<Id, Id>>, canonical: map<Bytes, Id>, p: nat, id: Id)
    requires Mergeable(w, progs) && Merged(w, progs, al, |progs|, canonical) && p < |progs|
    ensures id in al[p] ==> CreatedFrom(progs[p], id) && !CreatedFrom(Rewritten(progs[p], al[p]), id)
  {
    var before, after := progs[p], Rewritten(progs[p], al[p]);
    if id in al[p] {
      TargetsStay(w, progs, al, canonical, p, id);
      forall i | 0 <= i < |after.code| && Creates(after.code[i])
        ensures after.code[i].id != id
      {
        if before.code[i].id in al[p] { TargetsStay(w, progs, al, canonical, p, before.code[i].id); }
      }
    }
  }

  lemma StillCreated(before: Program, aliases: map<Id, Id>, id: Id)
    requires CreatedFrom(before, id) && id !in aliases
    ensures CreatedFrom(Rewritten(before, aliases), id)
  {
    var i :| 0 <= i < |before.code| && Creates(before.code[i]) && before.code[i].id == id;
    assert Rewritten(before, aliases).code[i] == before.code[i];
  }

  lemma GivenUpExactly(w: World, progs: seq<Program>, al: seq<map<Id, Id>>, canonical: map<Bytes, Id>, p: nat)
    requires Mergeable(w, progs) && Merged(w, progs, al, |progs|, canonical) && p < |progs|
    ensures ErasedExactly(progs[p], Rewritten(progs[p], al[p]))
  {
    var before, after := progs[p], Rewritten(progs[p], al[p]);
    forall id | id in before.table
      ensures id in al[p] <==> CreatedFrom(before, id) && !CreatedFrom(after, id)
    {
      GoneExactly(w, progs, al, canonical, p, id);
      if CreatedFrom(before, id) && id !in al[p] { StillCreated(before, al[p], id); }
    }
  }
}
