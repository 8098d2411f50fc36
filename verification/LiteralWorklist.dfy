/** The worklist that finds and fills the literal arrays nested in other literal arrays. */
module LiteralWorklist {
  import LiteralKeys

  /** A stored literal: a reference to another array, or anything else. */
  datatype Stored = Array(id: nat) | Other(tag: int, bits: int)

  /** The literal array of the program: tags and values alternate. */
  datatype Literal = Tag(tag: int) | ArrayName(id: nat) | Bits(tag: int, bits: int)

  /** The arrays of the file. */
  type Store = map<nat, seq<Stored>>

  function Pair(x: Stored): seq<Literal> {
    match x
    case Array(id) => [Tag(LiteralKeys.LITERALARRAY), ArrayName(id)]
    case Other(tag, bits) => [Tag(tag), Bits(tag, bits)]
  }

  function Pairs(xs: seq<Stored>): seq<Literal>
    decreases |xs|
  {
    if xs == [] then [] else Pairs(xs[..|xs| - 1]) + Pair(xs[|xs| - 1])
  }

  /** For every literal its tag, and then its value or the name of the array it refers to. */
  ghost predicate Alternates(xs: seq<Stored>, ls: seq<Literal>) {
    |ls| == 2 * |xs| && forall i :: 0 <= i < |xs| ==> PairAt(xs[i], ls, 2 * i)
  }

  predicate PairAt(x: Stored, ls: seq<Literal>, at: int) {
    && 0 <= at < |ls| - 1
    && match x
       case Array(id) => ls[at] == Tag(24) && ls[at + 1] == ArrayName(id)
       case Other(tag, bits) => ls[at] == Tag(tag) && ls[at + 1] == Bits(tag, bits)
  }

  lemma {:induction false} PairsAlternate(xs: seq<Stored>)
    ensures Alternates(xs, Pairs(xs))
    decreases |xs|
  {
    if xs != [] {
      var n := |xs| - 1;
      PairsAlternate(xs[..n]);
      assert |Pair(xs[n])| == 2;
      forall i | 0 <= i < |xs|
        ensures PairAt(xs[i], Pairs(xs), 2 * i)
      {
        if i < n { assert PairAt(xs[..n][i], Pairs(xs[..n]), 2 * i); }
      }
    }
  }

  function Nested(xs: seq<Stored>): set<nat> {
    set x | x in xs && x.Array? :: x.id
  }

  /** Every reference leads to an array of the file. */
  ghost predicate Closed(store: Store) {
    forall id, x :: id in store && Array(x) in store[id] ==> x in store
  }

  // ----- reachability -----

  /** A chain of references that starts at a seed and never enters `stop`. */
  ghost predicate IsChain(store: Store, seeds: set<nat>, stop: set<nat>, path: seq<nat>) {
    && |path| > 0 && path[0] in seeds && (forall k :: 0 <= k < |path| ==> path[k] in store && path[k] !in stop)
    && forall k :: 0 <= k < |path| - 1 ==> Array(path[k + 1]) in store[path[k]]
  }

  ghost predicate Reachable(store: Store, seeds: set<nat>, stop: set<nat>, id: nat) {
    exists path :: IsChain(store, seeds, stop, path) && path[|path| - 1] == id
  }

  lemma SeedReachable(store: Store, seeds: set<nat>, stop: set<nat>, id: nat)
    requires id in seeds && id in store && id !in stop
    ensures Reachable(store, seeds, stop, id)
  {
    assert IsChain(store, seeds, stop, [id]);
  }

  lemma NextReachable(store: Store, seeds: set<nat>, stop: set<nat>, id: nat, next: nat)
    requires Reachable(store, seeds, stop, id) && id in store && next in Nested(store[id]) && next in store
      && next !in stop
    ensures Reachable(store, seeds, stop, next)
  {
    var path :| IsChain(store, seeds, stop, path) && path[|path| - 1] == id;
    assert IsChain(store, seeds, stop, path + [next]);
  }

  /** What contains the seeds and is closed under references outside `stop` contains everything reachable. */
  lemma {:induction false} ClosedContains(store: Store, seeds: set<nat>, stop: set<nat>, found: set<nat>,
      path: seq<nat>)
    requires IsChain(store, seeds, stop, path) && seeds <= found
    requires forall id :: id in found && id in store ==> Nested(store[id]) <= found + stop
    ensures path[|path| - 1] in found
    decreases |path|
  {
    if |path| > 1 {
      var init := path[..|path| - 1];
      assert IsChain(store, seeds, stop, init);
      ClosedContains(store, seeds, stop, found, init);
      assert path[|path| - 2 + 1] in Nested(store[path[|path| - 2]]);
    }
  }

  // ----- the container and the processor -----

  class Container {
    const store: Store
    const unnested: set<nat>
    var processed: set<nat>
    var unprocessed: set<nat>
    var table: map<nat, seq<Literal>>
    /** The ids in the order in which they were filled. */
    var order: seq<nat>

    constructor (store: Store, unnested: set<nat>, processed: set<nat>, unprocessed: set<nat>,
        table: map<nat, seq<Literal>>)
      ensures this.store == store && this.unnested == unnested && this.processed == processed
      ensures this.unprocessed == unprocessed && this.table == table && order == []
    {
      this.store, this.unnested, this.processed, this.unprocessed, this.table := store, unnested, processed,
        unprocessed, table;
      order := [];
    }

    method TryAddUnprocessedNestedLiteralArrayId(id: nat)
      modifies this`unprocessed
      ensures unprocessed == old(unprocessed) + ({id} - unnested - processed)
    {
      if id in unnested {
        return;
      }
      if id in processed {
        return;
      }
      unprocessed := unprocessed + {id};
    }

    /** Emits tag and value of every literal and queues the arrays it names. */
    method GetLiteralArrayById(id: nat) returns (literals: seq<Literal>)
      requires id in store
      modifies this`unprocessed
      ensures literals == Pairs(store[id]) && Alternates(store[id], literals)
      ensures unprocessed == old(unprocessed) + (Nested(store[id]) - unnested - processed)
    {
      literals := [];
      var xs := store[id];
      for i := 0 to |xs|
        invariant literals == Pairs(xs[..i])
        invariant unprocessed == old(unprocessed) + (Nested(xs[..i]) - unnested - processed)
      {
        NestedStep(xs, i);
        assert xs[..i + 1][..i] == xs[..i];
        if xs[i].Array? { TryAddUnprocessedNestedLiteralArrayId(xs[i].id); }
        literals := literals + Pair(xs[i]);
      }
      assert xs[..|xs|] == xs;
      PairsAlternate(xs);
    }

    /** An id that is already in the table keeps its entry. */
    method FillLiteralArrayById(id: nat)
      requires id in store
      modifies this`unprocessed, this`table, this`order
      ensures unprocessed == old(unprocessed) + (Nested(store[id]) - unnested - processed)
      ensures table == (if id in old(table) then old(table) else old(table)[id := Pairs(store[id])])
        && order == old(order) + [id]
    {
      var literals := GetLiteralArrayById(id);
      if id !in table { table := table[id := literals]; }
      order := order + [id];
    }

    ghost function View(): Work
      reads this
    {
      Work(processed, unprocessed, order, table)
    }

    method ProcessNested(id: nat)
      requires id in store
      modifies this
      ensures View() == Next(store, unnested, old(View()), id)
    {
      processed := processed + {id};
      FillLiteralArrayById(id);
      unprocessed := unprocessed - {id};
    }

    /**
     * Terminates for every finite set of arrays, cycles included: each array reachable from the seeds without passing
     * an unnested or already processed one is filled exactly once, and no other.
     */
    method FillNestedLiteralArrays()
      requires Ready(store, unnested, View())
      modifies this
      ensures unprocessed == {} && Finished(store, unnested, old(View()), View())
    {
      ghost var w0 := View();
      Starts(store, unnested, w0);
      while unprocessed != {}
        invariant Inv(store, unnested, w0, View())
        decreases store.Keys - processed
      {
        NonEmpty(unprocessed);
        var id :| id in unprocessed;
        Round(store, unnested, w0, View(), id);
        ProcessNested(id);
      }
      Finish(store, unnested, w0, View());
    }
  }

  datatype Work = Work(processed: set<nat>, unprocessed: set<nat>, order: seq<nat>, table: map<nat, seq<Literal>>)

  ghost predicate Ready(store: Store, unnested: set<nat>, w: Work) {
    && Closed(store) && w.unprocessed <= store.Keys && w.unprocessed !! w.processed && w.unprocessed !! unnested
    && w.order == []
  }

  /** After a round for `id`. */
  function Next(store: Store, unnested: set<nat>, w: Work, id: nat): Work
    requires id in store
  {
    var p := w.processed + {id};
    Work(p, w.unprocessed + (Nested(store[id]) - unnested - p) - {id}, w.order + [id],
         if id in w.table then w.table else w.table[id := Pairs(store[id])])
  }

  /** What holds between two rounds of a run that started from `w0`. */
  ghost predicate Inv(store: Store, unnested: set<nat>, w0: Work, w: Work) {
    && Ready(store, unnested, w0)
    && Queued(store, w0.unprocessed, unnested, w0.processed, w.processed, w.unprocessed)
    && InOrder(w.order, w.processed - w0.processed) && Filled(store, w0.table, w.order, w.table)
  }

  ghost predicate Queued(store: Store, seeds: set<nat>, unnested: set<nat>, done: set<nat>, processed: set<nat>,
      unprocessed: set<nat>) {
    && done <= processed && processed !! unprocessed && unprocessed <= store.Keys
    && unprocessed !! unnested && seeds <= (processed - done) + unprocessed
    && AllReachable(store, seeds, unnested + done, (processed - done) + unprocessed)
    && Expanded(store, processed - done, unnested + processed + unprocessed)
  }

  ghost predicate Finished(store: Store, unnested: set<nat>, w0: Work, w: Work) {
    && (forall id :: id in w.order <==> Reachable(store, w0.unprocessed, unnested + w0.processed, id))
    && (forall i, j :: 0 <= i < j < |w.order| ==> w.order[i] != w.order[j])
    && (forall id :: id in w.processed <==> id in w0.processed || id in w.order)
      && Filled(store, w0.table, w.order, w.table)
  }

  lemma NestedStep(xs: seq<Stored>, i: nat)
    requires i < |xs|
    ensures Nested(xs[..i + 1]) == Nested(xs[..i]) + if xs[i].Array? then {xs[i].id} else {}
  {
    assert xs[..i + 1] == xs[..i] + [xs[i]];
  }

  lemma NonEmpty(s: set<nat>)
    requires s != {}
    ensures exists id :: id in s
  {
    assert (forall id :: id !in s) ==> s == {};
  }

  /** Everything found is reachable. */
  ghost predicate AllReachable(store: Store, seeds: set<nat>, stop: set<nat>, found: set<nat>) {
    forall id :: id in found ==> Reachable(store, seeds, stop, id)
  }

  /** The references of what was processed have been looked at. */
  ghost predicate Expanded(store: Store, filled: set<nat>, known: set<nat>) {
    forall id :: id in filled ==> id in store && Nested(store[id]) <= known
  }

  ghost predicate InOrder(order: seq<nat>, filled: set<nat>) {
    && (forall id :: id in order <==> id in filled)
    && (forall i, j :: 0 <= i < j < |order| ==> order[i] != order[j])
  }

  /** The table has gained exactly the arrays in `order`, each with its tag and value pairs. */
  ghost predicate Filled(store: Store, t0: map<nat, seq<Literal>>, order: seq<nat>, table: map<nat, seq<Literal>>) {
    && (forall id :: id in order ==> id in store)
    && (forall id :: id in table <==> id in t0 || id in order)
    && (forall id :: id in table ==> if id in t0 then table[id] == t0[id] else Alternates(store[id], table[id]))
  }

  lemma Starts(store: Store, unnested: set<nat>, w0: Work)
    requires Ready(store, unnested, w0)
    ensures Inv(store, unnested, w0, w0)
  {
    forall id | id in w0.unprocessed
      ensures Reachable(store, w0.unprocessed, unnested + w0.processed, id)
    {
      SeedReachable(store, w0.unprocessed, unnested + w0.processed, id);
    }
  }

  /** `id` moves from the queue to the processed ones and its references join the queue. */
  lemma QueueStep(store: Store, seeds: set<nat>, unnested: set<nat>, done: set<nat>, processed: set<nat>,
      unprocessed: set<nat>, id: nat)
    requires Closed(store) && Queued(store, seeds, unnested, done, processed, unprocessed) && id in unprocessed
    ensures Queued(store, seeds, unnested, done, processed + {id},
      unprocessed + (Nested(store[id]) - unnested - (processed + {id})) - {id})
  {
    var p := processed + {id};
    var q := unprocessed + (Nested(store[id]) - unnested - p) - {id};
    assert Reachable(store, seeds, unnested + done, id);
    forall x | x in (p - done) + q
      ensures Reachable(store, seeds, unnested + done, x)
    {
      if x !in (processed - done) + unprocessed { NextReachable(store, seeds, unnested + done, id, x); }
    }
  }

  lemma Round(store: Store, unnested: set<nat>, w0: Work, w: Work, id: nat)
    requires Inv(store, unnested, w0, w) && id in w.unprocessed
    ensures id in store && Inv(store, unnested, w0, Next(store, unnested, w, id))
  {
    QueueStep(store, w0.unprocessed, unnested, w0.processed, w.processed, w.unprocessed, id);
    OrderStep(w.order, w.processed - w0.processed, id);
    FilledStep(store, w0.table, w.order, w.table, id);
    assert w.processed + {id} - w0.processed == w.processed - w0.processed + {id};
  }

  lemma Finish(store: Store, unnested: set<nat>, w0: Work, w: Work)
    requires Inv(store, unnested, w0, w) && w.unprocessed == {}
    ensures Finished(store, unnested, w0, w)
  {
    FoundAll(store, unnested, w0, w);
  }

  lemma FoundAll(store: Store, unnested: set<nat>, w0: Work, w: Work)
    requires Queued(store, w0.unprocessed, unnested, w0.processed, w.processed, w.unprocessed) && w.unprocessed == {}
    ensures forall id :: id in w.processed - w0.processed <==>
      Reachable(store, w0.unprocessed, unnested + w0.processed, id)
  {
    var found := w.processed - w0.processed;
    assert unnested + w.processed + w.unprocessed == unnested + w0.processed + found;
    assert found + w.unprocessed == found;
    Complete(store, w0.unprocessed, unnested + w0.processed, found);
  }

  lemma OrderStep(order: seq<nat>, filled: set<nat>, id: nat)
    requires InOrder(order, filled) && id !in filled
    ensures InOrder(order + [id], filled + {id})
  {
  }

  lemma FilledStep(store: Store, t0: map<nat, seq<Literal>>, order: seq<nat>, table: map<nat, seq<Literal>>, id: nat)
    requires Filled(store, t0, order, table) && id in store && id !in order
    ensures Filled(store, t0, order + [id], if id in table then table else table[id := Pairs(store[id])])
  {
    PairsAlternate(store[id]);
  }

  lemma Complete(store: Store, seeds: set<nat>, stop: set<nat>, found: set<nat>)
    requires AllReachable(store, seeds, stop, found) && Expanded(store, found, stop + found) && seeds <= found
    ensures forall id :: id in found <==> Reachable(store, seeds, stop, id)
  {
    forall id | Reachable(store, seeds, stop, id)
      ensures id in found
    {
      var path :| IsChain(store, seeds, stop, path) && path[|path| - 1] == id;
      ClosedContains(store, seeds, stop, found, path);
    }
  }
}
