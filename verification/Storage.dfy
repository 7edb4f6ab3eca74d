/**
 The store: a two-stage `put` (the block, then one atomic index batch), with any
 number of puts in flight, failed batches and crashes between the stages.
 */
module Storage {
  import opened U64
  import opened Wrappers
  import opened BlockDb
  import Codec

  /** Block hashes and transaction ids are 32-byte index keys. */
  type Id = Codec.Digest

  /**
   What a height holds: an element array, the block alone in the older layout, an object that
   is no JSON value, or bytes that are none of these.
   */
  datatype Stored<+E> = Bare(block: E) | Combined(elements: seq<E>) | BrokenBare | Corrupt

  /** `record::element`: an absent element is not an empty one. An array of fewer than two is `Corrupt`. */
  function Element<E>(s: Stored<E>, idx: nat): Result<Option<E>> {
    match s
    case Corrupt => Err
    case Bare(block) => if idx != 0 then Ok(None) else Ok(Some(block))
    case BrokenBare => if idx != 0 then Ok(None) else Err
    case Combined(es) => Ok(if idx < |es| then Some(es[idx]) else None)
  }

  /** One block as handed to `put`: its hash, its transaction ids in order, and its record. */
  datatype Block<+E> = Block(hash: Id, txs: seq<Id>, stored: Stored<E>)

  datatype Location = Location(height: nat, index: nat)

  datatype Index = Index(hashes: map<Id, nat>, txs: map<Id, Location>)

  datatype State<+E> = State(db: Db<Block<E>>, index: Index, inFlight: seq<Put<E>>)

  datatype Put<+E> = Put(height: nat, block: Block<E>)

  /**
   `Write` is stage one of a put, `Commit` and `Abandon` the success and failure of
   its index batch. `Crash` drops every put between its stages; the next open finds
   the files as they are. `floor` is the anchor the process was started with.
   */
  datatype Step<+E> =
    | Write(put: Put<E>, floor: Option<nat>)
    | Commit(i: nat)
    | Abandon(i: nat)
    | Crash

  const U32: nat := 0x1_0000_0000

  /** The batch's transaction entries, in order, so a repeated id keeps its last position. */
  function TxEntries(txs: map<Id, Location>, height: nat, ids: seq<Id>): map<Id, Location> {
    if ids == [] then txs
    else
      var n := |ids| - 1;
      TxEntries(txs, height, ids[..n])[ids[n] := Location(height, n % U32)]
  }

  function IndexBatch<E>(index: Index, p: Put<E>): Index {
    Index(index.hashes[p.block.hash := p.height], TxEntries(index.txs, p.height, p.block.txs))
  }

  function Init<E>(): State<E> { State(Closed, Index(map[], map[]), []) }

  function Without<T>(s: seq<T>, i: nat): seq<T>
    requires i < |s|
  {
    s[..i] + s[i + 1..]
  }

  /** Steps that cannot happen (a write below the minimum, no such put) leave the state alone. */
  function Apply<E>(s: State<E>, step: Step<E>): State<E> {
    match step
    case Write(p, floor) =>
      if ValidDb(s.db) && Writable(s.db, p.height) then
        State(WriteBlock(s.db, floor, p.height, p.block), s.index, s.inFlight + [p])
      else s
    case Commit(i) =>
      if i < |s.inFlight| then State(s.db, IndexBatch(s.index, s.inFlight[i]), Without(s.inFlight, i)) else s
    case Abandon(i) =>
      if i < |s.inFlight| then State(s.db, s.index, Without(s.inFlight, i)) else s
    case Crash => State(s.db, s.index, [])
  }

  function RunAll<E>(steps: seq<Step<E>>): State<E> {
    if steps == [] then Init() else Apply(RunAll(steps[..|steps| - 1]), steps[|steps| - 1])
  }

  // -------------------------------------------------- safety without finality

  ghost predicate PointsInside<E>(s: State<E>) {
    && ValidDb(s.db)
    && (forall k :: k in s.index.hashes ==> Has(s.db, s.index.hashes[k]))
    && (forall t :: t in s.index.txs ==> Has(s.db, s.index.txs[t].height))
    && (forall i :: 0 <= i < |s.inFlight| ==> Has(s.db, s.inFlight[i].height))
  }

  lemma {:induction false} TxEntriesRange(txs: map<Id, Location>, height: nat, ids: seq<Id>, t: Id)
    ensures var m := TxEntries(txs, height, ids);
            && (t in m <==> t in txs || t in ids)
            && (t in ids ==>
                  m[t].height == height && exists i :: 0 <= i < |ids| && ids[i] == t && m[t].index == i % U32)
            && (t in txs && t !in ids ==> m[t] == txs[t])
  {
    if ids == [] {
    } else {
      var n := |ids| - 1;
      assert ids == ids[..n] + [ids[n]];
      TxEntriesRange(txs, height, ids[..n], t);
    }
  }

  /**
   A committed put is indexed: its hash at its height, each of its transactions at its height
   and one of its positions, and nothing else in the index moves.
   */
  lemma CommitIndexes<E>(s: State<E>, i: nat, t: Id)
    requires i < |s.inFlight|
    ensures var p, index := s.inFlight[i], Apply(s, Commit(i)).index;
            && p.block.hash in index.hashes && index.hashes[p.block.hash] == p.height
            && (forall k :: k != p.block.hash ==>
                  (k in index.hashes <==> k in s.index.hashes)
                  && (k in s.index.hashes ==> index.hashes[k] == s.index.hashes[k]))
            && (t in p.block.txs ==>
                  && t in index.txs && index.txs[t].height == p.height
                  && exists j :: 0 <= j < |p.block.txs| && p.block.txs[j] == t && index.txs[t].index == j % U32)
            && (t !in p.block.txs ==>
                  (t in index.txs <==> t in s.index.txs) && (t in s.index.txs ==> index.txs[t] == s.index.txs[t]))
  {
    TxEntriesRange(s.index.txs, s.inFlight[i].height, s.inFlight[i].block.txs, t);
  }

  /** The end of an index batch, good or bad, ends that put and no other, and a crash ends them all. */
  lemma EndsOnePut<E>(s: State<E>, i: nat)
    requires i < |s.inFlight|
    ensures multiset(Apply(s, Commit(i)).inFlight) + multiset{s.inFlight[i]} == multiset(s.inFlight)
    ensures multiset(Apply(s, Abandon(i)).inFlight) + multiset{s.inFlight[i]} == multiset(s.inFlight)
    ensures Apply(s, Abandon(i)).db == s.db && Apply(s, Abandon(i)).index == s.index
    ensures Apply(s, Crash) == State(s.db, s.index, [])
  {
    assert s.inFlight == s.inFlight[..i] + [s.inFlight[i]] + s.inFlight[i + 1..];
  }

  lemma ApplyPointsInside<E>(s: State<E>, step: Step<E>)
    requires PointsInside(s)
    ensures PointsInside(Apply(s, step))
  {
    var s' := Apply(s, step);
    if step.Commit? && step.i < |s.inFlight| {
      var p := s.inFlight[step.i];
      forall t | t in s'.index.txs ensures Has(s'.db, s'.index.txs[t].height) {
        TxEntriesRange(s.index.txs, p.height, p.block.txs, t);
      }
    }
  }

  /** In every reachable state each index entry points at a stored height, crashes or not. */
  lemma {:induction false} IndexPointsInside<E>(steps: seq<Step<E>>)
    ensures PointsInside(RunAll(steps))
  {
    if steps == [] {
    } else {
      IndexPointsInside(steps[..|steps| - 1]);
      ApplyPointsInside(RunAll(steps[..|steps| - 1]), steps[|steps| - 1]);
    }
  }

  // ------------------------------------------------------- under finality

  /** One block per height, each block and transaction id in one place. Heights are u64. */
  ghost predicate Final<E(!new)>(chain: nat -> Block<E>) {
    && (forall g: nat, h: nat :: g <= U64_MAX && h <= U64_MAX && chain(g).hash == chain(h).hash ==> g == h)
    && (forall g: nat, h: nat, i, j :: g <= U64_MAX && h <= U64_MAX ==> SameTx(chain, g, h, i, j) ==> g == h && i == j)
    && (forall h: nat :: h <= U64_MAX ==> |chain(h).txs| <= U32)
  }

  predicate SameTx<E>(chain: nat -> Block<E>, g: nat, h: nat, i: int, j: int) {
    0 <= i < |chain(g).txs| && 0 <= j < |chain(h).txs| && chain(g).txs[i] == chain(h).txs[j]
  }

  /** A write of the chain's block at its height. */
  ghost predicate FromUpstream<E>(chain: nat -> Block<E>, step: Step<E>) {
    step.Write? ==> step.put.height <= U64_MAX && step.put.block == chain(step.put.height)
  }

  ghost predicate Honest<E>(chain: nat -> Block<E>, steps: seq<Step<E>>) {
    forall k :: 0 <= k < |steps| ==> FromUpstream(chain, steps[k])
  }

  predicate Indexed<E>(s: State<E>, h: nat) {
    Has(s.db, h) && s.db.blocks[h].hash in s.index.hashes && s.index.hashes[s.db.blocks[h].hash] == h
  }

  ghost predicate InFlightAt<E>(s: State<E>, h: nat) {
    exists i :: 0 <= i < |s.inFlight| && s.inFlight[i].height == h
  }

  /** Every stored block, put in flight and index entry comes from the one chain. */
  ghost predicate FromChain<E(!new)>(chain: nat -> Block<E>, s: State<E>) {
    && ValidDb(s.db)
    && (s.db.Open? ==> forall h :: h in s.db.blocks ==> h <= U64_MAX && s.db.blocks[h] == chain(h))
    && (forall i :: 0 <= i < |s.inFlight| ==>
          s.inFlight[i].height <= U64_MAX && s.inFlight[i].block == chain(s.inFlight[i].height))
    && (forall k :: k in s.index.hashes ==> chain(s.index.hashes[k]).hash == k)
    && (forall t :: t in s.index.txs ==>
          var l := s.index.txs[t]; l.index < |chain(l.height).txs| && chain(l.height).txs[l.index] == t)
  }

  lemma CommitFromChain<E(!new)>(chain: nat -> Block<E>, s: State<E>, p: Put<E>, t: Id)
    requires FromChain(chain, s) && p.height <= U64_MAX && p.block == chain(p.height) && |p.block.txs| <= U32
    ensures var index := IndexBatch(s.index, p);
            t in index.txs ==>
              var l := index.txs[t]; l.index < |chain(l.height).txs| && chain(l.height).txs[l.index] == t
  {
    TxEntriesRange(s.index.txs, p.height, p.block.txs, t);
  }

  lemma TxsFit<E(!new)>(chain: nat -> Block<E>, h: nat)
    requires Final(chain) && h <= U64_MAX
    ensures |chain(h).txs| <= U32
  {
  }

  lemma ApplyFromChain<E(!new)>(chain: nat -> Block<E>, s: State<E>, step: Step<E>)
    requires Final(chain) && FromChain(chain, s)
    requires FromUpstream(chain, step)
    ensures FromChain(chain, Apply(s, step))
  {
    hide TxEntries, Final;
    var s' := Apply(s, step);
    if step.Commit? && step.i < |s.inFlight| {
      var p := s.inFlight[step.i];
      TxsFit(chain, p.height);
      forall t | t in s'.index.txs
        ensures var l := s'.index.txs[t]; l.index < |chain(l.height).txs| && chain(l.height).txs[l.index] == t
      {
        CommitFromChain(chain, s, p, t);
      }
    }
  }

  lemma {:induction false} ReachableFromChain<E(!new)>(chain: nat -> Block<E>, steps: seq<Step<E>>)
    requires Final(chain) && Honest(chain, steps)
    ensures FromChain(chain, RunAll(steps))
  {
    if steps == [] {
    } else {
      ReachableFromChain(chain, steps[..|steps| - 1]);
      ApplyFromChain(chain, RunAll(steps[..|steps| - 1]), steps[|steps| - 1]);
    }
  }

  /** `get_by_hash`: the index, then the height. */
  function GetByHash<E>(s: State<E>, hash: Id): Option<Block<E>> {
    if hash in s.index.hashes && Has(s.db, s.index.hashes[hash]) then Some(s.db.blocks[s.index.hashes[hash]])
    else None
  }

  /** `get_tx_location`, then the block it names. */
  function GetTxBlock<E>(s: State<E>, tx: Id): Option<(Block<E>, nat)> {
    if tx in s.index.txs && Has(s.db, s.index.txs[tx].height) then
      Some((s.db.blocks[s.index.txs[tx].height], s.index.txs[tx].index))
    else None
  }

  /**
   Under finality a lookup by hash answers with the block that has that hash, a
   lookup by transaction id with the block and position holding that transaction,
   and an index hit never turns into a miss.
   */
  lemma LookupsAreRight<E(!new)>(chain: nat -> Block<E>, steps: seq<Step<E>>, k: Id)
    requires Final(chain) && Honest(chain, steps)
    ensures var s := RunAll(steps);
            && (GetByHash(s, k).Some? <==> k in s.index.hashes)
            && (GetByHash(s, k).Some? ==> GetByHash(s, k).value.hash == k)
            && (GetTxBlock(s, k).Some? <==> k in s.index.txs)
            && (GetTxBlock(s, k).Some? ==>
                  var (b, i) := GetTxBlock(s, k).value; i < |b.txs| && b.txs[i] == k)
  {
    ReachableFromChain(chain, steps);
    IndexPointsInside(steps);
  }

  lemma SameHashSameHeight<E(!new)>(chain: nat -> Block<E>, g: nat, h: nat)
    requires Final(chain) && g <= U64_MAX && h <= U64_MAX && g != h
    ensures chain(g).hash != chain(h).hash
  {
  }

  lemma ApplyKeepsIndexed<E(!new)>(chain: nat -> Block<E>, s: State<E>, step: Step<E>, h: nat)
    requires Final(chain) && FromChain(chain, s) && Indexed(s, h)
    requires FromUpstream(chain, step)
    ensures Indexed(Apply(s, step), h)
  {
    hide Final, TxEntries;
    if step.Commit? && step.i < |s.inFlight| {
      var p := s.inFlight[step.i];
      if p.height != h { SameHashSameHeight(chain, p.height, h); }
    }
  }

  /**
   Under finality the only stored heights without an index entry are those whose put
   is still in flight, or was in flight at an earlier crash or failed batch.
   */
  lemma {:induction false} UnindexedHeights<E(!new)>(chain: nat -> Block<E>, steps: seq<Step<E>>, h: nat)
    requires Final(chain) && Honest(chain, steps)
    requires Has(RunAll(steps).db, h) && !Indexed(RunAll(steps), h) && !InFlightAt(RunAll(steps), h)
    ensures exists k :: 0 <= k < |steps| && (steps[k].Crash? || steps[k].Abandon?) && InFlightAt(RunAll(steps[..k]), h)
  {
    hide Final, FromChain, Apply, Indexed, PointsInside;
    var n := |steps| - 1;
    var before, step := steps[..n], steps[n];
    var s := RunAll(before);
    ReachableFromChain(chain, before);
    if InFlightAt(s, h) {
      IndexPointsInside(before);
      InFlightEnds(chain, s, step, h);
      assert steps[..n] == before;
    } else {
      if Indexed(s, h) {
        ApplyKeepsIndexed(chain, s, step, h);
        assert false;
      }
      NewHeightIsInFlight(s, step, h);
      UnindexedHeights(chain, before, h);
      var k :| 0 <= k < |before| && (before[k].Crash? || before[k].Abandon?) && InFlightAt(RunAll(before[..k]), h);
      assert steps[k] == before[k] && steps[..k] == before[..k];
    }
  }

  /** Index entries of transactions are never dropped. */
  lemma TxsStayIndexed<E>(s: State<E>, step: Step<E>, t: Id)
    requires t in s.index.txs
    ensures t in Apply(s, step).index.txs
  {
    if step.Commit? && step.i < |s.inFlight| { CommitIndexes(s, step.i, t); }
  }

  /** A put leaves flight by committing, which indexes its transactions, or by being dropped. */
  lemma InFlightTxsEnd<E(!new)>(chain: nat -> Block<E>, s: State<E>, step: Step<E>, h: nat, t: Id)
    requires FromChain(chain, s) && InFlightAt(s, h) && t in chain(h).txs
    ensures InFlightAt(Apply(s, step), h) || t in Apply(s, step).index.txs || step.Crash? || step.Abandon?
  {
    var s' := Apply(s, step);
    var i :| 0 <= i < |s.inFlight| && s.inFlight[i].height == h;
    assert s.inFlight[i].block == chain(h);
    hide FromChain;
    if step.Write? {
      assert s'.inFlight[i].height == h;
    } else if step.Commit? && step.i < |s.inFlight| {
      if step.i == i {
        CommitIndexes(s, i, t);
      } else {
        assert s'.inFlight[if i < step.i then i else i - 1].height == h;
      }
    }
  }

  /**
   The same for transactions: under finality a transaction of a stored block that is not
   indexed had its block's put in flight at an earlier crash or failed batch, or has it now.
   */
  lemma {:induction false} UnindexedTxs<E(!new)>(chain: nat -> Block<E>, steps: seq<Step<E>>, h: nat, t: Id)
    requires Final(chain) && Honest(chain, steps) && Has(RunAll(steps).db, h) && t in chain(h).txs
    requires t !in RunAll(steps).index.txs && !InFlightAt(RunAll(steps), h)
    ensures exists k :: 0 <= k < |steps| && (steps[k].Crash? || steps[k].Abandon?) && InFlightAt(RunAll(steps[..k]), h)
  {
    hide Final, FromChain, Apply;
    var n := |steps| - 1;
    var before, step := steps[..n], steps[n];
    var s := RunAll(before);
    ReachableFromChain(chain, before);
    if t in s.index.txs { TxsStayIndexed(s, step, t); }
    if InFlightAt(s, h) {
      InFlightTxsEnd(chain, s, step, h, t);
      assert steps[..n] == before;
    } else {
      NewHeightIsInFlight(s, step, h);
      UnindexedTxs(chain, before, h, t);
      var k :| 0 <= k < |before| && (before[k].Crash? || before[k].Abandon?) && InFlightAt(RunAll(before[..k]), h);
      assert steps[k] == before[k] && steps[..k] == before[..k];
    }
  }

  /** A height becomes stored only by a put that is then in flight. */
  lemma NewHeightIsInFlight<E>(s: State<E>, step: Step<E>, h: nat)
    ensures Has(Apply(s, step).db, h) ==> Has(s.db, h) || InFlightAt(Apply(s, step), h)
  {
    var s' := Apply(s, step);
    if step.Write? && step.put.height == h && |s'.inFlight| > |s.inFlight| {
      assert s'.inFlight[|s.inFlight|] == step.put;
    }
  }

  /** A put leaves flight by committing, which indexes its height, or by being dropped. */
  lemma InFlightEnds<E(!new)>(chain: nat -> Block<E>, s: State<E>, step: Step<E>, h: nat)
    requires FromChain(chain, s) && InFlightAt(s, h) && Has(s.db, h)
    requires FromUpstream(chain, step)
    ensures InFlightAt(Apply(s, step), h) || Indexed(Apply(s, step), h) || step.Crash? || step.Abandon?
  {
    var s' := Apply(s, step);
    var i :| 0 <= i < |s.inFlight| && s.inFlight[i].height == h;
    if step.Write? {
      assert s'.inFlight[i].height == h;
    } else if step.Commit? && step.i < |s.inFlight| && step.i != i {
      assert s'.inFlight[if i < step.i then i else i - 1].height == h;
    }
  }

  // ----------------------------------------------------- without finality

  /** Step `j` is a write the blockstore took. */
  ghost predicate Taken<E>(steps: seq<Step<E>>, j: nat) {
    j < |steps| && steps[j].Write? && Writable(RunAll(steps[..j]).db, steps[j].put.height)
  }

  /** Step `j` is the last write taken at height `h`. */
  ghost predicate LastWriteAt<E>(steps: seq<Step<E>>, h: nat, j: nat) {
    && Taken(steps, j) && steps[j].put.height == h
    && forall i :: j < i < |steps| && Taken(steps, i) ==> steps[i].put.height != h
  }

  lemma {:induction false} DbValid<E>(steps: seq<Step<E>>)
    ensures ValidDb(RunAll(steps).db)
  {
    IndexPointsInside(steps);
  }

  lemma {:induction false} LastWriteIsStored<E>(steps: seq<Step<E>>, h: nat) returns (j: nat)
    requires Has(RunAll(steps).db, h)
    ensures LastWriteAt(steps, h, j) && RunAll(steps).db.blocks[h] == steps[j].put.block
  {
    var n := |steps| - 1;
    DbValid(steps[..n]);
    if Taken(steps, n) && steps[n].put.height == h {
      j := n;
    } else {
      j := LastWriteIsStored(steps[..n], h);
      assert steps[..n][..j] == steps[..j];
      forall i | j < i < |steps| && Taken(steps, i) ensures steps[i].put.height != h {
        if i < n { assert steps[..n][..i] == steps[..i] && Taken(steps[..n], i); }
      }
    }
  }

  /**
   Whatever upstream does, an indexed hash is answered with the block of the last write taken
   at its height, so the answer is right if and only if that write carried the hash.
   */
  lemma HashLookupRightIff<E>(steps: seq<Step<E>>, k: Id) returns (j: nat)
    requires k in RunAll(steps).index.hashes
    ensures var s := RunAll(steps);
            && LastWriteAt(steps, s.index.hashes[k], j)
            && GetByHash(s, k) == Some(steps[j].put.block)
            && (GetByHash(s, k).value.hash == k <==> steps[j].put.block.hash == k)
  {
    IndexPointsInside(steps);
    j := LastWriteIsStored(steps, RunAll(steps).index.hashes[k]);
  }

  /** The same for a transaction id: right if and only if the last write at its height has it at its position. */
  lemma TxLookupRightIff<E>(steps: seq<Step<E>>, t: Id) returns (j: nat)
    requires t in RunAll(steps).index.txs
    ensures var s := RunAll(steps);
            && LastWriteAt(steps, s.index.txs[t].height, j)
            && GetTxBlock(s, t) == Some((steps[j].put.block, s.index.txs[t].index))
            && var (b, i) := GetTxBlock(s, t).value;
               (i < |b.txs| && b.txs[i] == t <==> i < |steps[j].put.block.txs| && steps[j].put.block.txs[i] == t)
  {
    IndexPointsInside(steps);
    j := LastWriteIsStored(steps, RunAll(steps).index.txs[t].height);
  }

  /** Finality is needed: rewriting a height leaves the first hash pointing at the second block. */
  lemma ReorgBreaksHashLookup(a: Id, b: Id)
    requires a != b
    ensures var one: Block<int> := Block(a, [], Bare(1));
            var two: Block<int> := Block(b, [], Bare(2));
            var s := RunAll([Write(Put(7, one), None), Commit(0), Write(Put(7, two), None), Commit(0)]);
            GetByHash(s, a) == Some(two)
  {
    var one: Block<int> := Block(a, [], Bare(1));
    var two: Block<int> := Block(b, [], Bare(2));
    var s1 := Write(Put(7, one), None);
    var s3 := Write(Put(7, two), None);
    var done: seq<Step<int>> := [];
    RunSnoc(done, s1);
    RunSnoc(done + [s1], Commit(0));
    RunSnoc(done + [s1] + [Commit(0)], s3);
    RunSnoc(done + [s1] + [Commit(0)] + [s3], Commit(0));
    assert done + [s1] + [Commit(0)] + [s3] + [Commit(0)] == [s1, Commit(0), s3, Commit(0)];
  }

  lemma RunSnoc<E>(steps: seq<Step<E>>, step: Step<E>)
    ensures RunAll(steps + [step]) == Apply(RunAll(steps), step)
  {
    assert (steps + [step])[..|steps|] == steps;
  }

  // ---------------------------------------------------------- the put itself

  /** The open store, as one caller sees it; `put` runs both stages in a row. */
  class Store<E(==)> {
    const floor: Option<nat>
    const arity: nat
    var db: Db<Block<E>>
    var index: Index

    ghost function View(): State<E>
      reads this
    {
      State(db, index, [])
    }

    constructor (floor: Option<nat>, arity: nat)
      ensures this.floor == floor && this.arity == arity && View() == Init()
    {
      this.floor, this.arity, this.db, this.index := floor, arity, Closed, Index(map[], map[]);
    }

    /**
     `put`: refuse a record of the wrong arity, write the block, then commit one
     index batch. `writeOk` and `commitOk` are the outcomes of the two stages. A
     failure in the first changes nothing; a failure in the second is a crash there.
     */
    method PutBlock(height: nat, hash: Id, txs: seq<Id>, elements: seq<E>, writeOk: bool, commitOk: bool)
      returns (r: Result<()>)
      requires ValidDb(db)
      modifies this
      ensures ValidDb(db)
      ensures r.Ok? <==> |elements| == arity && writeOk && commitOk && Writable(old(db), height)
      ensures var write := Write(Put(height, Block(hash, txs, Combined(elements))), floor);
              View() == if |elements| != arity || !writeOk then old(View())
                        else Apply(Apply(old(View()), write), if commitOk then Commit(0) else Crash)
    {
      if |elements| != arity || !writeOk {
        return Err;
      }
      var block := Block(hash, txs, Combined(elements));
      if db.Open? && height < db.min {
        return Err;
      }
      db := WriteBlock(db, floor, height, block);
      if !commitOk {
        return Err;
      }
      var batch := index.txs;
      for idx := 0 to |txs|
        invariant batch == TxEntries(index.txs, height, txs[..idx])
        invariant db == WriteBlock(old(db), floor, height, block) && index == old(index)
      {
        assert txs[..idx + 1][..idx] == txs[..idx];
        batch := batch[txs[idx] := Location(height, idx % U32)];
      }
      assert txs[..|txs|] == txs;
      index := Index(index.hashes[hash := height], batch);
      return Ok(());
    }
  }
}
