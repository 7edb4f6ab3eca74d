/**
 The block/logs join buffer: halves wait by height for their other half, and a new height
 that finds the buffer full flushes it.
 */
module JoinBuffer {
  import opened Wrappers

  datatype Pending<+B, +L> = BlockHalf(b: B) | LogsHalf(l: L)

  /** The decision made under the lock. */
  datatype Act<+B, +L> = Write(b: B, l: L) | Buffered | Deferred

  datatype Outcome = Completed | Waits | Dropped | WriteFailed

  /** `on_block` and `on_logs`: remove what waits at the height, then decide. */
  function Decide<B, L>(pending: map<nat, Pending<B, L>>, cap: nat, h: nat, x: Pending<B, L>)
    : (map<nat, Pending<B, L>>, Act<B, L>)
  {
    if h in pending then
      match (pending[h], x)
      case (LogsHalf(l), BlockHalf(b)) => (pending - {h}, Write(b, l))
      case (BlockHalf(b), LogsHalf(l)) => (pending - {h}, Write(b, l))
      case _ => (pending[h := x], Buffered)
    else if |pending| >= cap then (map[], Deferred)
    else (pending[h := x], Buffered)
  }

  /** What the caller learns: a pair completes or its write fails, a half waits, an overflow drops. */
  function OutcomeOf<B, L>(act: Act<B, L>, putOk: bool): Outcome {
    match act
    case Write(_, _) => if putOk then Completed else WriteFailed
    case Buffered => Waits
    case Deferred => Dropped
  }

  class Buffer<B, L> {
    const cap: nat
    var pending: map<nat, Pending<B, L>>
    var written: seq<(nat, B, L)>

    constructor (cap: nat)
      ensures this.cap == cap && pending == map[] && written == []
    {
      this.cap, this.pending, this.written := cap, map[], [];
    }

    /** `apply`: on completion the durable write, which may fail. */
    method Finish(h: nat, act: Act<B, L>, putOk: bool) returns (r: Outcome)
      modifies this`written
      ensures r == OutcomeOf(act, putOk)
      ensures written == old(written) + (if act.Write? && putOk then [(h, act.b, act.l)] else [])
    {
      match act
      case Write(b, l) =>
        if putOk {
          written := written + [(h, b, l)];
          return Completed;
        }
        return WriteFailed;
      case Buffered => return Waits;
      case Deferred => return Dropped;
    }

    method OnBlock(h: nat, b: B, putOk: bool) returns (r: Outcome)
      requires |pending| <= cap
      modifies this
      ensures pending == Decide(old(pending), cap, h, BlockHalf(b)).0 && |pending| <= cap
      ensures var act := Decide(old(pending), cap, h, BlockHalf(b)).1;
              && r == OutcomeOf(act, putOk)
              && written == old(written) + (if act.Write? && putOk then [(h, act.b, act.l)] else [])
    {
      SizeKept(pending, cap, h, BlockHalf(b));
      var waiting := if h in pending then Some(pending[h]) else None;
      var act;
      match waiting {
        case Some(LogsHalf(l)) =>
          pending := pending - {h};
          act := Write(b, l);
        case Some(BlockHalf(_)) =>
          pending := pending[h := BlockHalf(b)];
          act := Buffered;
        case None =>
          if |pending| >= cap {
            pending := map[];
            act := Deferred;
          } else {
            pending := pending[h := BlockHalf(b)];
            act := Buffered;
          }
      }
      r := Finish(h, act, putOk);
    }

    method OnLogs(h: nat, l: L, putOk: bool) returns (r: Outcome)
      requires |pending| <= cap
      modifies this
      ensures pending == Decide(old(pending), cap, h, LogsHalf(l)).0 && |pending| <= cap
      ensures var act := Decide(old(pending), cap, h, LogsHalf(l)).1;
              && r == OutcomeOf(act, putOk)
              && written == old(written) + (if act.Write? && putOk then [(h, act.b, act.l)] else [])
    {
      SizeKept(pending, cap, h, LogsHalf(l));
      var waiting := if h in pending then Some(pending[h]) else None;
      var act;
      match waiting {
        case Some(BlockHalf(b)) =>
          pending := pending - {h};
          act := Write(b, l);
        case Some(LogsHalf(_)) =>
          pending := pending[h := LogsHalf(l)];
          act := Buffered;
        case None =>
          if |pending| >= cap {
            pending := map[];
            act := Deferred;
          } else {
            pending := pending[h := LogsHalf(l)];
            act := Buffered;
          }
      }
      r := Finish(h, act, putOk);
    }

    /** `buffered_block`: a block still waiting for its logs is already servable. */
    method BufferedBlock(h: nat) returns (r: Option<B>)
      ensures r.Some? <==> h in pending && pending[h].BlockHalf?
      ensures r.Some? ==> r.value == pending[h].b
    {
      if h in pending && pending[h].BlockHalf? {
        return Some(pending[h].b);
      }
      return None;
    }
  }

  lemma SizeKept<B, L>(pending: map<nat, Pending<B, L>>, cap: nat, h: nat, x: Pending<B, L>)
    requires |pending| <= cap
    ensures |Decide(pending, cap, h, x).0| <= cap
  {
    ReplaceSize(pending, h, x);
    DropSize(pending, h);
  }

  lemma ReplaceSize<T>(m: map<nat, T>, h: nat, x: T)
    ensures |m[h := x]| == if h in m then |m| else |m| + 1
  {
    assert m[h := x].Keys == m.Keys + {h};
    assert h in m ==> m.Keys + {h} == m.Keys;
  }

  lemma DropSize<T>(m: map<nat, T>, h: nat)
    ensures |m - {h}| <= |m|
  {
    assert (m - {h}).Keys == m.Keys - {h};
  }

  // ------------------------------------------------- histories of arrivals

  /** One half arriving; `putOk` is the fate of the write if this arrival completes a pair. */
  datatype Arrival = Arrival(height: nat, isBlock: bool, putOk: bool)

  /** What became of an arrival, each named by its position in the history. */
  datatype Fate =
    | Waiting
    | Used(partner: nat)
    | Lost(partner: nat)
    | Replaced(successor: nat)
    | Flushed(at: nat)
    | Refused

  datatype Record = Record(height: nat, block: nat, logs: nat)

  /** The buffer over arrival positions, with every arrival's fate and the records written. */
  datatype Trace = Trace(pending: map<nat, Pending<nat, nat>>, fates: seq<Fate>, records: seq<Record>)

  function IdOf(p: Pending<nat, nat>): nat { if p.BlockHalf? then p.b else p.l }

  function FlushAll(fates: seq<Fate>, at: nat): (r: seq<Fate>)
    ensures |r| == |fates|
    ensures forall i :: 0 <= i < |fates| ==> r[i] == if fates[i].Waiting? then Flushed(at) else fates[i]
  {
    seq(|fates|, i requires 0 <= i < |fates| => if fates[i].Waiting? then Flushed(at) else fates[i])
  }

  function Feed(t: Trace, cap: nat, a: Arrival): Trace {
    var id := |t.fates|;
    var (pending, act) := Decide(t.pending, cap, a.height, HalfOf(a, id));
    match act
    case Write(b, l) =>
      var first := if a.isBlock then l else b;
      if first >= id then t
      else if a.putOk then
        Trace(pending, t.fates[first := Used(id)] + [Used(first)], t.records + [Record(a.height, b, l)])
      else Trace(pending, t.fates[first := Lost(id)] + [Lost(first)], t.records)
    case Buffered =>
      var fates := if a.height in t.pending && IdOf(t.pending[a.height]) < id
                   then t.fates[IdOf(t.pending[a.height]) := Replaced(id)] else t.fates;
      Trace(pending, fates + [Waiting], t.records)
    case Deferred => Trace(pending, FlushAll(t.fates, id) + [Refused], t.records)
  }

  /** The buffer after the first `n` arrivals. */
  function History(cap: nat, arrivals: seq<Arrival>, n: nat): Trace
    requires n <= |arrivals|
  {
    if n == 0 then Trace(map[], [], []) else Feed(History(cap, arrivals, n - 1), cap, arrivals[n - 1])
  }

  // -------------------------------------------------------- what must hold

  /** The map and the fates agree on who waits, and each height waits with one of its own halves. */
  ghost predicate PendingRight(arrivals: seq<Arrival>, n: nat, t: Trace) {
    && n <= |arrivals| && |t.fates| == n
    && (forall h :: h in t.pending ==> WaitsAt(arrivals, n, t, h))
    && (forall i :: 0 <= i < n && t.fates[i].Waiting? ==>
          arrivals[i].height in t.pending && IdOf(t.pending[arrivals[i].height]) == i)
  }

  ghost predicate WaitsAt(arrivals: seq<Arrival>, n: nat, t: Trace, h: nat)
    requires n <= |arrivals| && |t.fates| == n && h in t.pending
  {
    var id := IdOf(t.pending[h]);
    id < n && arrivals[id].height == h && arrivals[id].isBlock == t.pending[h].BlockHalf? && t.fates[id].Waiting?
  }

  /** Nothing arrived for the height of `i`, and nothing was flushed, between `i` and `n`. */
  ghost predicate Undisturbed(arrivals: seq<Arrival>, fates: seq<Fate>, i: nat, n: nat) {
    && i < n <= |arrivals| && n <= |fates|
    && forall k :: i < k < n ==> arrivals[k].height != arrivals[i].height && !fates[k].Refused?
  }

  ghost predicate AllUndisturbed(arrivals: seq<Arrival>, n: nat, t: Trace) {
    forall h :: h in t.pending ==> Undisturbed(arrivals, t.fates, IdOf(t.pending[h]), n)
  }

  predicate Contains(r: Record, i: nat) { r.block == i || r.logs == i }

  function First(r: Record): nat { if r.block < r.logs then r.block else r.logs }

  function Completion(r: Record): nat { if r.block < r.logs then r.logs else r.block }

  /** A record joins the two halves of its height, with nothing for that height and no flush between. */
  ghost predicate RecordRight(arrivals: seq<Arrival>, n: nat, fates: seq<Fate>, r: Record) {
    && n <= |arrivals| && n <= |fates| && Completion(r) < n && r.block != r.logs
    && arrivals[r.block].isBlock && !arrivals[r.logs].isBlock
    && arrivals[r.block].height == r.height == arrivals[r.logs].height
    && fates[r.block] == Used(r.logs) && fates[r.logs] == Used(r.block)
    && Undisturbed(arrivals, fates, First(r), Completion(r))
  }

  ghost predicate RecordsRight(arrivals: seq<Arrival>, n: nat, t: Trace) {
    && (forall k :: 0 <= k < |t.records| ==> RecordRight(arrivals, n, t.fates, t.records[k]))
    && (forall k, m :: 0 <= k < m < |t.records| ==> Completion(t.records[k]) < Completion(t.records[m]))
  }

  ghost predicate Recorded(t: Trace, i: nat) { exists k :: 0 <= k < |t.records| && Contains(t.records[k], i) }

  ghost predicate UsedRecorded(t: Trace) {
    forall i :: 0 <= i < |t.fates| && t.fates[i].Used? ==> Recorded(t, i)
  }

  ghost predicate Inv(cap: nat, arrivals: seq<Arrival>, n: nat, t: Trace) {
    && PendingRight(arrivals, n, t) && |t.pending| <= cap && AllUndisturbed(arrivals, n, t)
    && RecordsRight(arrivals, n, t) && UsedRecorded(t)
  }

  // ------------------------------------------------------ the kinds of step

  function HalfOf(a: Arrival, id: nat): Pending<nat, nat> { if a.isBlock then BlockHalf(id) else LogsHalf(id) }

  /** Every other height's slot is as it was. */
  ghost predicate OthersKept(t: Trace, t': Trace, h: nat) {
    forall g :: g != h ==> (g in t'.pending <==> g in t.pending) && (g in t.pending ==> t'.pending[g] == t.pending[g])
  }

  ghost predicate Buffers(t: Trace, t': Trace, a: Arrival) {
    && OthersKept(t, t', a.height) && t'.records == t.records
    && a.height in t'.pending && t'.pending[a.height] == HalfOf(a, |t.fates|)
    && |t'.fates| == |t.fates| + 1 && t'.fates[|t.fates|] == Waiting
    && forall i :: 0 <= i < |t.fates| ==>
         t'.fates[i] ==
           if a.height in t.pending && i == IdOf(t.pending[a.height]) then Replaced(|t.fates|) else t.fates[i]
  }

  ghost predicate Flushes(t: Trace, t': Trace) {
    && t'.pending == map[] && t'.records == t.records
    && |t'.fates| == |t.fates| + 1 && t'.fates[|t.fates|] == Refused
    && forall i :: 0 <= i < |t.fates| ==> t'.fates[i] == if t.fates[i].Waiting? then Flushed(|t.fates|) else t.fates[i]
  }

  ghost predicate Completes(t: Trace, t': Trace, a: Arrival, first: nat) {
    && OthersKept(t, t', a.height) && a.height !in t'.pending
    && first < |t.fates| && |t'.fates| == |t.fates| + 1
    && t'.fates[|t.fates|] == (if a.putOk then Used(first) else Lost(first))
    && t'.fates[first] == (if a.putOk then Used(|t.fates|) else Lost(|t.fates|))
    && (forall i :: 0 <= i < |t.fates| && i != first ==> t'.fates[i] == t.fates[i])
    && var r := if a.isBlock then Record(a.height, |t.fates|, first) else Record(a.height, first, |t.fates|);
       t'.records == t.records + (if a.putOk then [r] else [])
  }

  predicate Full(t: Trace, cap: nat, a: Arrival) { a.height !in t.pending && |t.pending| >= cap }

  predicate Joins(t: Trace, a: Arrival) { a.height in t.pending && t.pending[a.height].BlockHalf? != a.isBlock }

  lemma FeedKinds(cap: nat, arrivals: seq<Arrival>, n: nat, t: Trace, a: Arrival)
    requires PendingRight(arrivals, n, t)
    ensures var t' := Feed(t, cap, a);
            if Full(t, cap, a) then Flushes(t, t')
            else if Joins(t, a) then Completes(t, t', a, IdOf(t.pending[a.height]))
            else Buffers(t, t', a)
  {
    if a.height in t.pending { assert WaitsAt(arrivals, n, t, a.height); }
  }

  // ------------------------------------------------------------- each is kept

  lemma BuffersPending(arrivals: seq<Arrival>, n: nat, t: Trace, t': Trace)
    requires n < |arrivals| && PendingRight(arrivals, n, t) && Buffers(t, t', arrivals[n])
    ensures PendingRight(arrivals, n + 1, t')
  {
    var a := arrivals[n];
    forall h | h in t'.pending ensures WaitsAt(arrivals, n + 1, t', h) {
      if h != a.height { assert WaitsAt(arrivals, n, t, h); }
    }
  }

  lemma CompletesPending(arrivals: seq<Arrival>, n: nat, t: Trace, t': Trace, first: nat)
    requires n < |arrivals| && PendingRight(arrivals, n, t) && Joins(t, arrivals[n])
    requires first == IdOf(t.pending[arrivals[n].height]) && Completes(t, t', arrivals[n], first)
    ensures PendingRight(arrivals, n + 1, t')
  {
    assert WaitsAt(arrivals, n, t, arrivals[n].height);
    forall h | h in t'.pending ensures WaitsAt(arrivals, n + 1, t', h) { assert WaitsAt(arrivals, n, t, h); }
  }

  /** Fates are settled once: only a waiting arrival changes, and never into a refusal. */
  ghost predicate Settles(fates: seq<Fate>, fates': seq<Fate>) {
    && |fates'| == |fates| + 1
    && forall i :: 0 <= i < |fates| ==>
         (!fates[i].Waiting? ==> fates'[i] == fates[i]) && (fates[i].Waiting? ==> !fates'[i].Refused?)
  }

  lemma UndisturbedKept(arrivals: seq<Arrival>, n: nat, t: Trace, t': Trace)
    requires n < |arrivals| && PendingRight(arrivals, n, t) && AllUndisturbed(arrivals, n, t)
    requires Settles(t.fates, t'.fates) && !t'.fates[n].Refused? && OthersKept(t, t', arrivals[n].height)
    requires arrivals[n].height in t'.pending ==> IdOf(t'.pending[arrivals[n].height]) == n
    ensures AllUndisturbed(arrivals, n + 1, t')
  {
    forall h | h in t'.pending ensures Undisturbed(arrivals, t'.fates, IdOf(t'.pending[h]), n + 1) {
      if h != arrivals[n].height {
        assert WaitsAt(arrivals, n, t, h) && Undisturbed(arrivals, t.fates, IdOf(t.pending[h]), n);
      }
    }
  }

  lemma RecordExtends(arrivals: seq<Arrival>, n: nat, fates: seq<Fate>, r: Record, fates': seq<Fate>)
    requires n < |arrivals| && |fates| == n && RecordRight(arrivals, n, fates, r) && Settles(fates, fates')
    ensures RecordRight(arrivals, n + 1, fates', r)
  {
  }

  lemma RecordsExtend(arrivals: seq<Arrival>, n: nat, t: Trace, t': Trace)
    requires n < |arrivals| && |t.fates| == n && RecordsRight(arrivals, n, t) && UsedRecorded(t)
    requires Settles(t.fates, t'.fates) && t'.records == t.records
    requires forall i :: 0 <= i <= n && t'.fates[i].Used? ==> i < n && t.fates[i].Used?
    ensures RecordsRight(arrivals, n + 1, t') && UsedRecorded(t')
  {
    forall k | 0 <= k < |t'.records| ensures RecordRight(arrivals, n + 1, t'.fates, t'.records[k]) {
      RecordExtends(arrivals, n, t.fates, t.records[k], t'.fates);
    }
    forall i | 0 <= i < |t'.fates| && t'.fates[i].Used? ensures Recorded(t', i) { assert Recorded(t, i); }
  }

  lemma CompletesRecords(arrivals: seq<Arrival>, n: nat, t: Trace, t': Trace, first: nat)
    requires n < |arrivals| && PendingRight(arrivals, n, t) && AllUndisturbed(arrivals, n, t) && Joins(t, arrivals[n])
    requires RecordsRight(arrivals, n, t) && first == IdOf(t.pending[arrivals[n].height])
    requires Completes(t, t', arrivals[n], first)
    ensures RecordsRight(arrivals, n + 1, t')
  {
    var h := arrivals[n].height;
    assert WaitsAt(arrivals, n, t, h) && Undisturbed(arrivals, t.fates, first, n);
    assert Undisturbed(arrivals, t'.fates, first, n);
    forall k | 0 <= k < |t.records| ensures RecordRight(arrivals, n + 1, t'.fates, t.records[k]) {
      RecordExtends(arrivals, n, t.fates, t.records[k], t'.fates);
    }
    hide PendingRight, AllUndisturbed;
    forall k | 0 <= k < |t.records| ensures Completion(t.records[k]) < n {
      assert RecordRight(arrivals, n, t.fates, t.records[k]);
    }
  }

  lemma CompletesUsed(t: Trace, t': Trace, a: Arrival, first: nat)
    requires Completes(t, t', a, first) && UsedRecorded(t)
    ensures UsedRecorded(t')
  {
    forall i | 0 <= i < |t'.fates| && t'.fates[i].Used? ensures Recorded(t', i) {
      if i == |t.fates| || i == first {
        assert Contains(t'.records[|t.records|], i);
      } else {
        assert Recorded(t, i);
        var k :| 0 <= k < |t.records| && Contains(t.records[k], i);
        assert Contains(t'.records[k], i);
      }
    }
  }

  lemma BuffersInv(cap: nat, arrivals: seq<Arrival>, n: nat, t: Trace, t': Trace)
    requires n < |arrivals| && Inv(cap, arrivals, n, t) && Buffers(t, t', arrivals[n]) && |t'.pending| <= cap
    ensures Inv(cap, arrivals, n + 1, t')
  {
    hide AllUndisturbed, RecordsRight, UsedRecorded;
    if arrivals[n].height in t.pending { assert WaitsAt(arrivals, n, t, arrivals[n].height); }
    BuffersPending(arrivals, n, t, t');
    UndisturbedKept(arrivals, n, t, t');
    RecordsExtend(arrivals, n, t, t');
  }

  lemma FlushesInv(cap: nat, arrivals: seq<Arrival>, n: nat, t: Trace, t': Trace)
    requires n < |arrivals| && Inv(cap, arrivals, n, t) && Flushes(t, t')
    ensures Inv(cap, arrivals, n + 1, t')
  {
    hide RecordsRight, UsedRecorded;
    RecordsExtend(arrivals, n, t, t');
  }

  lemma CompletesInv(cap: nat, arrivals: seq<Arrival>, n: nat, t: Trace, t': Trace, first: nat)
    requires n < |arrivals| && Inv(cap, arrivals, n, t) && Joins(t, arrivals[n]) && |t'.pending| <= cap
    requires first == IdOf(t.pending[arrivals[n].height]) && Completes(t, t', arrivals[n], first)
    ensures Inv(cap, arrivals, n + 1, t')
  {
    hide AllUndisturbed, RecordsRight, UsedRecorded;
    assert WaitsAt(arrivals, n, t, arrivals[n].height);
    CompletesPending(arrivals, n, t, t', first);
    UndisturbedKept(arrivals, n, t, t');
    CompletesRecords(arrivals, n, t, t', first);
    CompletesUsed(t, t', arrivals[n], first);
  }

  lemma FeedSize(cap: nat, arrivals: seq<Arrival>, n: nat, t: Trace, a: Arrival)
    requires PendingRight(arrivals, n, t) && |t.pending| <= cap
    ensures |Feed(t, cap, a).pending| <= cap
  {
    SizeKept(t.pending, cap, a.height, HalfOf(a, |t.fates|));
    if a.height in t.pending { assert WaitsAt(arrivals, n, t, a.height); }
  }

  lemma FeedInv(cap: nat, arrivals: seq<Arrival>, n: nat, t: Trace)
    requires n < |arrivals| && Inv(cap, arrivals, n, t)
    ensures Inv(cap, arrivals, n + 1, Feed(t, cap, arrivals[n]))
  {
    hide Feed, PendingRight, AllUndisturbed, RecordsRight, UsedRecorded, Buffers, Flushes, Completes;
    var a := arrivals[n];
    var t' := Feed(t, cap, a);
    FeedKinds(cap, arrivals, n, t, a);
    FeedSize(cap, arrivals, n, t, a);
    if Full(t, cap, a) {
      FlushesInv(cap, arrivals, n, t, t');
    } else if Joins(t, a) {
      CompletesInv(cap, arrivals, n, t, t', IdOf(t.pending[a.height]));
    } else {
      BuffersInv(cap, arrivals, n, t, t');
    }
  }

  lemma InitInv(cap: nat, arrivals: seq<Arrival>)
    ensures Inv(cap, arrivals, 0, Trace(map[], [], []))
  {
  }

  lemma {:induction false} HistoryInv(cap: nat, arrivals: seq<Arrival>, n: nat)
    requires n <= |arrivals|
    ensures Inv(cap, arrivals, n, History(cap, arrivals, n))
  {
    hide Inv, Feed;
    if n == 0 {
      InitInv(cap, arrivals);
    } else {
      HistoryInv(cap, arrivals, n - 1);
      FeedInv(cap, arrivals, n - 1, History(cap, arrivals, n - 1));
    }
  }

  // ------------------------------------------------------------ main results

  /**
   For every sequence of arrivals: at most `cap` heights wait, one half each. Every written
   record pairs a block and logs of its height with nothing for that height and no flush
   between them, so they are the latest of each since the height was last completed or
   flushed. Each arrival has one fate, and it is used exactly when one record holds it.
   */
  lemma JoinIsExact(cap: nat, arrivals: seq<Arrival>, n: nat, i: nat)
    requires i < n <= |arrivals|
    ensures var t := History(cap, arrivals, n);
            && |t.pending| <= cap && |t.fates| == n
            && (forall k :: 0 <= k < |t.records| ==> RecordRight(arrivals, n, t.fates, t.records[k]))
            && (t.fates[i].Used? <==> Recorded(t, i))
            && (forall k, m :: 0 <= k < m < |t.records| ==> !(Contains(t.records[k], i) && Contains(t.records[m], i)))
            && (t.fates[i].Waiting? <==> arrivals[i].height in t.pending && IdOf(t.pending[arrivals[i].height]) == i)
  {
    HistoryInv(cap, arrivals, n);
    var t := History(cap, arrivals, n);
    forall k, m | 0 <= k < m < |t.records| ensures !(Contains(t.records[k], i) && Contains(t.records[m], i)) {
      OneRecordEach(arrivals, n, t.fates, t.records[k], t.records[m], i);
    }
    forall k | 0 <= k < |t.records| && Contains(t.records[k], i) ensures t.fates[i].Used? {
      assert RecordRight(arrivals, n, t.fates, t.records[k]);
    }
    if arrivals[i].height in t.pending { assert WaitsAt(arrivals, n, t, arrivals[i].height); }
  }

  lemma OneRecordEach(arrivals: seq<Arrival>, n: nat, fates: seq<Fate>, r: Record, r': Record, i: nat)
    requires RecordRight(arrivals, n, fates, r) && RecordRight(arrivals, n, fates, r')
    requires Completion(r) < Completion(r')
    ensures !(Contains(r, i) && Contains(r', i))
  {
  }

  // ------------------------------------------------------- where each half went

  /** Halves `i` and `j` of one height met with nothing for that height and no flush between. */
  ghost predicate Met(arrivals: seq<Arrival>, fates: seq<Fate>, i: nat, j: nat) {
    && i < |arrivals| && j < |arrivals|
    && arrivals[i].height == arrivals[j].height && arrivals[i].isBlock != arrivals[j].isBlock
    && Undisturbed(arrivals, fates, if i < j then i else j, if i < j then j else i)
  }

  /** Does the fate of arrival `i` say what happened to it? */
  ghost predicate FateRight(arrivals: seq<Arrival>, fates: seq<Fate>, i: nat)
    requires i < |fates| <= |arrivals|
  {
    match fates[i]
    case Waiting => true
    case Refused => true
    case Used(j) => j < |fates| && Met(arrivals, fates, i, j) && arrivals[if i < j then j else i].putOk
    case Lost(j) => j < |fates| && Met(arrivals, fates, i, j) && !arrivals[if i < j then j else i].putOk
    case Replaced(k) =>
      && k < |fates| && Undisturbed(arrivals, fates, i, k)
      && arrivals[k].height == arrivals[i].height && arrivals[k].isBlock == arrivals[i].isBlock
    case Flushed(k) => k < |fates| && Undisturbed(arrivals, fates, i, k) && fates[k].Refused?
  }

  lemma FateExtends(arrivals: seq<Arrival>, fates: seq<Fate>, fates': seq<Fate>, i: nat)
    requires i < |fates| < |arrivals| && FateRight(arrivals, fates, i)
    requires Settles(fates, fates') && fates'[i] == fates[i]
    ensures FateRight(arrivals, fates', i)
  {
  }

  lemma BuffersFate(arrivals: seq<Arrival>, n: nat, t: Trace, t': Trace, i: nat)
    requires n < |arrivals| && PendingRight(arrivals, n, t) && AllUndisturbed(arrivals, n, t)
    requires !Joins(t, arrivals[n]) && Buffers(t, t', arrivals[n])
    requires i < n && t'.fates[i] != t.fates[i]
    ensures FateRight(arrivals, t'.fates, i)
  {
    assert WaitsAt(arrivals, n, t, arrivals[n].height) && Undisturbed(arrivals, t.fates, i, n);
    hide PendingRight, AllUndisturbed;
    assert Undisturbed(arrivals, t'.fates, i, n);
  }

  lemma FlushesFate(arrivals: seq<Arrival>, n: nat, t: Trace, t': Trace, i: nat)
    requires n < |arrivals| && PendingRight(arrivals, n, t) && AllUndisturbed(arrivals, n, t) && Flushes(t, t')
    requires i < n && t'.fates[i] != t.fates[i]
    ensures FateRight(arrivals, t'.fates, i)
  {
    assert Undisturbed(arrivals, t.fates, i, n);
    hide PendingRight, AllUndisturbed;
    assert Undisturbed(arrivals, t'.fates, i, n);
  }

  lemma CompletesFate(arrivals: seq<Arrival>, n: nat, t: Trace, t': Trace, first: nat, i: nat)
    requires n < |arrivals| && PendingRight(arrivals, n, t) && AllUndisturbed(arrivals, n, t) && Joins(t, arrivals[n])
    requires first == IdOf(t.pending[arrivals[n].height]) && Completes(t, t', arrivals[n], first)
    requires i == first || i == n
    ensures i < |t'.fates| && FateRight(arrivals, t'.fates, i)
  {
    assert WaitsAt(arrivals, n, t, arrivals[n].height) && Undisturbed(arrivals, t.fates, first, n);
    hide PendingRight, AllUndisturbed;
    assert Undisturbed(arrivals, t'.fates, first, n);
  }

  lemma FeedFate(cap: nat, arrivals: seq<Arrival>, n: nat, t: Trace, i: nat)
    requires n < |arrivals| && Inv(cap, arrivals, n, t) && i <= n && (i < n ==> FateRight(arrivals, t.fates, i))
    ensures var t' := Feed(t, cap, arrivals[n]);
            && |t.fates| == n && |t'.fates| == n + 1 && FateRight(arrivals, t'.fates, i)
            && (i < n ==> t'.fates[i].Refused? == t.fates[i].Refused?)
            && (i == n ==> t'.fates[n].Refused? == Full(t, cap, arrivals[n]))
  {
    var a, t' := arrivals[n], Feed(t, cap, arrivals[n]);
    FeedKinds(cap, arrivals, n, t, a);
    hide Feed, Full, Joins, AllUndisturbed, RecordsRight, UsedRecorded, FateRight;
    if Joins(t, a) && !Full(t, cap, a) {
      JoinsWaiting(arrivals, n, t);
      var first := IdOf(t.pending[a.height]);
      if i == first || i == n {
        CompletesFate(arrivals, n, t, t', first, i);
      } else {
        FateExtends(arrivals, t.fates, t'.fates, i);
      }
    } else if i == n {
      Unsettled(arrivals, t'.fates, n);
    } else if t'.fates[i] == t.fates[i] {
      FateExtends(arrivals, t.fates, t'.fates, i);
    } else if Full(t, cap, a) {
      FlushesFate(arrivals, n, t, t', i);
    } else {
      BuffersFate(arrivals, n, t, t', i);
    }
  }

  lemma Unsettled(arrivals: seq<Arrival>, fates: seq<Fate>, i: nat)
    requires i < |fates| <= |arrivals| && (fates[i].Waiting? || fates[i].Refused?)
    ensures FateRight(arrivals, fates, i)
  {
  }

  lemma JoinsWaiting(arrivals: seq<Arrival>, n: nat, t: Trace)
    requires n < |arrivals| && PendingRight(arrivals, n, t) && Joins(t, arrivals[n])
    ensures arrivals[n].height in t.pending && WaitsAt(arrivals, n, t, arrivals[n].height)
  {
  }

  /**
   Every half is used once, replaced by a later half of its kind, flushed with the buffer,
   refused on arrival, still pending, or lost with its partner to a failed write, and its
   fate says which; it is refused exactly when it found a full buffer without its height.
   */
  lemma {:induction false} EveryHalfIsAccountedFor(cap: nat, arrivals: seq<Arrival>, n: nat, i: nat)
    requires i < n <= |arrivals|
    ensures var fates := History(cap, arrivals, n).fates;
            && |fates| == n && FateRight(arrivals, fates, i)
            && (fates[i].Refused? <==> Full(History(cap, arrivals, i), cap, arrivals[i]))
  {
    hide Feed, Inv, Full, FateRight;
    HistoryInv(cap, arrivals, n - 1);
    if i < n - 1 { EveryHalfIsAccountedFor(cap, arrivals, n - 1, i); }
    FeedFate(cap, arrivals, n - 1, History(cap, arrivals, n - 1), i);
  }

  // --------------------------------------------------------- the reference join

  /**
   The reference, stated on the arrivals alone: the position waiting at a height after `n`
   arrivals. A half of the other kind takes it away, one of the same kind replaces it, and
   an overflow clears every height.
   */
  ghost function WaitingAt(cap: nat, arrivals: seq<Arrival>, h: nat, n: nat): Option<nat>
    requires n <= |arrivals|
    decreases n, 0
  {
    if n == 0 then None
    else
      var before, a := WaitingAt(cap, arrivals, h, n - 1), arrivals[n - 1];
      if Overflows(cap, arrivals, n - 1) then None
      else if a.height != h then before
      else if before.Some? && before.value < n && arrivals[before.value].isBlock != a.isBlock then None
      else Some(n - 1)
  }

  /** All positions waiting before arrival `k`. */
  ghost function WaitingAll(cap: nat, arrivals: seq<Arrival>, k: nat): set<nat>
    requires k <= |arrivals|
    decreases k, 1
  {
    set i: nat | i < k && WaitingAt(cap, arrivals, arrivals[i].height, k) == Some(i)
  }

  /** Arrival `k` finds nothing at its height and `cap` halves waiting elsewhere. */
  ghost predicate Overflows(cap: nat, arrivals: seq<Arrival>, k: nat)
    requires k < |arrivals|
    decreases k, 2
  {
    WaitingAt(cap, arrivals, arrivals[k].height, k).None? && |WaitingAll(cap, arrivals, k)| >= cap
  }

  function SlotOf(t: Trace, h: nat): Option<nat> { if h in t.pending then Some(IdOf(t.pending[h])) else None }

  /** What one arrival does to the slot of a height. */
  lemma SlotAfter(cap: nat, arrivals: seq<Arrival>, n: nat, t: Trace, h: nat)
    requires n < |arrivals| && PendingRight(arrivals, n, t)
    ensures var a, slot := arrivals[n], SlotOf(Feed(t, cap, arrivals[n]), h);
            slot == if Full(t, cap, a) then None
                    else if a.height != h then SlotOf(t, h)
                    else if h in t.pending && arrivals[IdOf(t.pending[h])].isBlock != a.isBlock then None
                    else Some(n)
  {
    FeedKinds(cap, arrivals, n, t, arrivals[n]);
    if h in t.pending { assert WaitsAt(arrivals, n, t, h); }
  }

  function Image(s: set<nat>, f: nat -> nat): set<nat> { set x | x in s :: f(x) }

  lemma {:induction false} ImageSize(s: set<nat>, f: nat -> nat)
    requires forall x, y :: x in s && y in s && f(x) == f(y) ==> x == y
    ensures |Image(s, f)| == |s|
  {
    if s == {} {
      assert Image(s, f) == {};
    } else {
      var x :| x in s;
      ImageSize(s - {x}, f);
      assert Image(s, f) == Image(s - {x}, f) + {f(x)};
    }
  }

  /** As many positions wait as heights are pending. */
  lemma PendingCount(arrivals: seq<Arrival>, n: nat, t: Trace)
    requires PendingRight(arrivals, n, t)
    ensures |set i: nat | i < n && SlotOf(t, arrivals[i].height) == Some(i)| == |t.pending|
  {
    var f := (h: nat) => if h in t.pending then IdOf(t.pending[h]) else 0;
    var image := Image(t.pending.Keys, f);
    var ids := set i: nat | i < n && SlotOf(t, arrivals[i].height) == Some(i);
    forall h | h in t.pending ensures f(h) < n && arrivals[f(h)].height == h { assert WaitsAt(arrivals, n, t, h); }
    hide PendingRight;
    ImageSize(t.pending.Keys, f);
    forall i | i in ids ensures i in image { assert f(arrivals[i].height) == i; }
    assert ids == image;
  }

  /** The buffer is full exactly when the reference overflows. */
  lemma {:induction false} FullIsOverflow(cap: nat, arrivals: seq<Arrival>, k: nat)
    requires k < |arrivals|
    ensures Overflows(cap, arrivals, k) == Full(History(cap, arrivals, k), cap, arrivals[k])
    decreases k, 1
  {
    hide WaitingAt, History, PendingRight;
    var t := History(cap, arrivals, k);
    forall i: nat | i <= k
      ensures WaitingAt(cap, arrivals, arrivals[i].height, k) == SlotOf(t, arrivals[i].height)
    {
      RefinesOneSlotPerHeight(cap, arrivals, arrivals[i].height, k);
    }
    SlotIsEarlier(cap, arrivals, k, 0);
    PendingCount(arrivals, k, t);
    assert WaitingAll(cap, arrivals, k) == set i: nat | i < k && SlotOf(t, arrivals[i].height) == Some(i);
  }

  /**
   The shared buffer refines the reference: after any number of arrivals exactly the half the
   reference leaves waiting at a height is pending there.
   */
  lemma {:induction false} RefinesOneSlotPerHeight(cap: nat, arrivals: seq<Arrival>, h: nat, n: nat)
    requires n <= |arrivals|
    ensures WaitingAt(cap, arrivals, h, n) == SlotOf(History(cap, arrivals, n), h)
    decreases n, 0
  {
    hide Feed, Full, Overflows, PendingRight;
    if n == 0 {
    } else {
      RefinesOneSlotPerHeight(cap, arrivals, h, n - 1);
      var t := History(cap, arrivals, n - 1);
      SlotIsEarlier(cap, arrivals, n - 1, h);
      SlotAfter(cap, arrivals, n - 1, t, h);
      FullIsOverflow(cap, arrivals, n - 1);
    }
  }

  /** The half of the other kind that the reference has waiting for arrival `k`. */
  ghost function Partner(cap: nat, arrivals: seq<Arrival>, k: nat): Option<nat>
    requires k < |arrivals|
  {
    var w := WaitingAt(cap, arrivals, arrivals[k].height, k);
    if w.Some? && w.value < k && arrivals[w.value].isBlock != arrivals[k].isBlock then w else None
  }

  /** And it writes what the reference writes: one record per arrival that meets its other half and is stored. */
  lemma WritesWhatTheReferenceWrites(cap: nat, arrivals: seq<Arrival>, k: nat)
    requires k < |arrivals|
    ensures var a, partner := arrivals[k], Partner(cap, arrivals, k);
            History(cap, arrivals, k + 1).records == History(cap, arrivals, k).records +
              if partner.None? || !a.putOk then []
              else if a.isBlock then [Record(a.height, k, partner.value)]
              else [Record(a.height, partner.value, k)]
  {
    hide Feed, PendingRight, WaitingAt;
    var t := History(cap, arrivals, k);
    RefinesOneSlotPerHeight(cap, arrivals, arrivals[k].height, k);
    SlotIsEarlier(cap, arrivals, k, arrivals[k].height);
    SlotKind(cap, arrivals, k, arrivals[k].height);
    FeedKinds(cap, arrivals, k, t, arrivals[k]);
  }

  lemma SlotKind(cap: nat, arrivals: seq<Arrival>, n: nat, h: nat)
    requires n <= |arrivals| && PendingRight(arrivals, n, History(cap, arrivals, n))
    ensures var t := History(cap, arrivals, n);
            && |t.fates| == n
            && (h in t.pending ==>
                  var id := IdOf(t.pending[h]); id < n && arrivals[id].isBlock == t.pending[h].BlockHalf?)
  {
    var t := History(cap, arrivals, n);
    if h in t.pending { assert WaitsAt(arrivals, n, t, h); }
  }

  lemma SlotIsEarlier(cap: nat, arrivals: seq<Arrival>, n: nat, h: nat)
    requires n <= |arrivals|
    ensures var t := History(cap, arrivals, n);
            PendingRight(arrivals, n, t) && (h in t.pending ==> IdOf(t.pending[h]) < n)
  {
    HistoryInv(cap, arrivals, n);
    var t := History(cap, arrivals, n);
    if h in t.pending { assert WaitsAt(arrivals, n, t, h); }
  }
}
