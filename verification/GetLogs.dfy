/**
 `eth_getLogs` over the stored records: a range read in chunks, filtered on the way, and
 answered only when every height of the range has its logs element.
 */
module GetLogs {
  import opened Logs
  import opened Seqs
  import opened U64
  import opened Wrappers
  import opened BlockDb
  import Codec
  import opened Storage

  const MAX_GETLOGS_RANGE: nat := 2048
  const GETLOGS_READ_CHUNK: nat := 256
  const C_LOGS: nat := 1

  /** An element as JSON: a logs array, some other value, or bytes that do not parse. */
  datatype Elem = LogArray(items: seq<Log>) | OtherJson(text: string) | NotJson

  type Cell = Stored<Elem>

  // ------------------------------------------------------------- the filter

  datatype OneOrMany = One(s: string) | Many(v: seq<string>)

  predicate EqIgnoreCase(a: string, b: string) {
    |a| == |b| && forall i :: 0 <= i < |a| ==> Codec.Lower(a[i]) == Codec.Lower(b[i])
  }

  predicate Matches(f: OneOrMany, candidate: string) {
    match f
    case One(s) => EqIgnoreCase(s, candidate)
    case Many(v) => exists i :: 0 <= i < |v| && EqIgnoreCase(v[i], candidate)
  }

  function LowerSet(f: OneOrMany): set<string> {
    match f
    case One(s) => {Codec.LowerAll(s)}
    case Many(v) => set s | s in v :: Codec.LowerAll(s)
  }

  /** A constraint is a set of strings in which case does not matter. */
  lemma MatchesIff(f: OneOrMany, candidate: string)
    ensures Matches(f, candidate) <==> Codec.LowerAll(candidate) in LowerSet(f)
  {
    forall s: string ensures EqIgnoreCase(s, candidate) <==> Codec.LowerAll(s) == Codec.LowerAll(candidate) {
      SameLower(s, candidate);
    }
    if f.Many? && Matches(f, candidate) {
      var i :| 0 <= i < |f.v| && EqIgnoreCase(f.v[i], candidate);
      assert f.v[i] in f.v;
    }
  }

  lemma SameLower(a: string, b: string)
    ensures EqIgnoreCase(a, b) <==> Codec.LowerAll(a) == Codec.LowerAll(b)
  {
    var x, y := Codec.LowerAll(a), Codec.LowerAll(b);
    if x == y {
      forall i | 0 <= i < |a| ensures Codec.Lower(a[i]) == Codec.Lower(b[i]) { assert x[i] == y[i]; }
    }
    if EqIgnoreCase(a, b) {
      forall i | 0 <= i < |a| ensures x[i] == y[i] {}
    }
  }

  datatype Filter = Filter(address: Option<OneOrMany>, topics: Option<seq<Option<OneOrMany>>>)

  predicate SlotAccepts(slot: Option<OneOrMany>, topics: seq<Option<string>>, i: nat) {
    slot.Some? ==> i < |topics| && topics[i].Some? && Matches(slot.value, topics[i].value)
  }

  /** A constraint that is absent matches anything; a missing topic fails a given position. */
  predicate Accepts(log: Log, f: Filter) {
    && (f.address.Some? ==> Matches(f.address.value, if log.address.Some? then log.address.value else ""))
    && (f.topics.Some? ==> forall i :: 0 <= i < |f.topics.value| ==>
          SlotAccepts(f.topics.value[i], if log.topics.Some? then log.topics.value else [], i))
  }

  /** Does the filter allow this value in a field it constrains? A field that is absent satisfies no constraint. */
  predicate Allows(constraint: Option<OneOrMany>, field: Option<string>) {
    constraint.Some? ==> field.Some? && Codec.LowerAll(field.value) in LowerSet(constraint.value)
  }

  /**
   A log passes exactly when its address and each topic the filter names are among the given
   values, whatever their case; a log without an address counts as having an empty one.
   */
  lemma AcceptsIff(log: Log, f: Filter)
    ensures Accepts(log, f) <==>
            && Allows(f.address, Some(if log.address.Some? then log.address.value else ""))
            && forall i :: 0 <= i < (if f.topics.Some? then |f.topics.value| else 0) ==>
                 Allows(f.topics.value[i],
                        if log.topics.Some? && i < |log.topics.value| then log.topics.value[i] else None)
  {
    forall c: OneOrMany, s: string ensures Matches(c, s) <==> Codec.LowerAll(s) in LowerSet(c) { MatchesIff(c, s); }
    hide Matches, LowerSet;
    var topics := if log.topics.Some? then log.topics.value else [];
    forall i: nat | f.topics.Some? && i < |f.topics.value|
      ensures SlotAccepts(f.topics.value[i], topics, i) <==>
              Allows(f.topics.value[i], if i < |topics| then topics[i] else None)
    {
    }
  }

  /** `log_matches` */
  method LogMatches(log: Log, f: Filter) returns (r: bool)
    ensures r == Accepts(log, f)
  {
    if f.address.Some? {
      var address := if log.address.Some? then log.address.value else "";
      if !Matches(f.address.value, address) {
        return false;
      }
    }
    if f.topics.Some? {
      var topics := if log.topics.Some? then log.topics.value else [];
      for i := 0 to |f.topics.value|
        invariant forall j :: 0 <= j < i ==> SlotAccepts(f.topics.value[j], topics, j)
      {
        var slot := f.topics.value[i];
        if slot.Some? {
          if i >= |topics| || topics[i].None? || !Matches(slot.value, topics[i].value) {
            return false;
          }
        }
      }
    }
    return true;
  }

  // ---------------------------------------------------------- the reference

  function Keep(f: Filter): Log -> bool { (log: Log) => Accepts(log, f) }

  /** One filter pass over a list of logs: what it keeps of the first `n`. */
  function SelectFirst(logs: seq<Log>, n: nat, keep: Log -> bool): seq<Log>
    requires n <= |logs|
  {
    if n == 0 then []
    else SelectFirst(logs, n - 1, keep) + (if keep(logs[n - 1]) then [logs[n - 1]] else [])
  }

  function Select(logs: seq<Log>, keep: Log -> bool): seq<Log> { SelectFirst(logs, |logs|, keep) }

  /** The logs element of a height, when there is one that parses. */
  function LogsElem(db: Db<Cell>, h: nat): Option<Elem> {
    if !Has(db, h) then None
    else
      match Element(db.blocks[h], C_LOGS)
      case Ok(Some(e)) => if e.NotJson? then None else Some(e)
      case _ => None
  }

  /** Is a record with a second element that parses stored at the height? */
  predicate CarriesLogs(db: Db<Cell>, h: nat) {
    && Has(db, h) && db.blocks[h].Combined? && |db.blocks[h].elements| >= 2
    && !db.blocks[h].elements[1].NotJson?
  }

  /** Only such records have logs to serve; the older layout, which never had any, is a miss. */
  lemma LogsElemIff(db: Db<Cell>, h: nat)
    ensures LogsElem(db, h).Some? <==> CarriesLogs(db, h)
    ensures LogsElem(db, h).Some? ==> LogsElem(db, h).value == db.blocks[h].elements[1]
  {
  }

  function Items(e: Option<Elem>): seq<Log> { if e.Some? && e.value.LogArray? then e.value.items else [] }

  function LogsOf(db: Db<Cell>): nat -> Option<Elem> { (h: nat) => LogsElem(db, h) }

  /** All logs of [from..=last], height by height. */
  function AllLogs(logs: nat -> Option<Elem>, from: nat, last: int): seq<Log>
    decreases last + 1 - from
  {
    if from > last then [] else AllLogs(logs, from, last - 1) + Items(logs(last))
  }

  /** Every height of the range has a logs element. */
  ghost predicate Complete(logs: nat -> Option<Elem>, from: nat, last: int) {
    forall h: nat :: from <= h <= last ==> logs(h).Some?
  }

  lemma {:induction false} SelectFirstOf(a: seq<Log>, b: seq<Log>, n: nat, keep: Log -> bool)
    requires n <= |a|
    ensures SelectFirst(a + b, n, keep) == SelectFirst(a, n, keep)
  {
    if n == 0 {
    } else {
      SelectFirstOf(a, b, n - 1, keep);
    }
  }

  lemma {:induction false} SelectRest(a: seq<Log>, b: seq<Log>, n: nat, keep: Log -> bool)
    requires n <= |b|
    ensures SelectFirst(a + b, |a| + n, keep) == Select(a, keep) + SelectFirst(b, n, keep)
  {
    if n == 0 {
      SelectFirstOf(a, b, |a|, keep);
    } else {
      SelectRest(a, b, n - 1, keep);
      assert (a + b)[|a| + n - 1] == b[n - 1];
    }
  }

  lemma SelectAppend(a: seq<Log>, b: seq<Log>, keep: Log -> bool)
    ensures Select(a + b, keep) == Select(a, keep) + Select(b, keep)
  {
    SelectRest(a, b, |b|, keep);
  }

  // ------------------------------------------------------------- the reading

  /** Does the record at `h` exist, decode, and have element `idx`? */
  predicate Present(db: Db<Cell>, h: nat, idx: nat) {
    Has(db, h) && Element(db.blocks[h], idx).Ok? && Element(db.blocks[h], idx).value.Some?
  }

  /** Is the height, or the element in its record, missing? */
  predicate Lacks(db: Db<Cell>, h: nat, idx: nat) { !Has(db, h) || Element(db.blocks[h], idx) == Ok(None) }

  /** Is there something at the height that does not decode? */
  predicate Broken(db: Db<Cell>, h: nat, idx: nat) {
    Has(db, h) && (Element(db.blocks[h], idx).Err? || Element(db.blocks[h], idx) == Ok(Some(NotJson)))
  }

  function ElemAt(db: Db<Cell>, h: nat, idx: nat): Elem
    requires Present(db, h, idx)
  {
    Element(db.blocks[h], idx).value.value
  }

  /**
   `read_element_range`: every height's element in order, `Ok(None)` at the first height
   that has none, an error at the first that does not decode.
   */
  method ReadElementRange(db: Db<Cell>, from: nat, last: nat, idx: nat) returns (r: Result<Option<seq<Elem>>>)
    requires from <= last
    ensures r.Ok? && r.value.Some? <==> forall h :: from <= h <= last ==> Present(db, h, idx)
    ensures r.Ok? && r.value.Some? ==>
              && |r.value.value| == last + 1 - from
              && forall h :: from <= h <= last ==> ElemAt(db, h, idx) == r.value.value[h - from]
    ensures r.Err? ==> exists h :: from <= h <= last && Has(db, h) && Element(db.blocks[h], idx).Err?
    ensures r == Ok(None) ==> exists h :: from <= h <= last && Lacks(db, h, idx)
  {
    if db.Closed? {
      assert !Present(db, from, idx) && Lacks(db, from, idx);
      return Ok(None);
    }
    var out: seq<Elem> := [];
    for height := from to last + 1
      invariant |out| == height - from
      invariant forall h :: from <= h < height ==> Present(db, h, idx) && ElemAt(db, h, idx) == out[h - from]
    {
      if height !in db.blocks {
        assert !Present(db, height, idx) && Lacks(db, height, idx);
        return Ok(None);
      }
      var part := Element(db.blocks[height], idx);
      if part.Err? {
        assert Has(db, height) && !Present(db, height, idx);
        return Err;
      }
      if part.value.None? {
        assert !Present(db, height, idx) && Lacks(db, height, idx);
        return Ok(None);
      }
      out := out + [part.value.value];
    }
    return Ok(Some(out));
  }

  datatype Reply = Error | Miss | Answer(logs: seq<Log>)

  method FilterItems(items: seq<Log>, f: Filter, before: seq<Log>) returns (out: seq<Log>)
    ensures out == before + Select(items, Keep(f))
  {
    out := before;
    for j := 0 to |items|
      invariant out == before + SelectFirst(items, j, Keep(f))
    {
      var keep := LogMatches(items[j], f);
      if keep {
        out := out + [items[j]];
      }
    }
  }

  /** The selected logs of the first `n` elements. */
  function Picked(elems: seq<Elem>, n: nat, keep: Log -> bool): seq<Log>
    requires n <= |elems|
  {
    if n == 0 then [] else Picked(elems, n - 1, keep) + Select(Items(Some(elems[n - 1])), keep)
  }

  /** Filter one chunk's elements into the answer so far; false when one does not parse. */
  method FilterChunk(elems: seq<Elem>, f: Filter, before: seq<Log>) returns (ok: bool, out: seq<Log>)
    ensures ok <==> forall i :: 0 <= i < |elems| ==> !elems[i].NotJson?
    ensures ok ==> out == before + Picked(elems, |elems|, Keep(f))
  {
    hide Select, SelectFirst, Keep, Items;
    out := before;
    for i := 0 to |elems|
      invariant forall j :: 0 <= j < i ==> !elems[j].NotJson?
      invariant out == before + Picked(elems, i, Keep(f))
    {
      if elems[i].NotJson? {
        return false, out;
      }
      ghost var sofar, more := Picked(elems, i, Keep(f)), Select(Items(Some(elems[i])), Keep(f));
      out := FilterItems(Items(Some(elems[i])), f, out);
      assert (before + sofar) + more == before + (sofar + more);
    }
    ok := true;
  }

  lemma {:induction false} ChunkIsRange(
      logs: nat -> Option<Elem>, start: nat, elems: seq<Elem>, n: nat, keep: Log -> bool)
    requires n <= |elems| && forall i :: 0 <= i < |elems| ==> logs(start + i) == Some(elems[i])
    ensures Select(AllLogs(logs, start, start + n - 1), keep) == Picked(elems, n, keep)
  {
    hide Select, Items, AllLogs;
    if n == 0 {
      NoLogs(logs, start, keep);
    } else {
      ChunkIsRange(logs, start, elems, n - 1, keep);
      assert logs(start + (n - 1)) == Some(elems[n - 1]);
      OneMoreHeight(logs, start, start + n - 1, keep);
    }
  }

  lemma NoLogs(logs: nat -> Option<Elem>, start: nat, keep: Log -> bool)
    ensures Select(AllLogs(logs, start, start - 1), keep) == []
  {
  }

  lemma OneMoreHeight(logs: nat -> Option<Elem>, start: nat, last: nat, keep: Log -> bool)
    requires start <= last
    ensures Select(AllLogs(logs, start, last), keep)
         == Select(AllLogs(logs, start, last - 1), keep) + Select(Items(logs(last)), keep)
  {
    hide Select, Items;
    SelectAppend(AllLogs(logs, start, last - 1), Items(logs(last)), keep);
  }

  lemma {:induction false} AllLogsSplit(logs: nat -> Option<Elem>, from: nat, mid: nat, last: int)
    requires from <= mid <= last + 1
    ensures AllLogs(logs, from, last) == AllLogs(logs, from, mid - 1) + AllLogs(logs, mid, last)
    decreases last + 1 - mid
  {
    hide Items;
    if mid > last {
    } else {
      AllLogsSplit(logs, from, mid, last - 1);
      Assoc(AllLogs(logs, from, mid - 1), AllLogs(logs, mid, last - 1), Items(logs(last)));
    }
  }

  /** One more chunk of the scan, in the terms of the whole range. */
  lemma ChunkExtends(logs: nat -> Option<Elem>, from: nat, mid: nat, end: nat, last: nat, keep: Log -> bool)
    requires from <= mid <= end <= last && Complete(logs, from, mid - 1)
    ensures Complete(logs, mid, end) <==> Complete(logs, from, end)
    ensures !Complete(logs, mid, end) ==> !Complete(logs, from, last)
    ensures Select(AllLogs(logs, from, end), keep)
         == Select(AllLogs(logs, from, mid - 1), keep) + Select(AllLogs(logs, mid, end), keep)
  {
    AllLogsSplit(logs, from, mid, end);
    SelectAppend(AllLogs(logs, from, mid - 1), AllLogs(logs, mid, end), keep);
    if !Complete(logs, mid, end) {
      var h: nat :| mid <= h <= end && logs(h).None?;
      assert from <= h <= last && logs(h).None?;
    }
  }

  function ChunkEnd(start: nat, last: nat): (end: nat)
    requires start <= last < U64_MAX
    ensures start <= end <= last && end < start + GETLOGS_READ_CHUNK
    ensures end < last ==> end + 1 == start + GETLOGS_READ_CHUNK
  {
    Min(SaturatingSub(SaturatingAdd(start, GETLOGS_READ_CHUNK), 1), last)
  }

  lemma ChunkIsComplete(db: Db<Cell>, start: nat, elems: seq<Elem>)
    requires forall h :: start <= h < start + |elems| ==>
               Present(db, h, C_LOGS) && ElemAt(db, h, C_LOGS) == elems[h - start]
    requires forall i :: 0 <= i < |elems| ==> !elems[i].NotJson?
    ensures forall i :: 0 <= i < |elems| ==> LogsOf(db)(start + i) == Some(elems[i])
    ensures Complete(LogsOf(db), start, start + |elems| - 1)
  {
    forall i | 0 <= i < |elems| ensures LogsOf(db)(start + i) == Some(elems[i]) {
      var h := start + i;
      assert ElemAt(db, h, C_LOGS) == elems[h - start];
      assert !elems[i].NotJson?;
    }
    forall h: nat | start <= h < start + |elems| ensures LogsOf(db)(h).Some? {
      assert LogsOf(db)(start + (h - start)) == Some(elems[h - start]);
    }
  }

  lemma MissingLogs(db: Db<Cell>, h: nat)
    requires Present(db, h, C_LOGS) ==> ElemAt(db, h, C_LOGS).NotJson?
    ensures LogsOf(db)(h).None?
  {
  }

  /** One chunk: read its elements, then filter them onto the answer so far. */
  method ScanChunk(db: Db<Cell>, start: nat, end: nat, f: Filter, before: seq<Log>) returns (r: Reply)
    requires start <= end
    ensures r.Answer? <==> Complete(LogsOf(db), start, end)
    ensures r.Answer? ==> r.logs == before + Select(AllLogs(LogsOf(db), start, end), Keep(f))
    ensures r.Miss? ==> exists h :: start <= h <= end && Lacks(db, h, C_LOGS)
    ensures r.Error? ==> exists h :: start <= h <= end && Broken(db, h, C_LOGS)
  {
    var part := ReadElementRange(db, start, end, C_LOGS);
    if part.Err? {
      ghost var h :| start <= h <= end && Has(db, h) && Element(db.blocks[h], C_LOGS).Err?;
      MissingLogs(db, h);
      assert Broken(db, h, C_LOGS);
      return Error;
    }
    if part.value.None? {
      ghost var h :| start <= h <= end && Lacks(db, h, C_LOGS);
      MissingLogs(db, h);
      return Miss;
    }
    var elems := part.value.value;
    var ok, out := FilterChunk(elems, f, before);
    if !ok {
      ghost var i :| 0 <= i < |elems| && elems[i].NotJson?;
      ghost var h := start + i;
      assert Present(db, h, C_LOGS) && ElemAt(db, h, C_LOGS) == elems[h - start];
      MissingLogs(db, h);
      assert Broken(db, h, C_LOGS);
      return Error;
    }
    hide LogsOf, Keep, Select, AllLogs, Picked;
    ChunkIsComplete(db, start, elems);
    ChunkIsRange(LogsOf(db), start, elems, |elems|, Keep(f));
    return Answer(out);
  }

  /** The first height of the chunk that reads `h`. */
  function ChunkStart(from: nat, h: nat): nat
    requires from <= h
  {
    from + (h - from) / 256 * 256
  }

  /**
   The logs element each height shows at the moment it is read. The store moves between
   chunks: `view(c)` is the store while the chunk starting at `c` is read under its lock.
   */
  function Seen(view: nat -> Db<Cell>, from: nat): nat -> Option<Elem> {
    (h: nat) => if h < from then None else LogsElem(view(ChunkStart(from, h)), h)
  }

  /** Is `mid` the start of a chunk of the scan from `from`? */
  predicate Aligned(from: nat, mid: nat) { from <= mid && (mid - from) % GETLOGS_READ_CHUNK == 0 }

  lemma ChunkOf(from: nat, mid: nat, h: nat)
    requires Aligned(from, mid) && mid <= h < mid + GETLOGS_READ_CHUNK
    ensures ChunkStart(from, h) == mid
  {
  }

  lemma {:induction false} SameLogs(a: nat -> Option<Elem>, b: nat -> Option<Elem>, from: nat, last: int)
    requires forall h: nat :: from <= h <= last ==> a(h) == b(h)
    ensures Complete(a, from, last) == Complete(b, from, last) && AllLogs(a, from, last) == AllLogs(b, from, last)
    decreases last + 1 - from
  {
    if from > last {
    } else {
      SameLogs(a, b, from, last - 1);
    }
  }

  /** One more chunk of the scan, in the terms of the whole range. */
  lemma ChunkSeen(view: nat -> Db<Cell>, from: nat, mid: nat, end: nat, last: nat, keep: Log -> bool)
    requires Aligned(from, mid) && mid <= end <= last && end < mid + GETLOGS_READ_CHUNK
    requires Complete(Seen(view, from), from, mid - 1)
    ensures Complete(LogsOf(view(mid)), mid, end) <==> Complete(Seen(view, from), from, end)
    ensures !Complete(LogsOf(view(mid)), mid, end) ==> !Complete(Seen(view, from), from, last)
    ensures Select(AllLogs(Seen(view, from), from, end), keep)
         == Select(AllLogs(Seen(view, from), from, mid - 1), keep) + Select(AllLogs(LogsOf(view(mid)), mid, end), keep)
  {
    forall h: nat | mid <= h <= end ensures LogsOf(view(mid))(h) == Seen(view, from)(h) { ChunkOf(from, mid, h); }
    SameLogs(LogsOf(view(mid)), Seen(view, from), mid, end);
    hide Select, AllLogs, Complete;
    ChunkExtends(Seen(view, from), from, mid, end, last, keep);
  }

  /** The chunked scan of [from..=last] over a store that moves between the chunks. */
  method ScanRange(view: nat -> Db<Cell>, from: nat, last: nat, f: Filter) returns (r: Reply)
    requires from <= last < U64_MAX
    ensures r.Answer? <==> Complete(Seen(view, from), from, last)
    ensures r.Answer? ==> r.logs == Select(AllLogs(Seen(view, from), from, last), Keep(f))
    ensures r.Miss? ==> exists h: nat :: from <= h <= last && Lacks(view(ChunkStart(from, h)), h, C_LOGS)
    ensures r.Error? ==> exists h: nat :: from <= h <= last && Broken(view(ChunkStart(from, h)), h, C_LOGS)
  {
    var out: seq<Log> := [];
    var chunkStart := from;
    StartOfScan(view, from, Keep(f));
    hide Select, AllLogs, Complete, Seen, LogsOf, Keep;
    while chunkStart <= last
      invariant from <= chunkStart <= last + 1 && (chunkStart <= last ==> Aligned(from, chunkStart))
      invariant Complete(Seen(view, from), from, chunkStart - 1)
      invariant out == Select(AllLogs(Seen(view, from), from, chunkStart - 1), Keep(f))
      decreases last + 1 - chunkStart
    {
      var chunkEnd := ChunkEnd(chunkStart, last);
      ChunkSeen(view, from, chunkStart, chunkEnd, last, Keep(f));
      r := ScanChunk(view(chunkStart), chunkStart, chunkEnd, f, out);
      if r.Miss? {
        ghost var h: nat :| chunkStart <= h <= chunkEnd && Lacks(view(chunkStart), h, C_LOGS);
        ChunkOf(from, chunkStart, h);
        return;
      }
      if r.Error? {
        ghost var h: nat :| chunkStart <= h <= chunkEnd && Broken(view(chunkStart), h, C_LOGS);
        ChunkOf(from, chunkStart, h);
        return;
      }
      out := r.logs;
      chunkStart := SaturatingAdd(chunkEnd, 1);
    }
    return Answer(out);
  }

  lemma StartOfScan(view: nat -> Db<Cell>, from: nat, keep: Log -> bool)
    ensures Complete(Seen(view, from), from, from - 1) && Select(AllLogs(Seen(view, from), from, from - 1), keep) == []
  {
    NoLogs(Seen(view, from), from, keep);
  }

  /** The scan is answered exactly when every height carries logs at the moment it is read. */
  lemma CompleteIff(view: nat -> Db<Cell>, from: nat, last: nat)
    ensures Complete(Seen(view, from), from, last) <==>
            forall h: nat :: from <= h <= last ==> CarriesLogs(view(ChunkStart(from, h)), h)
  {
    forall h: nat | from <= h <= last
      ensures Seen(view, from)(h).Some? <==> CarriesLogs(view(ChunkStart(from, h)), h)
    {
      LogsElemIff(view(ChunkStart(from, h)), h);
    }
  }

  /** A range of one height holds that height's logs alone. */
  lemma OneBlock(view: nat -> Db<Cell>, h: nat)
    ensures ChunkStart(h, h) == h
    ensures CarriesLogs(view(h), h) ==> AllLogs(Seen(view, h), h, h) == Items(Some(view(h).blocks[h].elements[1]))
  {
    LogsElemIff(view(h), h);
    assert AllLogs(Seen(view, h), h, h - 1) == [];
  }

  predicate SameCell(db: Db<Cell>, later: Db<Cell>, h: nat) {
    Has(db, h) && Has(later, h) && later.blocks[h] == db.blocks[h]
  }

  /** Records that are there and final when the scan starts are what it sees, however the store grows meanwhile. */
  lemma GrowthIsInvisible(db: Db<Cell>, view: nat -> Db<Cell>, from: nat, last: nat)
    requires forall c: nat, h: nat :: from <= h <= last ==> SameCell(db, view(c), h)
    ensures Complete(Seen(view, from), from, last) == Complete(LogsOf(db), from, last)
    ensures AllLogs(Seen(view, from), from, last) == AllLogs(LogsOf(db), from, last)
  {
    forall h: nat | from <= h <= last ensures Seen(view, from)(h) == LogsOf(db)(h) {
      assert SameCell(db, view(ChunkStart(from, h)), h);
    }
    SameLogs(Seen(view, from), LogsOf(db), from, last);
  }

  // --------------------------------------------------------------- the method

  datatype Tag = Latest | Unsupported | Number(n: nat) | BadNumber

  /** A block named by hash (its indexed height, if any, or a malformed hash), or a range of tags. */
  datatype Selector = ByHash(parsed: Result<Option<nat>>) | ByRange(fromTag: Tag, toTag: Tag)

  function Resolve(tag: Tag, highWater: nat): Result<nat> {
    match tag
    case Latest => if highWater == 0 then Err else Ok(highWater)
    case Number(n) => Ok(n)
    case _ => Err
  }

  /** Does the tag mean this height? `latest` is the highest one stored, if any. */
  predicate Denotes(tag: Tag, highWater: nat, h: nat) { tag == Number(h) || (tag == Latest && h == highWater > 0) }

  /** The range a request names, or the reply it gets before any record is read. */
  datatype Scope = Heights(from: nat, last: nat) | Early(reply: Reply)

  function ScopeOf(db: Db<Cell>, highWater: nat, sel: Selector): Scope {
    match sel
    case ByHash(Err) => Early(Error)
    case ByHash(Ok(None)) => Early(Miss)
    case ByHash(Ok(Some(h))) => Heights(h, h)
    case ByRange(a, b) =>
      match (Resolve(a, highWater), Resolve(b, highWater))
      case (Ok(from), Ok(last)) =>
        if from > last then Early(Error)
        else if SaturatingAdd(last - from, 1) > MAX_GETLOGS_RANGE then Early(Error)
        else
          var min, contiguous := if db.Open? then db.min else 0, Contiguous(db);
          if from < min || last > contiguous then Early(Miss) else Heights(from, last)
      case _ => Early(Error)
  }

  /**
   The checks in front of a range read admit it exactly when both tags resolve to an ordered
   range of at most 2048 heights above the floor and below the frontier. Then every height of
   it is stored, except that a store not yet created lets height 0 alone pass.
   */
  lemma AdmittedRangeIsStored(db: Db<Cell>, highWater: nat, a: Tag, b: Tag, from: nat, last: nat)
    requires last <= U64_MAX
    ensures ScopeOf(db, highWater, ByRange(a, b)) == Heights(from, last) <==>
            && Denotes(a, highWater, from) && Denotes(b, highWater, last)
            && from <= last < from + 2048
            && (if db.Open? then db.min <= from && Covered(db, db.min, last) else last == 0)
  {
    if db.Open? && last >= db.min { FrontierIff(db, last); }
  }

  /**
   What is refused and how: an error for tags that mean no height, a reversed range or one of
   more than 2048 heights, a miss for a proper range the store does not cover.
   */
  lemma EarlyReplies(db: Db<Cell>, highWater: nat, a: Tag, b: Tag)
    requires (a.Number? ==> a.n <= U64_MAX) && (b.Number? ==> b.n <= U64_MAX) && highWater <= U64_MAX
    ensures var scope, proper := ScopeOf(db, highWater, ByRange(a, b)), ProperRange(highWater, a, b);
            && (scope == Early(Error) <==> !proper)
            && (proper && !scope.Heights? ==> scope == Early(Miss))
  {
    if Resolve(a, highWater).Ok? && Resolve(b, highWater).Ok? {
      var from, last := Resolve(a, highWater).value, Resolve(b, highWater).value;
      assert Denotes(a, highWater, from) && Denotes(b, highWater, last);
    }
  }

  lemma ScopeBelowMax(db: Db<Cell>, highWater: nat, sel: Selector)
    requires db.Open? ==> forall h :: h in db.blocks ==> h < U64_MAX
    requires sel.ByHash? && sel.parsed.Ok? && sel.parsed.value.Some? ==> sel.parsed.value.value < U64_MAX
    ensures var scope := ScopeOf(db, highWater, sel); scope.Heights? ==> scope.from <= scope.last < U64_MAX
  {
    if db.Open? && Contiguous(db) >= db.min { assert Contiguous(db) in db.blocks; }
  }

  ghost predicate ProperRange(highWater: nat, a: Tag, b: Tag) {
    exists from: nat, last: nat ::
      Denotes(a, highWater, from) && Denotes(b, highWater, last) && from <= last < from + 2048
  }

  /**
   `eth_getLogs`: for a request that passes the span, floor and frontier checks the answer
   is one filter pass over the range's logs, given exactly when every height has a logs
   element when it is read; it is never partial, though the store moves between the checks
   on `db` and the chunks. Without log ingestion nothing is answered.
   */
  method EthGetLogs(db: Db<Cell>, view: nat -> Db<Cell>, ingestsLogs: bool, highWater: nat, sel: Selector, f: Filter)
    returns (r: Reply)
    requires db.Open? ==> forall h :: h in db.blocks ==> h < U64_MAX
    requires sel.ByHash? && sel.parsed.Ok? && sel.parsed.value.Some? ==> sel.parsed.value.value < U64_MAX
    ensures !ingestsLogs ==> r == Miss
    ensures ingestsLogs ==>
              match ScopeOf(db, highWater, sel)
              case Early(reply) => r == reply
              case Heights(from, last) =>
                && (r.Answer? <==> Complete(Seen(view, from), from, last))
                && (r.Answer? <==> forall h: nat :: from <= h <= last ==> CarriesLogs(view(ChunkStart(from, h)), h))
                && (r.Answer? ==> r.logs == Select(AllLogs(Seen(view, from), from, last), Keep(f)))
                && (r.Miss? ==> exists h: nat :: from <= h <= last && Lacks(view(ChunkStart(from, h)), h, C_LOGS))
                && (r.Error? ==> exists h: nat :: from <= h <= last && Broken(view(ChunkStart(from, h)), h, C_LOGS))
    ensures ingestsLogs && sel.ByHash? && sel.parsed.Err? ==> r == Error
    ensures ingestsLogs && sel.ByHash? && sel.parsed.Ok? && sel.parsed.value.None? ==> r == Miss
    ensures ingestsLogs && sel.ByHash? && sel.parsed.Ok? && sel.parsed.value.Some? ==>
              var h := sel.parsed.value.value;
              && (r.Answer? <==> CarriesLogs(view(h), h))
              && (r.Answer? ==> r.logs == Select(Items(Some(view(h).blocks[h].elements[1])), Keep(f)))
  {
    hide Complete, Seen, Select, AllLogs, Keep, Lacks, Broken, CarriesLogs, Contiguous;
    if !ingestsLogs {
      return Miss;
    }
    ScopeBelowMax(db, highWater, sel);
    match ScopeOf(db, highWater, sel) {
      case Early(reply) => return reply;
      case Heights(from, last) =>
        r := ScanRange(view, from, last, f);
        CompleteIff(view, from, last);
        if sel.ByHash? { OneBlock(view, from); }
    }
  }
}
