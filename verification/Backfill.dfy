/**
 The C-chain backfill: bounded runs from the contiguous frontier, with fetches ahead of
 the write cursor, while newHeads and the join buffer write the same store.
 */
module Backfill {
  import opened U64
  import opened Wrappers
  import opened BlockDb
  import opened Logs

  const LOGS_WINDOW: nat := 2048

  /**
   Who wrote a record: the live path, which fetched the height's logs or stored none, or
   backfill in a process that ingested logs or not, from receipts or from a range window.
   */
  datatype Source = Live(logs: bool) | Filled(ingestLogs: bool, receipts: bool)

  /** A stored C-chain record `[block, logs]`, and who wrote it; the last is not on disk. */
  datatype Rec = Rec(body: string, logs: seq<Log>, source: Source)

  /** Is log ingestion on, and do logs come from receipts rather than a range window? */
  datatype Cfg = Cfg(ingestLogs: bool, receipts: bool, floor: Option<nat>)

  /** `Skip`: the slot was already filled when it was looked at. */
  datatype Fetched = Skip | Got(body: string, logs: Option<seq<Log>>)

  /**
   The run [from..=last]; `ahead[i]` is the fetched outcome of height `next + i`, and `raw`
   the frontier the pass read, `None` if the store did not exist yet.
   */
  datatype Run = Run(from: nat, last: nat, next: nat, ahead: seq<Fetched>, raw: Option<int>)

  /** The store, the logs window carried across runs, and the run in progress. */
  datatype State = State(db: Db<Rec>, window: map<nat, seq<Log>>, run: Option<Run>)

  /**
   `HeadWrite` is newHeads or a completed join. `Start` is a pass that found work against
   `target`; `window` is the freshly loaded one, `None` when its request failed. `Fetch`
   completes the next fetch in order, `Consume` takes the oldest outcome and stores it,
   `Finish` ends an exhausted run with success and `Fail` any run without.
   */
  datatype Event =
    | HeadWrite(h: nat, rec: Rec)
    | Start(target: nat, window: Option<map<nat, seq<Log>>>)
    | Fetch(got: Fetched)
    | Consume(put: PutOutcome)
    | Finish
    | Fail

  /** `contiguous` as the pass computes it: the frontier, but never below `floor - 1`. */
  function Effective(db: Db<Rec>, floor: Option<nat>): nat {
    Max(Contiguous(db), SaturatingSub(if floor.Some? then floor.value else 0, 1))
  }

  predicate Windowed(cfg: Cfg) { cfg.ingestLogs && !cfg.receipts }

  function RunOf(db: Db<Rec>, floor: Option<nat>, target: nat): Run {
    var next := SaturatingAdd(Effective(db, floor), 1);
    var last := Min(target, SaturatingAdd(next, LOGS_WINDOW - 1));
    Run(next, last, next, [], if db.Open? then Some(Contiguous(db)) else None)
  }

  /** The logs half stored for a fetched block. */
  function LogsHalf(cfg: Cfg, window: map<nat, seq<Log>>, h: nat, got: Fetched): seq<Log>
    requires got.Got?
  {
    if !cfg.ingestLogs then [] else if got.logs.Some? then got.logs.value else Serialized(window, h)
  }

  function Step(cfg: Cfg, s: State, e: Event): State {
    if !ValidDb(s.db) then s
    else
      match e
      case HeadWrite(h, rec) =>
        if Writable(s.db, h) then s.(db := WriteBlock(s.db, cfg.floor, h, rec)) else s
      case Start(target, window) =>
        if s.run.Some? || Effective(s.db, cfg.floor) >= target then s
        else if s.db.Closed? && cfg.floor.None? then s
        else if !Windowed(cfg) then s.(run := Some(RunOf(s.db, cfg.floor, target)))
        else if window.None? then s
        else s.(window := window.value, run := Some(RunOf(s.db, cfg.floor, target)))
      case Fetch(got) =>
        if s.run.None? || s.run.value.next + |s.run.value.ahead| > s.run.value.last then s
        else if got.Skip? && !Has(s.db, s.run.value.next + |s.run.value.ahead|) then s
        else s.(run := Some(s.run.value.(ahead := s.run.value.ahead + [got])))
      case Consume(put) =>
        if s.run.None? || s.run.value.ahead == [] then s
        else
          var r := s.run.value;
          var onward := Some(r.(next := r.next + 1, ahead := r.ahead[1..]));
          if r.ahead[0].Skip? then s.(run := onward)
          else if put == Refused || !Writable(s.db, r.next) then s.(run := None)
          else
            var source := Filled(cfg.ingestLogs, cfg.receipts);
            var rec := Rec(r.ahead[0].body, LogsHalf(cfg, s.window, r.next, r.ahead[0]), source);
            State(WriteBlock(s.db, cfg.floor, r.next, rec), s.window, if put == Done then onward else None)
      case Finish => if s.run.Some? && s.run.value.next > s.run.value.last then s.(run := None) else s
      case Fail => s.(run := None)
  }

  function History(cfg: Cfg, s: State, events: seq<Event>): State {
    if events == [] then s else Step(cfg, History(cfg, s, events[..|events| - 1]), events[|events| - 1])
  }

  // ----------------------------------------------------- a run fills its range

  /** Heights the run is past are stored, what it skipped is stored, and the frontier has not fallen. */
  ghost predicate RunInv(s: State) {
    ValidDb(s.db) && (s.run.Some? ==> RunFits(s.db, s.run.value))
  }

  ghost predicate RunFits(db: Db<Rec>, r: Run) {
    && r.from <= r.next && r.next + |r.ahead| <= r.last + 1
    && (forall h :: r.from <= h < r.next ==> Has(db, h))
    && (forall i :: 0 <= i < |r.ahead| && r.ahead[i].Skip? ==> Has(db, r.next + i))
    && (r.raw.Some? ==> db.Open? && Contiguous(db) >= r.raw.value)
  }

  lemma GrowingFits(db: Db<Rec>, db': Db<Rec>, r: Run)
    requires RunFits(db, r) && Grows(db, db')
    ensures RunFits(db', r)
  {
    if db.Open? { FrontierGrows(db, db'); }
    forall h | Has(db, h) ensures Has(db', h) {}
    forall h | r.from <= h < r.next ensures Has(db', h) { assert Has(db, h); }
  }

  lemma OnwardFits(db: Db<Rec>, r: Run)
    requires RunFits(db, r) && r.ahead != [] && Has(db, r.next)
    ensures RunFits(db, r.(next := r.next + 1, ahead := r.ahead[1..]))
  {
    var r' := r.(next := r.next + 1, ahead := r.ahead[1..]);
    forall i | 0 <= i < |r'.ahead| && r'.ahead[i].Skip? ensures Has(db, r'.next + i) {
      assert r'.ahead[i] == r.ahead[i + 1];
      assert r'.next + i == r.next + (i + 1);
    }
  }

  lemma SkippedIsStored(db: Db<Rec>, r: Run)
    requires RunFits(db, r) && r.ahead != [] && r.ahead[0].Skip?
    ensures Has(db, r.next)
  {
    assert Has(db, r.next + 0);
  }

  lemma FetchFits(db: Db<Rec>, r: Run, got: Fetched)
    requires RunFits(db, r) && r.next + |r.ahead| <= r.last && (got.Skip? ==> Has(db, r.next + |r.ahead|))
    ensures RunFits(db, r.(ahead := r.ahead + [got]))
  {
  }

  lemma StartFits(db: Db<Rec>, floor: Option<nat>, target: nat)
    requires Effective(db, floor) < target
    ensures RunFits(db, RunOf(db, floor, target))
  {
  }

  lemma StepKeepsRun(cfg: Cfg, s: State, e: Event)
    requires RunInv(s)
    ensures RunInv(Step(cfg, s, e)) && Grows(s.db, Step(cfg, s, e).db)
  {
    hide RunFits, Contiguous;
    var s' := Step(cfg, s, e);
    if s.run.Some? {
      var r := s.run.value;
      GrowingFits(s.db, s'.db, r);
      if e.Consume? && r.ahead != [] && s'.run.Some? {
        if r.ahead[0].Skip? { SkippedIsStored(s.db, r); }
        OnwardFits(s'.db, r);
      }
      if e.Fetch? && s'.run != s.run { FetchFits(s.db, r, e.got); }
    } else if s'.run.Some? {
      StartFits(s.db, cfg.floor, e.target);
    }
  }

  lemma {:induction false} HistoryKeepsRun(cfg: Cfg, s: State, events: seq<Event>)
    requires RunInv(s)
    ensures RunInv(History(cfg, s, events)) && Grows(s.db, History(cfg, s, events).db)
  {
    if events == [] {
    } else {
      var before := events[..|events| - 1];
      HistoryKeepsRun(cfg, s, before);
      StepKeepsRun(cfg, History(cfg, s, before), events[|events| - 1]);
    }
  }

  /**
   For every interleaving of head writes, joins, fetches and stores: a run that returns
   true leaves every height of its range stored, and the frontier at or past its end
   whenever the frontier the pass read had reached the run's start, or the store was
   created at that start.
   */
  lemma TrueRunReachesItsEnd(cfg: Cfg, s: State, events: seq<Event>)
    requires RunInv(s)
    ensures var t := History(cfg, s, events);
            t.run.Some? && t.run.value.next > t.run.value.last >= t.run.value.from ==>
              var r := t.run.value;
              && Step(cfg, t, Finish) == t.(run := None)
              && Covered(t.db, r.from, r.last)
              && ((if r.raw.Some? then r.raw.value >= r.from - 1 else t.db.min == r.from) ==>
                    Contiguous(t.db) >= r.last)
  {
    HistoryKeepsRun(cfg, s, events);
    var t := History(cfg, s, events);
    if t.run.Some? && t.run.value.next > t.run.value.last >= t.run.value.from {
      var r := t.run.value;
      assert Has(t.db, r.from);
      forall h | r.from <= h <= r.last ensures h in t.db.blocks { assert Has(t.db, h); }
      if r.raw.Some? && r.raw.value >= r.from - 1 { FrontierIff(t.db, r.from - 1); }
      FrontierIff(t.db, r.last);
    }
  }

  // ------------------------------------------------ catching up, and the floor

  /** The frontier has reached the height a pass takes as `contiguous`. */
  predicate Solid(db: Db<Rec>, floor: Option<nat>) { Contiguous(db) >= Effective(db, floor) }

  /** Exactly when the floor is not above frontier + 1, and genesis, if the store reaches down to it, is stored. */
  lemma SolidIff(db: Db<Rec>, floor: Option<nat>)
    requires db.Open?
    ensures Solid(db, floor) <==> Contiguous(db) >= 0 && (floor.None? || floor.value <= Contiguous(db) + 1)
    ensures db.min >= 1 && (floor.Some? ==> floor.value <= db.min) ==> Solid(db, floor)
  {
    FrontierIff(db, db.min - 1);
  }

  /** Did a pass over `db` towards `target` end in a run that returned true and left `db'`? */
  ghost predicate TruePass(floor: Option<nat>, db: Db<Rec>, target: nat, db': Db<Rec>) {
    && db.Open? && Grows(db, db')
    && Effective(db, floor) < target < U64_MAX
    && Covered(db', RunOf(db, floor, target).from, RunOf(db, floor, target).last)
  }

  /** A pass whose run finishes is a `TruePass`, whatever was interleaved with it. */
  lemma FinishedPassIsTrue(cfg: Cfg, s: State, target: nat, window: Option<map<nat, seq<Log>>>, events: seq<Event>)
    requires ValidDb(s.db) && s.db.Open? && s.run.None? && Effective(s.db, cfg.floor) < target < U64_MAX
    requires var t := History(cfg, Step(cfg, s, Start(target, window)), events);
             var r := RunOf(s.db, cfg.floor, target);
             t.run.Some? && t.run.value.from == r.from && t.run.value.last == r.last && t.run.value.next > r.last
    ensures TruePass(cfg.floor, s.db, target, History(cfg, Step(cfg, s, Start(target, window)), events).db)
  {
    StepKeepsRun(cfg, s, Start(target, window));
    HistoryKeepsRun(cfg, Step(cfg, s, Start(target, window)), events);
    TrueRunReachesItsEnd(cfg, Step(cfg, s, Start(target, window)), events);
  }

  function Behind(db: Db<Rec>, target: nat): int { Max(target - Contiguous(db), 0) }

  /** On solid ground a successful pass shrinks the gap to the target by min(behind, 2048) or more. */
  lemma GapShrinks(floor: Option<nat>, db: Db<Rec>, target: nat, db': Db<Rec>)
    requires TruePass(floor, db, target, db') && Solid(db, floor)
    ensures Behind(db', target) <= Behind(db, target) - Min(Behind(db, target), LOGS_WINDOW)
    ensures Behind(db', target) < Behind(db, target)
    ensures Solid(db', floor)
  {
    var r := RunOf(db, floor, target);
    FrontierIff(db, Contiguous(db));
    FrontierGrows(db, db');
    assert Covered(db', db'.min, r.last) by {
      forall h | db'.min <= h <= r.last ensures h in db'.blocks {
        if h < r.from { assert h in db.blocks; }
      }
    }
    FrontierIff(db', r.last);
  }

  /** Solid ground stays solid when a restart drops the floor. */
  lemma DroppedFloorIsSolid(db: Db<Rec>, floor: Option<nat>, next: Option<nat>)
    requires db.Open? && Solid(db, floor) && (next == floor || next.None?)
    ensures Solid(db, next)
  {
    SolidIff(db, floor);
    SolidIff(db, next);
  }

  /**
   So n successful passes close a gap of up to 2048 n heights, restarts between them included:
   `floors[i]` is the floor of pass `i`, which a restart drops.
   */
  lemma {:induction false} CatchesUp(floors: seq<Option<nat>>, dbs: seq<Db<Rec>>, target: nat)
    requires |floors| == |dbs| > 0 && dbs[0].Open? && Solid(dbs[0], floors[0])
    requires forall i :: 0 <= i < |dbs| - 1 ==> TruePass(floors[i], dbs[i], target, dbs[i + 1])
    requires forall i :: 0 <= i < |dbs| - 1 ==> floors[i + 1] == floors[i] || floors[i + 1].None?
    ensures var last := dbs[|dbs| - 1];
            && Solid(last, floors[|dbs| - 1])
            && Behind(last, target) <= Max(Behind(dbs[0], target) - LOGS_WINDOW * (|dbs| - 1), 0)
  {
    hide Contiguous, RunOf, Effective, Covered;
    if |dbs| <= 1 {
    } else {
      var n := |dbs| - 1;
      assert floors[..n][n - 1] == floors[n - 1] && dbs[..n][n - 1] == dbs[n - 1];
      CatchesUp(floors[..n], dbs[..n], target);
      assert TruePass(floors[n - 1], dbs[n - 1], target, dbs[n - 1 + 1]);
      assert floors[n - 1 + 1] == floors[n - 1] || floors[n - 1 + 1].None?;
      GapShrinks(floors[n - 1], dbs[n - 1], target, dbs[n]);
      DroppedFloorIsSolid(dbs[n], floors[n - 1], floors[n]);
    }
  }

  // -------------------------------------------------------- passes do finish

  /** A head is stored at its height and touches no other; one that continues the frontier moves it. */
  lemma HeadIsStored(cfg: Cfg, s: State, h: nat, rec: Rec)
    requires ValidDb(s.db) && Writable(s.db, h)
    ensures var s' := Step(cfg, s, HeadWrite(h, rec));
            && Has(s'.db, h) && s'.db.blocks[h] == rec && s'.run == s.run
            && (forall g :: g != h ==>
                  (Has(s'.db, g) <==> Has(s.db, g)) && (Has(s.db, g) ==> s'.db.blocks[g] == s.db.blocks[g]))
            && (s.db.Open? && h == Contiguous(s.db) + 1 ==> Contiguous(s'.db) >= h)
  {
    var s' := Step(cfg, s, HeadWrite(h, rec));
    if s.db.Open? && h == Contiguous(s.db) + 1 {
      FrontierIff(s.db, h - 1);
      assert Covered(s'.db, s'.db.min, h);
      FrontierIff(s'.db, h);
    }
  }

  lemma {:induction false} HistoryAppend(cfg: Cfg, s: State, a: seq<Event>, b: seq<Event>)
    ensures History(cfg, s, a + b) == History(cfg, History(cfg, s, a), b)
  {
    if b == [] {
      assert a + b == a;
    } else {
      var n := |b| - 1;
      assert (a + b)[..|a| + n] == a + b[..n];
      HistoryAppend(cfg, s, a, b[..n]);
    }
  }

  /** Every height is fetched, or found stored already, and stored. */
  function Rounds(answer: nat -> Fetched, h: nat, n: nat): seq<Event>
    decreases n
  {
    if n == 0 then [] else [Fetch(answer(h)), Consume(Done)] + Rounds(answer, h + 1, n - 1)
  }

  lemma TwoSteps(cfg: Cfg, s: State, a: Event, b: Event)
    ensures History(cfg, s, [a, b]) == Step(cfg, Step(cfg, s, a), b)
  {
    assert [a, b][..1] == [a] && [a][..0] == [];
    assert History(cfg, s, [a]) == Step(cfg, s, a);
  }

  lemma OneRound(cfg: Cfg, s: State, got: Fetched)
    requires ValidDb(s.db) && s.run.Some? && (got.Skip? ==> Has(s.db, s.run.value.next))
    requires var r := s.run.value; r.ahead == [] && r.next <= r.last && Writable(s.db, r.next)
    ensures var s', r := Step(cfg, Step(cfg, s, Fetch(got)), Consume(Done)), s.run.value;
            && s'.run == Some(r.(next := r.next + 1)) && Has(s'.db, r.next)
            && (got.Got? ==> s'.db.blocks[r.next].body == got.body)
            && ValidDb(s'.db) && s'.db.min <= r.next && Grows(s.db, s'.db)
  {
    var s1 := Step(cfg, s, Fetch(got));
    assert s1.run.value.ahead == [got] && [got][1..] == [];
  }

  lemma {:induction false} RoundsFill(cfg: Cfg, s: State, answer: nat -> Fetched, n: nat)
    requires ValidDb(s.db) && s.run.Some? && forall h :: answer(h).Skip? ==> Has(s.db, h)
    requires var r := s.run.value; r.ahead == [] && r.next + n == r.last + 1 && Writable(s.db, r.next)
    ensures var t, r := History(cfg, s, Rounds(answer, s.run.value.next, n)), s.run.value;
            && t.run == Some(r.(next := r.last + 1)) && ValidDb(t.db) && Grows(s.db, t.db)
            && forall h :: r.next <= h <= r.last ==> Has(t.db, h)
    decreases n
  {
    hide Step;
    if n == 0 {
    } else {
      var h := s.run.value.next;
      var round, rest := [Fetch(answer(h)), Consume(Done)], Rounds(answer, h + 1, n - 1);
      OneRound(cfg, s, answer(h));
      TwoSteps(cfg, s, round[0], round[1]);
      HistoryAppend(cfg, s, round, rest);
      var s' := History(cfg, s, round);
      forall g | answer(g).Skip? ensures Has(s'.db, g) { assert Has(s.db, g); }
      RoundsFill(cfg, s', answer, n - 1);
    }
  }

  /** The events of a pass whose every call succeeds. */
  function PassEvents(db: Db<Rec>, floor: Option<nat>, target: nat, window: map<nat, seq<Log>>, answer: nat -> Fetched)
    : seq<Event>
  {
    var r := RunOf(db, floor, target);
    [Start(target, Some(window))] + Rounds(answer, r.from, SaturatingSub(r.last + 1, r.from)) + [Finish]
  }

  /** A pass that finds work starts; from then on the run is the only thing that ends it. */
  lemma StartRuns(cfg: Cfg, s: State, target: nat, window: map<nat, seq<Log>>)
    requires ValidDb(s.db) && s.run.None? && (s.db.Open? || cfg.floor.Some?)
    requires Max(Contiguous(s.db), 0) < target < U64_MAX && (cfg.floor.Some? ==> cfg.floor.value <= target)
    ensures var s' := Step(cfg, s, Start(target, Some(window)));
            && s'.db == s.db && s'.run == Some(RunOf(s.db, cfg.floor, target))
            && s'.run.value.from <= s'.run.value.last <= target && Writable(s.db, s'.run.value.from)
  {
    if s.db.Open? { FrontierIff(s.db, s.db.min - 1); }
  }

  /**
   A pass whose fetches are answered, or find the height stored, and whose puts succeed
   finishes: it stores every height from the later of floor and frontier + 1 (never height 0)
   to the target, or 2048 heights on.
   */
  lemma AnsweredPassFinishes(cfg: Cfg, s: State, target: nat, window: map<nat, seq<Log>>, answer: nat -> Fetched)
    requires ValidDb(s.db) && s.run.None? && (s.db.Open? || cfg.floor.Some?)
    requires forall h :: answer(h).Skip? ==> Has(s.db, h)
    requires Max(Contiguous(s.db), 0) < target < U64_MAX && (cfg.floor.Some? ==> cfg.floor.value <= target)
    ensures var t := History(cfg, s, PassEvents(s.db, cfg.floor, target, window, answer));
            var from := Max(Max(Contiguous(s.db) + 1, if cfg.floor.Some? then cfg.floor.value else 0), 1);
            && t.run.None? && ValidDb(t.db) && Grows(s.db, t.db)
            && Covered(t.db, from, Min(target, from + 2047))
  {
    hide Step, History, Contiguous, Rounds, Effective;
    RunSpans(s.db, cfg.floor, target);
    var r := RunOf(s.db, cfg.floor, target);
    var start, rounds := Start(target, Some(window)), Rounds(answer, r.from, r.last + 1 - r.from);
    assert PassEvents(s.db, cfg.floor, target, window, answer) == [start] + rounds + [Finish];
    StartRuns(cfg, s, target, window);
    OneStep(cfg, s, start);
    var s1 := Step(cfg, s, start);
    RoundsFill(cfg, s1, answer, r.last + 1 - r.from);
    HistoryAppend(cfg, s, [start], rounds);
    var t := History(cfg, s, [start] + rounds);
    HistoryAppend(cfg, s, [start] + rounds, [Finish]);
    OneStep(cfg, t, Finish);
    FinishEnds(cfg, t);
    assert Has(t.db, r.from);
    forall h | r.from <= h <= r.last ensures h in t.db.blocks { assert Has(t.db, h); }
  }

  lemma OneStep(cfg: Cfg, s: State, e: Event)
    ensures History(cfg, s, [e]) == Step(cfg, s, e)
  {
    assert [e][..0] == [];
  }

  lemma FinishEnds(cfg: Cfg, t: State)
    requires ValidDb(t.db) && t.run.Some? && t.run.value.next > t.run.value.last
    ensures Step(cfg, t, Finish) == t.(run := None)
  {
  }

  lemma RunSpans(db: Db<Rec>, floor: Option<nat>, target: nat)
    requires Max(Contiguous(db), 0) < target < U64_MAX && (floor.Some? ==> floor.value <= target)
    ensures var r := RunOf(db, floor, target);
            && r.from == Max(Max(Contiguous(db) + 1, if floor.Some? then floor.value else 0), 1)
            && r.last == Min(target, r.from + 2047) && r.from <= r.last && r.next == r.from && r.ahead == []
  {
  }

  /** So from solid ground the frontier can always be brought to any target. */
  lemma {:induction false} CanCatchUp(
      cfg: Cfg, s: State, target: nat, window: map<nat, seq<Log>>, answer: nat -> Fetched)
      returns (events: seq<Event>)
    requires ValidDb(s.db) && s.db.Open? && s.run.None? && Solid(s.db, cfg.floor) && target < U64_MAX
    requires forall h :: answer(h).Skip? ==> Has(s.db, h)
    ensures Contiguous(History(cfg, s, events).db) >= target
    decreases Behind(s.db, target)
  {
    if Contiguous(s.db) >= target {
      events := [];
    } else {
      hide Step, Contiguous;
      SolidIff(s.db, cfg.floor);
      var pass := PassEvents(s.db, cfg.floor, target, window, answer);
      AnsweredPassFinishes(cfg, s, target, window, answer);
      var t := History(cfg, s, pass);
      AnsweredPassIsTrue(cfg, s.db, target, t.db);
      GapShrinks(cfg.floor, s.db, target, t.db);
      forall h | answer(h).Skip? ensures Has(t.db, h) { assert Has(s.db, h); }
      var rest := CanCatchUp(cfg, t, target, window, answer);
      HistoryAppend(cfg, s, pass, rest);
      events := pass + rest;
    }
  }

  lemma AnsweredPassIsTrue(cfg: Cfg, db: Db<Rec>, target: nat, db': Db<Rec>)
    requires db.Open? && Grows(db, db') && Contiguous(db) < target < U64_MAX && Solid(db, cfg.floor)
    requires var from := Max(Max(Contiguous(db) + 1, if cfg.floor.Some? then cfg.floor.value else 0), 1);
             Covered(db', from, Min(target, from + 2047))
    ensures TruePass(cfg.floor, db, target, db')
  {
  }

  /**
   Off solid ground the pass makes no headway: with no other writer, a run that returns
   true moves the frontier to its end if and only if the ground was solid.
   */
  lemma QuietRunProgressIff(floor: Option<nat>, db: Db<Rec>, target: nat, db': Db<Rec>)
    requires TruePass(floor, db, target, db')
    requires forall h :: Has(db', h) ==> Has(db, h) || RunOf(db, floor, target).from <= h
    ensures Contiguous(db') >= RunOf(db, floor, target).last <==> Solid(db, floor)
    ensures !Solid(db, floor) ==> Contiguous(db') == Contiguous(db)
  {
    var r := RunOf(db, floor, target);
    if Solid(db, floor) {
      GapShrinks(floor, db, target, db');
      assert Covered(db', db'.min, r.last) by {
        FrontierIff(db, Contiguous(db));
        forall h | db'.min <= h <= r.last ensures h in db'.blocks {
          if h < r.from { assert h in db.blocks; }
        }
      }
      FrontierIff(db', r.last);
    } else {
      var hole: nat := Contiguous(db) + 1;
      FrontierGrows(db, db');
      assert !Has(db', hole);
      assert !Covered(db', db'.min, hole);
      FrontierIff(db', hole);
    }
  }

  /** The hole at the frontier is below every run, and stays a hole. */
  ghost predicate Stalled(db: Db<Rec>, t: State) {
    var hole := Contiguous(db) + 1;
    && ValidDb(t.db) && Grows(db, t.db) && !Has(t.db, hole)
    && (t.run.Some? ==> t.run.value.next > hole)
  }

  lemma StalledFrontier(db: Db<Rec>, t: State)
    requires db.Open? && Stalled(db, t)
    ensures Contiguous(t.db) == Contiguous(db)
  {
    var hole := Contiguous(db) + 1;
    FrontierGrows(db, t.db);
    assert !Covered(t.db, t.db.min, hole);
    FrontierIff(t.db, hole);
  }

  lemma StepStalls(cfg: Cfg, db: Db<Rec>, t: State, e: Event)
    requires db.Open? && !Solid(db, cfg.floor) && Contiguous(db) + 1 < U64_MAX && Stalled(db, t)
    requires e.HeadWrite? ==> e.h != Contiguous(db) + 1
    ensures Stalled(db, Step(cfg, t, e))
  {
    StalledFrontier(db, t);
    hide Contiguous;
  }

  /**
   Off solid ground backfill never recovers by itself: over every history, whatever is
   fetched, stored and restarted run by run, the frontier stays where it is until a head is
   written into the very hole behind it.
   */
  lemma {:induction false} OffSolidGroundStalls(cfg: Cfg, s: State, events: seq<Event>)
    requires ValidDb(s.db) && s.db.Open? && s.run.None?
    requires !Solid(s.db, cfg.floor) && Contiguous(s.db) + 1 < U64_MAX
    requires forall k :: 0 <= k < |events| && events[k].HeadWrite? ==> events[k].h != Contiguous(s.db) + 1
    ensures Stalled(s.db, History(cfg, s, events)) && Contiguous(History(cfg, s, events).db) == Contiguous(s.db)
  {
    hide Solid, Contiguous, Stalled;
    if events == [] {
      NothingYet(s);
    } else {
      var n := |events| - 1;
      assert forall k :: 0 <= k < n ==> events[..n][k] == events[k];
      OffSolidGroundStalls(cfg, s, events[..n]);
      StepStalls(cfg, s.db, History(cfg, s, events[..n]), events[n]);
      StalledFrontier(s.db, History(cfg, s, events));
    }
  }

  lemma NothingYet(s: State)
    requires ValidDb(s.db) && s.db.Open? && s.run.None?
    ensures Stalled(s.db, s)
  {
    FrontierIff(s.db, Contiguous(s.db));
  }

  /**
   How that happens: the first head is more than one below the floor, so it anchors the
   store, and the next head is missed. From there on nothing but that head moves the frontier.
   */
  lemma FloorAboveTheTipStalls(cfg: Cfg, window: map<nat, seq<Log>>, h: nat, rec: Rec, events: seq<Event>)
    requires cfg.floor.Some? && h + 1 < cfg.floor.value <= U64_MAX
    requires forall k :: 0 <= k < |events| && events[k].HeadWrite? ==> events[k].h != h + 1
    ensures var s := Step(cfg, State(Closed, window, None), HeadWrite(h, rec));
            !Solid(s.db, cfg.floor) && Contiguous(History(cfg, s, events).db) == h
  {
    var s := Step(cfg, State(Closed, window, None), HeadWrite(h, rec));
    FrontierIff(s.db, h);
    FrontierIff(s.db, h + 1);
    assert h + 1 !in s.db.blocks;
    OffSolidGroundStalls(cfg, s, events);
  }

  /**
   The floor a process starts with: the configured one, else the mirrored upstream's
   minimum where there is one, and none at all once the store exists.
   */
  function FloorAtStart(configured: Option<nat>, upstreamMin: Option<nat>, storeExists: bool): Option<nat> {
    if storeExists then None else if configured.Some? then configured else upstreamMin
  }

  /** So a restart heals a stalled store: its first pass starts at the frontier whatever floor is configured. */
  lemma RestartIsSolid(db: Db<Rec>, configured: Option<nat>, upstreamMin: Option<nat>)
    requires db.Open?
    ensures Solid(db, FloorAtStart(configured, upstreamMin, db.Open?)) <==> Contiguous(db) >= 0
  {
    SolidIff(db, None);
  }

  /**
   On an empty store the first run starts at the configured floor, or else at the mirrored
   upstream's minimum, exactly when that is not zero.
   */
  lemma FirstRunStartsAtTheFloorIff(floor: nat, upstreamMin: Option<nat>, target: nat)
    requires floor <= U64_MAX
    ensures RunOf(Closed, FloorAtStart(Some(floor), upstreamMin, false), target).from == floor <==> floor >= 1
    ensures RunOf(Closed, FloorAtStart(None, Some(floor), false), target).from == floor <==> floor >= 1
  {
  }

  /** With no floor at all nothing is backfilled before the first head: over every history without one, no store. */
  lemma {:induction false} WaitsForTheFirstHead(cfg: Cfg, s: State, events: seq<Event>)
    requires cfg.floor.None? && s.db.Closed? && s.run.None?
    requires forall k :: 0 <= k < |events| ==> !events[k].HeadWrite?
    ensures History(cfg, s, events).db.Closed? && History(cfg, s, events).run.None?
  {
    if events == [] {
    } else {
      WaitsForTheFirstHead(cfg, s, events[..|events| - 1]);
    }
  }

  /** A failed fetch or put ends the run; a put that failed after its block was written leaves the block. */
  lemma FailuresEndTheRun(cfg: Cfg, s: State, put: PutOutcome)
    requires ValidDb(s.db)
    ensures Step(cfg, s, Fail) == s.(run := None)
    ensures s.run.Some? && s.run.value.ahead != [] && s.run.value.ahead[0].Got? && put != Done ==>
              var s' := Step(cfg, s, Consume(put));
              && s'.run.None?
              && (put == Refused ==> s'.db == s.db)
              && (put == Half && Writable(s.db, s.run.value.next) ==> Has(s'.db, s.run.value.next))
  {
  }

  // ------------------------------------------------------------ log provenance

  /** The one chain: a body and the receipts of every height. */
  datatype Chain = Chain(body: nat -> string, receipts: nat -> seq<Receipt>)

  /**
   What a record's writer gives for the logs half: nothing where logs were not fetched, all of
   the height's logs on the live path and from receipts, those it can bucket from the window.
   */
  function Carried(source: Source, chain: Chain, h: nat): seq<Log> {
    var logs := LogsAt(chain.receipts, h);
    match source
    case Live(fetched) => if fetched then logs else []
    case Filled(on, receipts) => if !on then [] else if receipts then logs else AtHeight(logs, h)
  }

  /** Does a record from this writer carry exactly the height's logs? */
  predicate Exact(source: Source, chain: Chain, h: nat) {
    var logs := LogsAt(chain.receipts, h);
    || logs == []
    || match source
       case Live(fetched) => fetched
       case Filled(on, receipts) => on && (receipts || forall i :: 0 <= i < |logs| ==> logs[i].number.Some?)
  }

  lemma ExactIff(source: Source, chain: Chain, h: nat)
    requires SourceUsable(chain, source)
    ensures Carried(source, chain, h) == LogsAt(chain.receipts, h) <==> Exact(source, chain, h)
  {
    AtHeightKeeps(LogsAt(chain.receipts, h), h);
    hide AtHeight;
  }

  /**
   Upstream answers this event truthfully: the range's logs, the height's body and receipts.
   A live write is the chain's block with all its logs, or with none.
   */
  ghost predicate Truthful(cfg: Cfg, chain: Chain, s: State, e: Event) {
    && (e.Start? && e.window.Some? ==>
          var r := RunOf(s.db, cfg.floor, e.target); Buckets(e.window.value, RangeLogs(chain.receipts, r.from, r.last)))
    && (e.Fetch? && e.got.Got? && s.run.Some? ==>
          var h := s.run.value.next + |s.run.value.ahead|;
          && e.got.body == chain.body(h)
          && e.got.logs == if cfg.ingestLogs && cfg.receipts then Some(FromReceipts(chain.receipts(h))) else None)
    && (e.HeadWrite? ==> e.rec.source.Live? && FromChain(chain, e.h, e.rec))
  }

  predicate FromChain(chain: Chain, h: nat, rec: Rec) {
    rec.body == chain.body(h) && rec.logs == Carried(rec.source, chain, h)
  }

  ghost predicate TruthfulRun(cfg: Cfg, chain: Chain, s: State, events: seq<Event>) {
    forall k :: 0 <= k < |events| ==> Truthful(cfg, chain, History(cfg, s, events[..k]), events[k])
  }

  /** A window source needs logs that name their own block, or none readably. */
  ghost predicate Usable(cfg: Cfg, chain: Chain) { Windowed(cfg) ==> Numbered(chain.receipts) }

  /** Every record is the chain's block with the logs its writer carries. */
  ghost predicate Sourced(chain: Chain, db: Db<Rec>) {
    && ValidDb(db)
    && (db.Open? ==> forall h :: h in db.blocks ==>
          FromChain(chain, h, db.blocks[h]) && SourceUsable(chain, db.blocks[h].source))
  }

  ghost predicate SourceUsable(chain: Chain, source: Source) {
    source.Filled? && source.ingestLogs && !source.receipts ==> Numbered(chain.receipts)
  }

  /** The store is sourced, and the run in progress holds only data of the chain. */
  ghost predicate Provenance(cfg: Cfg, chain: Chain, s: State) {
    && Sourced(chain, s.db)
    && (s.run.Some? ==>
          var r := s.run.value;
          && r.next + |r.ahead| <= r.last + 1 && r.from <= r.next
          && (Windowed(cfg) ==>
                forall h :: r.from <= h <= r.last ==> Serialized(s.window, h) == AtHeight(LogsAt(chain.receipts, h), h))
          && (forall i :: 0 <= i < |r.ahead| ==> AheadRight(cfg, chain, r, i)))
  }

  ghost predicate AheadRight(cfg: Cfg, chain: Chain, r: Run, i: nat)
    requires i < |r.ahead|
  {
    r.ahead[i].Got? ==>
      && r.ahead[i].body == chain.body(r.next + i)
      && r.ahead[i].logs == if cfg.ingestLogs && cfg.receipts then Some(LogsAt(chain.receipts, r.next + i)) else None
  }

  lemma StartProvenance(cfg: Cfg, chain: Chain, s: State, e: Event)
    requires Usable(cfg, chain) && e.Start?
    requires Provenance(cfg, chain, s) && Truthful(cfg, chain, s, e)
    ensures Provenance(cfg, chain, Step(cfg, s, e))
  {
    if Windowed(cfg) && e.window.Some? {
      var r := RunOf(s.db, cfg.floor, e.target);
      forall h | r.from <= h <= r.last ensures Serialized(e.window.value, h) == AtHeight(LogsAt(chain.receipts, h), h) {
        RangeAtHeight(chain.receipts, r.from, r.last, h);
      }
    }
  }

  lemma FetchProvenance(cfg: Cfg, chain: Chain, s: State, e: Event)
    requires e.Fetch?
    requires Provenance(cfg, chain, s) && Truthful(cfg, chain, s, e)
    ensures Provenance(cfg, chain, Step(cfg, s, e))
  {
    hide Sourced, Serialized, AtHeight;
    var s' := Step(cfg, s, e);
    if s.run.Some? && s'.run.Some? {
      var r, r' := s.run.value, s'.run.value;
      forall i | 0 <= i < |r'.ahead| ensures AheadRight(cfg, chain, r', i) {
        if i < |r.ahead| { assert AheadRight(cfg, chain, r, i); }
      }
    }
  }

  lemma ConsumeProvenance(cfg: Cfg, chain: Chain, s: State, e: Event)
    requires Usable(cfg, chain) && e.Consume?
    requires Provenance(cfg, chain, s)
    ensures Provenance(cfg, chain, Step(cfg, s, e))
  {
    if s.run.Some? && s.run.value.ahead != [] {
      HeadOfQueue(cfg, chain, s);
      hide AheadRight, LogsHalf, Serialized, Carried, Numbered, AtHeight, LogsAt;
      var s' := Step(cfg, s, e);
      if s'.run.Some? { RestOfQueue(cfg, chain, s.run.value, s'.run.value); }
    }
  }

  /** The oldest outcome is stored as the chain's block with the logs its source carries. */
  lemma HeadOfQueue(cfg: Cfg, chain: Chain, s: State)
    requires Provenance(cfg, chain, s) && s.run.Some? && s.run.value.ahead != []
    ensures var r := s.run.value;
            r.ahead[0].Got? ==>
              && r.ahead[0].body == chain.body(r.next)
              && LogsHalf(cfg, s.window, r.next, r.ahead[0])
                   == Carried(Filled(cfg.ingestLogs, cfg.receipts), chain, r.next)
  {
    assert AheadRight(cfg, chain, s.run.value, 0);
  }

  lemma RestOfQueue(cfg: Cfg, chain: Chain, r: Run, r': Run)
    requires r.ahead != [] && r'.next == r.next + 1 && r'.ahead == r.ahead[1..]
    requires forall i :: 0 <= i < |r.ahead| ==> AheadRight(cfg, chain, r, i)
    ensures forall i :: 0 <= i < |r'.ahead| ==> AheadRight(cfg, chain, r', i)
  {
    forall i | 0 <= i < |r'.ahead| ensures AheadRight(cfg, chain, r', i) {
      assert AheadRight(cfg, chain, r, i + 1);
      assert r'.next + i == r.next + (i + 1);
    }
  }

  lemma StepProvenance(cfg: Cfg, chain: Chain, s: State, e: Event)
    requires Usable(cfg, chain)
    requires Provenance(cfg, chain, s) && Truthful(cfg, chain, s, e)
    ensures Provenance(cfg, chain, Step(cfg, s, e))
  {
    match e
    case Start(_, _) => StartProvenance(cfg, chain, s, e);
    case Fetch(_) => FetchProvenance(cfg, chain, s, e);
    case Consume(_) => ConsumeProvenance(cfg, chain, s, e);
    case HeadWrite(_, _) =>
    case Finish =>
    case Fail =>
  }

  /** One process, from any store that is sourced. */
  lemma {:induction false} HistoryProvenance(cfg: Cfg, chain: Chain, s: State, events: seq<Event>)
    requires Usable(cfg, chain) && Provenance(cfg, chain, s) && TruthfulRun(cfg, chain, s, events)
    ensures Provenance(cfg, chain, History(cfg, s, events))
  {
    if events == [] {
    } else {
      var n := |events| - 1;
      var before := events[..n];
      forall k | 0 <= k < n ensures Truthful(cfg, chain, History(cfg, s, before[..k]), before[k]) {
        assert before[..k] == events[..k] && before[k] == events[k];
      }
      HistoryProvenance(cfg, chain, s, before);
      StepProvenance(cfg, chain, History(cfg, s, before), events[n]);
    }
  }

  // -------------------------------------------------------- across restarts

  /**
   One process over the store: its settings, which a restart may all change (the floor is
   dropped, log ingestion switched, the log source probed again), its first window and what
   happened until it died.
   */
  datatype Life = Life(cfg: Cfg, window: map<nat, seq<Log>>, events: seq<Event>)

  /** The store a sequence of processes leaves behind. */
  function Lived(lives: seq<Life>): Db<Rec> {
    if lives == [] then Closed
    else
      var life := lives[|lives| - 1];
      History(life.cfg, State(Lived(lives[..|lives| - 1]), life.window, None), life.events).db
  }

  function Born(before: seq<Life>, life: Life): State { State(Lived(before), life.window, None) }

  ghost predicate TruthfulLives(chain: Chain, lives: seq<Life>) {
    forall k :: 0 <= k < |lives| ==> TruthfulLife(chain, lives, k)
  }

  ghost predicate TruthfulLife(chain: Chain, lives: seq<Life>, k: nat)
    requires k < |lives|
  {
    && Usable(lives[k].cfg, chain)
    && TruthfulRun(lives[k].cfg, chain, Born(lives[..k], lives[k]), lives[k].events)
  }

  lemma {:induction false} LivesProvenance(chain: Chain, lives: seq<Life>)
    requires TruthfulLives(chain, lives)
    ensures Sourced(chain, Lived(lives))
  {
    if lives == [] {
    } else {
      hide Usable, TruthfulRun, Sourced, History;
      var n := |lives| - 1;
      forall k | 0 <= k < n ensures TruthfulLife(chain, lives[..n], k) {
        assert TruthfulLife(chain, lives, k);
        assert lives[..n][..k] == lives[..k] && lives[..n][k] == lives[k];
      }
      LivesProvenance(chain, lives[..n]);
      assert TruthfulLife(chain, lives, n);
      HistoryProvenance(lives[n].cfg, chain, Born(lives[..n], lives[n]), lives[n].events);
    }
  }

  /**
   Over every sequence of processes, whatever their floors and log sources and whatever window
   a run left behind: a stored height holds the chain's block, and exactly its upstream logs if
   and only if it has none, or its writer fetched logs, live or from receipts, or bucketed logs
   that all carry a readable number.
   */
  lemma StoredLogsAreExactIff(chain: Chain, lives: seq<Life>, h: nat)
    requires TruthfulLives(chain, lives) && Has(Lived(lives), h)
    ensures var rec := Lived(lives).blocks[h];
            && rec.body == chain.body(h)
            && (rec.logs == LogsAt(chain.receipts, h) <==> Exact(rec.source, chain, h))
  {
    LivesProvenance(chain, lives);
    hide Lived, Exact, Carried;
    ExactIff(Lived(lives).blocks[h].source, chain, h);
  }
}
