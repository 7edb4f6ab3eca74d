/**
 From ingest to answer: what `eth_getLogs` serves from the store that live writes and
 backfill left behind, against the logs of the chain.
 */
module ServedLogs {
  import opened Wrappers
  import opened BlockDb
  import opened Logs
  import opened GetLogs
  import Backfill
  import Storage

  /** A C-chain record as it is read back: the block, then the logs array. */
  function CellOf(rec: Backfill.Rec): Cell { Storage.Combined([OtherJson(rec.body), LogArray(rec.logs)]) }

  function Cells(db: Db<Backfill.Rec>): Db<Cell> {
    match db
    case Closed => Closed
    case Open(min, blocks) => Open(min, map h | h in blocks :: CellOf(blocks[h]))
  }

  /** What `eth_getLogs` answers for [a..=b] once it has passed the checks. */
  function Served(db: Db<Backfill.Rec>, a: nat, b: nat, f: Filter): seq<Log> {
    Select(AllLogs(LogsOf(Cells(db)), a, b), Keep(f))
  }

  /** What it should answer: one filter pass over the chain's logs of the range. */
  function Expected(chain: Backfill.Chain, a: nat, b: nat, f: Filter): seq<Log> {
    Select(RangeLogs(chain.receipts, a, b), Keep(f))
  }

  ghost predicate AnswersRight(db: Db<Backfill.Rec>, chain: Backfill.Chain, from: nat, last: nat) {
    forall a: nat, b: nat, f: Filter :: from <= a <= b <= last ==> Served(db, a, b, f) == Expected(chain, a, b, f)
  }

  /** Is the height stored with exactly the chain's logs? */
  predicate LogsRight(db: Db<Backfill.Rec>, chain: Backfill.Chain, h: nat) {
    Has(db, h) && db.blocks[h].logs == LogsAt(chain.receipts, h)
  }

  /** Is the height stored by a writer that carries exactly its logs? */
  predicate ExactAt(db: Db<Backfill.Rec>, chain: Backfill.Chain, h: nat) {
    Has(db, h) && Backfill.Exact(db.blocks[h].source, chain, h)
  }

  lemma StoredLogs(db: Db<Backfill.Rec>, h: nat)
    requires Has(db, h)
    ensures LogsOf(Cells(db))(h) == Some(LogArray(db.blocks[h].logs))
  {
  }

  lemma {:induction false} SameRange(db: Db<Backfill.Rec>, chain: Backfill.Chain, a: nat, b: int)
    requires forall h: nat :: a <= h <= b ==> LogsRight(db, chain, h)
    ensures AllLogs(LogsOf(Cells(db)), a, b) == RangeLogs(chain.receipts, a, b)
    decreases b + 1 - a
  {
    hide LogsAt, LogsOf;
    if a > b {
    } else {
      SameRange(db, chain, a, b - 1);
      assert LogsRight(db, chain, b);
      StoredLogs(db, b);
    }
  }

  /** One height on its own, without a filter. */
  lemma OneHeight(db: Db<Backfill.Rec>, chain: Backfill.Chain, h: nat)
    requires Has(db, h)
    ensures Served(db, h, h, Filter(None, None)) == db.blocks[h].logs
    ensures Expected(chain, h, h, Filter(None, None)) == LogsAt(chain.receipts, h)
  {
    StoredLogs(db, h);
    hide LogsOf, LogsAt;
    assert AllLogs(LogsOf(Cells(db)), h, h - 1) == [] && RangeLogs(chain.receipts, h, h - 1) == [];
    assert AllLogs(LogsOf(Cells(db)), h, h) == db.blocks[h].logs;
    assert RangeLogs(chain.receipts, h, h) == LogsAt(chain.receipts, h);
    var stored, upstream := db.blocks[h].logs, LogsAt(chain.receipts, h);
    KeepsAll(stored, |stored|);
    KeepsAll(upstream, |upstream|);
    assert stored[..|stored|] == stored && upstream[..|upstream|] == upstream;
  }

  lemma {:induction false} KeepsAll(logs: seq<Log>, n: nat)
    requires n <= |logs|
    ensures SelectFirst(logs, n, Keep(Filter(None, None))) == logs[..n]
  {
    if n == 0 {
    } else {
      KeepsAll(logs, n - 1);
      assert logs[..n] == logs[..n - 1] + [logs[n - 1]];
    }
  }

  /**
   End to end, over every sequence of processes: a range that is stored is always answered, and
   answered rightly, for every part of it and every filter, if and only if each of its heights
   was written by a writer that carries its logs exactly. A height written while log ingestion
   was off fails this unless the chain has no logs there: it answers `[]`.
   */
  lemma ServedLogsAreTheChainsIff(chain: Backfill.Chain, lives: seq<Backfill.Life>, from: nat, last: nat)
    requires Backfill.TruthfulLives(chain, lives)
    requires forall h: nat :: from <= h <= last ==> Has(Backfill.Lived(lives), h)
    ensures var db := Backfill.Lived(lives);
            && Complete(LogsOf(Cells(db)), from, last)
            && (AnswersRight(db, chain, from, last) <==> forall h: nat :: from <= h <= last ==> ExactAt(db, chain, h))
  {
    var db := Backfill.Lived(lives);
    forall h: nat | from <= h <= last
      ensures LogsOf(Cells(db))(h).Some?
      ensures LogsRight(db, chain, h) <==> ExactAt(db, chain, h)
      ensures AnswersRight(db, chain, from, last) ==> LogsRight(db, chain, h)
    {
      HeightAnswers(chain, lives, from, last, h);
    }
    hide Backfill.Lived, ExactAt, LogsRight, Select, Keep, LogsOf, AllLogs, RangeLogs;
    if forall h: nat :: from <= h <= last ==> ExactAt(db, chain, h) {
      forall a: nat, b: nat, f: Filter | from <= a <= b <= last
        ensures Served(db, a, b, f) == Expected(chain, a, b, f)
      {
        SameRange(db, chain, a, b);
      }
    }
  }

  lemma HeightAnswers(chain: Backfill.Chain, lives: seq<Backfill.Life>, from: nat, last: nat, h: nat)
    requires Backfill.TruthfulLives(chain, lives) && from <= h <= last && Has(Backfill.Lived(lives), h)
    ensures var db := Backfill.Lived(lives);
            && LogsOf(Cells(db))(h).Some?
            && (LogsRight(db, chain, h) <==> ExactAt(db, chain, h))
            && (AnswersRight(db, chain, from, last) ==> LogsRight(db, chain, h))
  {
    hide Backfill.TruthfulLives, Backfill.Lived, Backfill.Exact, LogsAt, LogsOf, Served, Expected;
    var db := Backfill.Lived(lives);
    StoredLogs(db, h);
    Backfill.StoredLogsAreExactIff(chain, lives, h);
    if AnswersRight(db, chain, from, last) {
      assert Served(db, h, h, Filter(None, None)) == Expected(chain, h, h, Filter(None, None));
      OneHeight(db, chain, h);
    }
  }

  /** How it fails: a height with logs, stored live by a process that did not ingest them, answers `[]`. */
  lemma BeforeIngestionAnswersNothing(chain: Backfill.Chain, h: nat) returns (lives: seq<Backfill.Life>)
    requires LogsAt(chain.receipts, h) != []
    ensures Backfill.TruthfulLives(chain, lives) && Has(Backfill.Lived(lives), h)
    ensures Served(Backfill.Lived(lives), h, h, Filter(None, None)) == []
    ensures !AnswersRight(Backfill.Lived(lives), chain, h, h)
  {
    var cfg, rec := Backfill.Cfg(false, false, None), Backfill.Rec(chain.body(h), [], Backfill.Live(false));
    var write := Backfill.HeadWrite(h, rec);
    lives := [Backfill.Life(cfg, map[], [write])];
    var born := Backfill.State(Closed, map[], None);
    assert lives[..0] == [] && [write][..0] == [];
    assert Backfill.Born(lives[..0], lives[0]) == born;
    assert Backfill.History(cfg, born, [write]) == Backfill.Step(cfg, born, write);
    assert Backfill.TruthfulLife(chain, lives, 0);
    var db := Backfill.Lived(lives);
    OneHeight(db, chain, h);
    hide Served, Expected;
    assert Served(db, h, h, Filter(None, None)) != Expected(chain, h, h, Filter(None, None));
  }
}
