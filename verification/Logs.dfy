/**
 The two ways the C-chain backfill obtains a height's logs: one range request bucketed
 by height, or the block's receipts flattened. Both must store the same sequence.
 */
module Logs {
  import opened Wrappers

  /**
   A log: the height its `blockNumber` parses to, the fields a filter looks at, and everything
   else. Absent or wrongly typed fields are `None`.
   */
  datatype Log = Log(
    number: Option<nat>, address: Option<string>, topics: Option<seq<Option<string>>>, data: string)

  /** A receipt; `logs` is absent when the field is missing or not an array. */
  datatype Receipt = Receipt(logs: Option<seq<Log>>)

  /** `logs_from_receipts`: the logs of every receipt, concatenated in order. */
  function FromReceipts(receipts: seq<Receipt>): seq<Log> {
    if receipts == [] then []
    else (if receipts[0].logs.Some? then receipts[0].logs.value else []) + FromReceipts(receipts[1..])
  }

  /** Nothing is lost or reordered: a receipt contributes its logs, and parts of the list their own in turn. */
  lemma {:induction false} ReceiptsConcatenate(a: seq<Receipt>, b: seq<Receipt>, r: Receipt)
    ensures FromReceipts(a + b) == FromReceipts(a) + FromReceipts(b)
    ensures FromReceipts([r]) == if r.logs.Some? then r.logs.value else []
  {
    assert [r][1..] == [];
    if a == [] {
      assert a + b == b;
    } else {
      assert (a + b)[1..] == a[1..] + b;
      ReceiptsConcatenate(a[1..], b, r);
    }
  }

  /** The logs of an array that carry a given height, in order. */
  function AtHeight(logs: seq<Log>, h: nat): seq<Log> {
    if logs == [] then []
    else
      var n := |logs| - 1;
      AtHeight(logs[..n], h) + (if logs[n].number == Some(h) then [logs[n]] else [])
  }

  /** What the window must hold after loading `logs`: a bucket per height that has any. */
  ghost predicate Buckets(byHeight: map<nat, seq<Log>>, logs: seq<Log>) {
    forall h :: (h in byHeight <==> AtHeight(logs, h) != []) && (h in byHeight ==> byHeight[h] == AtHeight(logs, h))
  }

  function Serialized(byHeight: map<nat, seq<Log>>, h: nat): seq<Log> {
    if h in byHeight then byHeight[h] else []
  }

  class LogWindow {
    var byHeight: map<nat, seq<Log>>

    constructor ()
      ensures byHeight == map[]
    {
      byHeight := map[];
    }

    /** `load`: clear, then bucket the array; `None` is a response that is no array. */
    method Load(logs: Option<seq<Log>>)
      modifies this
      ensures Buckets(byHeight, if logs.Some? then logs.value else [])
    {
      byHeight := map[];
      if logs.None? {
        return;
      }
      var items := logs.value;
      for i := 0 to |items|
        invariant Buckets(byHeight, items[..i])
      {
        assert items[..i + 1][..i] == items[..i];
        var log := items[i];
        ghost var before := byHeight;
        if log.number.Some? {
          var h := log.number.value;
          byHeight := byHeight[h := Serialized(byHeight, h) + [log]];
        }
        assert Buckets(before, items[..i]);
      }
      assert items[..|items|] == items;
    }
  }

  // --------------------------------------------- the sources store the same

  /** The chain's logs at a height, block-wide order. */
  function LogsAt(receipts: nat -> seq<Receipt>, h: nat): seq<Log> { FromReceipts(receipts(h)) }

  /** What `eth_getLogs` returns for a range: the heights' logs in order. */
  function RangeLogs(receipts: nat -> seq<Receipt>, from: nat, last: int): seq<Log>
    decreases last + 1 - from
  {
    if from > last then [] else RangeLogs(receipts, from, last - 1) + LogsAt(receipts, last)
  }

  /** Each log names its own block, or names none readably. */
  ghost predicate Numbered(receipts: nat -> seq<Receipt>) {
    forall h: nat, i :: 0 <= i < |LogsAt(receipts, h)| ==>
      LogsAt(receipts, h)[i].number.None? || LogsAt(receipts, h)[i].number == Some(h)
  }

  lemma {:induction false} AtHeightAppend(a: seq<Log>, b: seq<Log>, h: nat)
    ensures AtHeight(a + b, h) == AtHeight(a, h) + AtHeight(b, h)
  {
    if b == [] {
      assert a + b == a;
    } else {
      var n := |b| - 1;
      assert (a + b)[..|a| + n] == a + b[..n];
      AtHeightAppend(a, b[..n], h);
    }
  }

  lemma {:induction false} AtHeightShort(logs: seq<Log>, h: nat)
    ensures |AtHeight(logs, h)| <= |logs|
    ensures |AtHeight(logs, h)| == |logs| ==> forall i :: 0 <= i < |logs| ==> logs[i].number == Some(h)
  {
    if logs == [] {
    } else {
      var n := |logs| - 1;
      AtHeightShort(logs[..n], h);
      assert forall i :: 0 <= i < n ==> logs[..n][i] == logs[i];
    }
  }

  lemma {:induction false} AtHeightAll(logs: seq<Log>, h: nat)
    requires forall i :: 0 <= i < |logs| ==> logs[i].number == Some(h)
    ensures AtHeight(logs, h) == logs
  {
    if logs == [] {
    } else {
      var n := |logs| - 1;
      AtHeightAll(logs[..n], h);
      assert logs == logs[..n] + [logs[n]];
    }
  }

  lemma AtHeightKeeps(logs: seq<Log>, h: nat)
    ensures AtHeight(logs, h) == logs <==> forall i :: 0 <= i < |logs| ==> logs[i].number == Some(h)
  {
    hide AtHeight;
    AtHeightShort(logs, h);
    if forall i :: 0 <= i < |logs| ==> logs[i].number == Some(h) { AtHeightAll(logs, h); }
  }

  lemma {:induction false} AtHeightDrops(logs: seq<Log>, h: nat)
    requires forall i :: 0 <= i < |logs| ==> logs[i].number != Some(h)
    ensures AtHeight(logs, h) == []
  {
    if logs == [] {
    } else {
      AtHeightDrops(logs[..|logs| - 1], h);
    }
  }

  lemma OtherHeight(receipts: nat -> seq<Receipt>, g: nat, h: nat)
    requires Numbered(receipts) && g != h
    ensures AtHeight(LogsAt(receipts, g), h) == []
  {
    AtHeightDrops(LogsAt(receipts, g), h);
  }

  lemma {:induction false} RangeAtHeight(receipts: nat -> seq<Receipt>, from: nat, last: int, h: nat)
    requires Numbered(receipts)
    ensures AtHeight(RangeLogs(receipts, from, last), h)
         == if from <= h <= last then AtHeight(LogsAt(receipts, h), h) else []
    decreases last + 1 - from
  {
    hide LogsAt, Numbered;
    if from > last {
    } else {
      RangeAtHeight(receipts, from, last - 1, h);
      RangeStep(receipts, from, last, h);
    }
  }

  lemma RangeStep(receipts: nat -> seq<Receipt>, from: nat, last: nat, h: nat)
    requires Numbered(receipts) && from <= last
    ensures AtHeight(RangeLogs(receipts, from, last), h)
         == AtHeight(RangeLogs(receipts, from, last - 1), h)
            + (if last == h then AtHeight(LogsAt(receipts, h), h) else [])
  {
    hide AtHeight, LogsAt, Numbered;
    AtHeightAppend(RangeLogs(receipts, from, last - 1), LogsAt(receipts, last), h);
    if last != h { OtherHeight(receipts, last, h); }
  }

  /**
   A window loaded for [from..=last] serves, at each height of the range, exactly the
   sequence the receipts source would store there, if and only if every log of that
   height has a readable block number; outside the range it serves nothing.
   */
  lemma SourcesAgree(receipts: nat -> seq<Receipt>, byHeight: map<nat, seq<Log>>, from: nat, last: nat, h: nat)
    requires Numbered(receipts) && Buckets(byHeight, RangeLogs(receipts, from, last))
    ensures from <= h <= last ==>
              (Serialized(byHeight, h) == FromReceipts(receipts(h)) <==>
               forall i :: 0 <= i < |LogsAt(receipts, h)| ==> LogsAt(receipts, h)[i].number.Some?)
    ensures !(from <= h <= last) ==> Serialized(byHeight, h) == []
  {
    RangeAtHeight(receipts, from, last, h);
    AtHeightKeeps(LogsAt(receipts, h), h);
  }

  /** How they differ: a log without a readable number is stored from receipts and lost in the window. */
  lemma UnreadableNumberIsLost(log: Log, h: nat) returns (receipts: nat -> seq<Receipt>)
    requires log.number.None?
    ensures Numbered(receipts) && FromReceipts(receipts(h)) == [log]
    ensures Buckets(map[], RangeLogs(receipts, h, h)) && Serialized(map[], h) == []
  {
    receipts := (g: nat) => if g == h then [Receipt(Some([log]))] else [];
    var one := [Receipt(Some([log]))];
    assert one[1..] == [] && FromReceipts(one) == [log];
    assert RangeLogs(receipts, h, h - 1) == [] && RangeLogs(receipts, h, h) == [log];
    forall g ensures AtHeight(RangeLogs(receipts, h, h), g) == [] { AtHeightDrops([log], g); }
  }
}
