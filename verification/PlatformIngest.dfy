/**
 The P-chain polling loop: a bounded run of heights per pass, with a one-deep hold for
 reward proposals, against an upstream that may fail at any call.
 */
module PlatformIngest {
  import opened U64
  import opened Wrappers
  import opened BlockDb
  import opened Codec
  import opened PlatformBlock

  const FILL_CHUNK: nat := 8192
  const EMPTY_ARRAY := "[]"

  /** A stored P-chain record `[blockJSON, blockBytesHex, rewards]`. */
  datatype Rec = Rec(block: Fetched, rewards: string)

  /**
   Everything one run learns from outside, keyed by height: the block if it was fetched
   and verified, the reward UTXOs for the proposal at that height, and the outcome of its
   put. A run asks each of these at most once, so any sequence of answers is some
   `Upstream`; dying in the middle of a run is a refused put.
   */
  datatype Upstream = Upstream(fetch: nat -> Option<Fetched>, utxos: nat -> Option<string>, put: nat -> PutOutcome)

  /** What `verify` guarantees of a fetched block: it sits at the height that was asked for. */
  ghost predicate Checked(up: Upstream) {
    forall h :: up.fetch(h).Some? ==> up.fetch(h).value.height == h
  }

  /** `fetch_block` over the raw answers, both encodings cross-checked. */
  function FetchBlock(sha: Sha256, bytes: nat -> Option<string>, json: nat -> Option<BlockJson>)
    : nat -> Option<Fetched>
  {
    (h: nat) => if json(h).None? then None else Verify(sha, bytes(h), json(h).value, Some(h))
  }

  /**
   Whatever two encodings upstream returns, what passes `fetch_block` is at its height and
   self-verifying, and two encodings of such a block do pass.
   */
  lemma FetchIsChecked(sha: Sha256, bytes: nat -> Option<string>, json: nat -> Option<BlockJson>, up: Upstream)
    requires up.fetch == FetchBlock(sha, bytes, json)
    ensures Checked(up)
    ensures forall h :: up.fetch(h).Some? ==> SelfVerifying(sha, up.fetch(h).value)
    ensures forall h, f :: SelfVerifying(sha, f) && f.height == h ==>
              bytes(h) == Some(f.hexnc) && json(h) == Some(f.json) ==> up.fetch(h) == Some(f)
  {
    forall h, f | SelfVerifying(sha, f) && f.height == h && bytes(h) == Some(f.hexnc) && json(h) == Some(f.json)
      ensures up.fetch(h) == Some(f)
    {
      VerifyIff(sha, bytes(h), f.json, Some(h), f);
    }
    forall h | up.fetch(h).Some?
      ensures up.fetch(h).value.height == h && SelfVerifying(sha, up.fetch(h).value)
    {
      VerifyIff(sha, bytes(h), json(h).value, Some(h), up.fetch(h).value);
    }
  }

  /** `resolve_reward`: only a commit or an abort at the next height decides a proposal. */
  function ResolveReward(up: Upstream, proposal: Fetched, outcome: BlockKind): Option<string> {
    if proposal.stakingTx.None? then None
    else
      match outcome
      case Abort => Some(EMPTY_ARRAY)
      case Commit => up.utxos(proposal.height)
      case _ => None
  }

  /** `emit`: store one block at its own height; false when the put reported failure. */
  function Emit(db: Db<Rec>, floor: Option<nat>, f: Fetched, rewards: string, up: Upstream): (r: (Db<Rec>, bool))
    requires ValidDb(db)
    ensures ValidDb(r.0)
  {
    if up.put(f.height) == Refused || !Writable(db, f.height) then (db, false)
    else (WriteBlock(db, floor, f.height, Rec(f, rewards)), up.put(f.height) == Done)
  }

  /** A run's result: the store, the heights written in order, what is still held, and completion. */
  datatype Run = Run(db: Db<Rec>, writes: seq<nat>, pending: Option<Fetched>, ok: bool)

  /** What storing one block adds to a run; a failed put ends it. */
  function Store(r: Run, floor: Option<nat>, f: Fetched, rewards: string, up: Upstream): (r': Run)
    requires ValidDb(r.db)
    ensures ValidDb(r'.db)
  {
    var (db, ok) := Emit(r.db, floor, f, rewards, up);
    var wrote := up.put(f.height) != Refused && Writable(r.db, f.height);
    Run(db, if wrote then r.writes + [f.height] else r.writes, None, ok)
  }

  /** One iteration: settle the held proposal with the block just fetched, then hold or store it. */
  function Consume(r: Run, floor: Option<nat>, h: nat, up: Upstream): (r': Run)
    requires ValidDb(r.db)
    ensures ValidDb(r'.db)
  {
    match up.fetch(h)
    case None => r.(ok := false)
    case Some(f) =>
      var settled :=
        if r.pending.None? then r
        else
          match ResolveReward(up, r.pending.value, f.kind)
          case None => r.(ok := false)
          case Some(rewards) => Store(r, floor, r.pending.value, rewards, up);
      if !settled.ok then settled
      else if f.stakingTx.Some? then settled.(pending := Some(f))
      else Store(settled, floor, f, EMPTY_ARRAY, up)
  }

  function Fill(r: Run, floor: Option<nat>, h: nat, end: nat, up: Upstream): (r': Run)
    requires ValidDb(r.db)
    ensures ValidDb(r'.db)
    decreases end + 1 - h
  {
    if h > end || !r.ok then r else Fill(Consume(r, floor, h, up), floor, h + 1, end, up)
  }

  /** `fill_range` as the source runs it: a loop over heights with the hold as its only state. */
  method FillRange(db: Db<Rec>, floor: Option<nat>, from: nat, end: nat, up: Upstream)
    returns (db': Db<Rec>, ok: bool)
    requires ValidDb(db)
    ensures var r := Fill(Run(db, [], None, true), floor, from, end, up); db' == r.db && ok == r.ok
  {
    db' := db;
    var pending: Option<Fetched> := None;
    ghost var writes := [];
    var h := from;
    while h <= end
      invariant ValidDb(db')
      invariant Fill(Run(db, [], None, true), floor, from, end, up)
             == Fill(Run(db', writes, pending, true), floor, h, end, up)
      decreases end + 1 - h
    {
      ghost var before := Run(db', writes, pending, true);
      var result := up.fetch(h);
      if result.None? {
        return db', false;
      }
      var fetched := result.value;
      if pending.Some? {
        var proposal := pending.value;
        var rewards := ResolveReward(up, proposal, fetched.kind);
        if rewards.None? {
          return db', false;
        }
        ghost var settled := Store(before, floor, proposal, rewards.value, up);
        var (next, stored) := Emit(db', floor, proposal, rewards.value, up);
        db', pending, writes := next, None, settled.writes;
        if !stored {
          return db', false;
        }
      }
      if fetched.stakingTx.Some? {
        pending := Some(fetched);
      } else {
        ghost var after := Store(Run(db', writes, None, true), floor, fetched, EMPTY_ARRAY, up);
        var (next, stored) := Emit(db', floor, fetched, EMPTY_ARRAY, up);
        db', writes := next, after.writes;
        if !stored {
          return db', false;
        }
      }
      h := h + 1;
    }
    ok := true;
  }

  // --------------------------------------------------- gap-free, one at a time

  /** The stored heights are one interval starting at the minimum. */
  ghost predicate GapFree(db: Db<Rec>) {
    db.Open? ==> db.min in db.blocks && forall h :: h in db.blocks <==> db.min <= h <= Contiguous(db)
  }

  /** `w` is the height the next put must carry: the anchor of a new store, else frontier + 1. */
  ghost predicate Expects(db: Db<Rec>, floor: Option<nat>, w: nat) {
    if db.Closed? then AnchorAt(floor, w) == w else w == Contiguous(db) + 1
  }

  /** The next height to write, given the next height to fetch. */
  function NextWrite(r: Run, h: nat): int { if r.pending.Some? then h - 1 else h }

  ghost predicate Consecutive(writes: seq<nat>, w: int) { forall i :: 0 <= i < |writes| ==> writes[i] == w + i }

  /** What holds at the head of the loop in a run that started by expecting `w`. */
  ghost predicate RunInv(r: Run, floor: Option<nat>, w: nat, h: nat) {
    && ValidDb(r.db) && GapFree(r.db)
    && Consecutive(r.writes, w)
    && (r.writes != [] ==> r.db.Open?)
    && (r.db.Open? ==> Contiguous(r.db) == w + |r.writes| - 1)
    && (r.pending.Some? ==> r.pending.value.height + 1 == h && r.pending.value.stakingTx.Some?)
    && (r.ok ==> NextWrite(r, h) == w + |r.writes| && Expects(r.db, floor, w + |r.writes|))
  }

  lemma WriteAtFrontier(db: Db<Rec>, floor: Option<nat>, w: nat, v: Rec)
    requires ValidDb(db) && GapFree(db) && Expects(db, floor, w)
    ensures Writable(db, w)
    ensures var db' := WriteBlock(db, floor, w, v);
            GapFree(db') && Contiguous(db') == w && (db.Open? ==> db'.min == db.min) && (db.Closed? ==> db'.min == w)
  {
    if db.Open? { assert Contiguous(db) >= db.min; }
    var db' := WriteBlock(db, floor, w, v);
    assert Covered(db', db'.min, w);
    FrontierIff(db', w);
    assert !Covered(db', db'.min, w + 1) by { assert w + 1 !in db'.blocks; }
    FrontierIff(db', w + 1);
  }

  lemma StoreKeeps(r: Run, floor: Option<nat>, w: nat, f: Fetched, rewards: string, up: Upstream)
    requires ValidDb(r.db) && GapFree(r.db) && Consecutive(r.writes, w)
    requires r.db.Open? ==> Contiguous(r.db) == w + |r.writes| - 1
    requires r.writes != [] ==> r.db.Open?
    requires f.height == w + |r.writes| && Expects(r.db, floor, f.height)
    ensures RunInv(Store(r, floor, f, rewards, up), floor, w, f.height + 1)
    ensures var r' := Store(r, floor, f, rewards, up);
            r'.ok ==> r'.writes == r.writes + [f.height] && r'.db.Open?
  {
    WriteAtFrontier(r.db, floor, f.height, Rec(f, rewards));
  }

  lemma ConsumeKeeps(r: Run, floor: Option<nat>, w: nat, h: nat, up: Upstream)
    requires Checked(up) && RunInv(r, floor, w, h) && r.ok
    ensures RunInv(Consume(r, floor, h, up), floor, w, h + 1) || !Consume(r, floor, h, up).ok
    ensures var r' := Consume(r, floor, h, up);
            && ValidDb(r'.db) && GapFree(r'.db) && Consecutive(r'.writes, w)
            && (r'.db.Open? ==> Contiguous(r'.db) == w + |r'.writes| - 1)
            && w + |r'.writes| <= h + 1 && (r'.writes != [] ==> r'.db.Open?)
            && (r'.ok ==> r'.pending.Some? == up.fetch(h).value.stakingTx.Some?)
            && (r'.ok ==> up.fetch(h).Some?)
  {
    hide GapFree, Consecutive, Contiguous, Emit, Expects, ResolveReward;
    var fetched := up.fetch(h);
    if fetched.Some? {
      var f := fetched.value;
      var settled := r;
      if r.pending.Some? {
        var rewards := ResolveReward(up, r.pending.value, f.kind);
        if rewards.Some? {
          StoreKeeps(r, floor, w, r.pending.value, rewards.value, up);
          settled := Store(r, floor, r.pending.value, rewards.value, up);
        } else {
          settled := r.(ok := false);
        }
      }
      if settled.ok && f.stakingTx.None? {
        StoreKeeps(settled, floor, w, f, EMPTY_ARRAY, up);
      }
    }
  }

  /** Is the last block of the run a reward proposal, held because its outcome lies beyond? */
  predicate EndsHeld(up: Upstream, end: nat) {
    up.fetch(end).Some? && up.fetch(end).value.stakingTx.Some?
  }

  lemma {:induction false} FillKeeps(r: Run, floor: Option<nat>, w: nat, h: nat, end: nat, up: Upstream)
    requires Checked(up) && RunInv(r, floor, w, h)
    ensures var r' := Fill(r, floor, h, end, up);
            && ValidDb(r'.db) && GapFree(r'.db) && Consecutive(r'.writes, w)
            && (r'.db.Open? ==> Contiguous(r'.db) == w + |r'.writes| - 1)
            && (r'.ok && h <= end ==> w + |r'.writes| == (if EndsHeld(up, end) then end else end + 1))
    decreases end + 1 - h
  {
    hide Checked, GapFree, Consecutive, Consume, Expects, Contiguous;
    if h > end || !r.ok {
    } else {
      var r1 := Consume(r, floor, h, up);
      ConsumeKeeps(r, floor, w, h, up);
      if r1.ok {
        FillKeeps(r1, floor, w, h + 1, end, up);
      }
    }
  }

  /**
   One run, for every upstream: it writes consecutive heights starting at the anchor or
   at frontier + 1 and nothing else, so the store stays one interval; and a run over k
   heights that is not cut short writes k of them, or k - 1 exactly when the last block
   is a held reward proposal.
   */
  lemma RunWritesAtTheFrontier(db: Db<Rec>, floor: Option<nat>, from: nat, end: nat, up: Upstream)
    requires Checked(up) && ValidDb(db) && GapFree(db) && from <= end && Expects(db, floor, from)
    ensures var r := Fill(Run(db, [], None, true), floor, from, end, up);
            && GapFree(r.db) && Consecutive(r.writes, from)
            && (r.db.Open? ==> Contiguous(r.db) == from + |r.writes| - 1)
            && (r.ok ==> |r.writes| == end + 1 - from - (if EndsHeld(up, end) then 1 else 0))
  {
    FillKeeps(Run(db, [], None, true), floor, from, from, end, up);
  }

  // -------------------------------------------------------------- the rewards

  /** The one chain upstream describes: a block per height, and the UTXOs of a staking transaction. */
  datatype Chain = Chain(block: nat -> Fetched, utxos: string -> string)

  /** Under finality upstream answers with the chain's block and UTXOs or not at all. */
  ghost predicate Truthful(chain: Chain, up: Upstream) {
    forall h ::
      var f := up.fetch(h);
      && (f.Some? ==> f.value == chain.block(h))
      && (up.utxos(h).Some? && chain.block(h).stakingTx.Some? ==>
            up.utxos(h).value == chain.utxos(chain.block(h).stakingTx.value))
  }

  /** The rewards element height `h` must carry, read off the chain alone; `None`: not storable. */
  function Rewards(chain: Chain, h: nat): Option<string> {
    if chain.block(h).stakingTx.None? then Some(EMPTY_ARRAY)
    else
      match chain.block(h + 1).kind
      case Abort => Some(EMPTY_ARRAY)
      case Commit => Some(chain.utxos(chain.block(h).stakingTx.value))
      case _ => None
  }

  ghost predicate RewardsRight(chain: Chain, db: Db<Rec>) {
    db.Open? ==> forall h :: h in db.blocks ==>
      db.blocks[h].block == chain.block(h) && Rewards(chain, h) == Some(db.blocks[h].rewards)
  }

  ghost predicate HoldInv(chain: Chain, r: Run, h: nat) {
    && ValidDb(r.db) && RewardsRight(chain, r.db)
    && (r.pending.Some? ==>
          && h > 0 && r.pending.value == chain.block(h - 1)
          && r.pending.value.height == h - 1 && r.pending.value.stakingTx.Some?)
  }

  lemma StoreRewards(chain: Chain, r: Run, floor: Option<nat>, f: Fetched, rewards: string, up: Upstream)
    requires ValidDb(r.db) && RewardsRight(chain, r.db)
    requires f == chain.block(f.height) && Rewards(chain, f.height) == Some(rewards)
    ensures RewardsRight(chain, Store(r, floor, f, rewards, up).db)
  {
  }

  /** What settles a held proposal is what its successor on the chain decides. */
  lemma ResolvedRewards(chain: Chain, h: nat, up: Upstream)
    requires Truthful(chain, up) && up.fetch(h + 1).Some?
    requires chain.block(h).stakingTx.Some? && chain.block(h).height == h
    ensures var rewards := ResolveReward(up, chain.block(h), up.fetch(h + 1).value.kind);
            rewards.Some? ==> Rewards(chain, h) == rewards
  {
  }

  lemma TruthfulFetch(chain: Chain, up: Upstream, h: nat)
    requires Checked(up) && Truthful(chain, up) && up.fetch(h).Some?
    ensures up.fetch(h).value == chain.block(h) && chain.block(h).height == h
    ensures chain.block(h).stakingTx.None? ==> Rewards(chain, h) == Some(EMPTY_ARRAY)
  {
  }

  lemma ConsumeRewards(chain: Chain, r: Run, floor: Option<nat>, h: nat, up: Upstream)
    requires Checked(up) && Truthful(chain, up) && HoldInv(chain, r, h) && r.ok
    ensures RewardsRight(chain, Consume(r, floor, h, up).db)
    ensures Consume(r, floor, h, up).ok ==> HoldInv(chain, Consume(r, floor, h, up), h + 1)
  {
    hide Checked, Truthful, RewardsRight, Rewards, ResolveReward, Emit, ValidDb;
    var fetched := up.fetch(h);
    if fetched.Some? {
      var f := fetched.value;
      TruthfulFetch(chain, up, h);
      var settled := r;
      if r.pending.Some? {
        var p := r.pending.value;
        ResolvedRewards(chain, h - 1, up);
        var rewards := ResolveReward(up, p, f.kind);
        if rewards.Some? {
          StoreRewards(chain, r, floor, p, rewards.value, up);
          settled := Store(r, floor, p, rewards.value, up);
        }
      }
      if settled.ok && f.stakingTx.None? { StoreRewards(chain, settled, floor, f, EMPTY_ARRAY, up); }
    }
  }

  lemma {:induction false} FillRewards(chain: Chain, r: Run, floor: Option<nat>, h: nat, end: nat, up: Upstream)
    requires Checked(up) && Truthful(chain, up) && HoldInv(chain, r, h)
    ensures RewardsRight(chain, Fill(r, floor, h, end, up).db)
    decreases end + 1 - h
  {
    hide Checked, Truthful, RewardsRight, Consume;
    if h > end || !r.ok {
    } else {
      ConsumeRewards(chain, r, floor, h, up);
      var r1 := Consume(r, floor, h, up);
      if r1.ok { FillRewards(chain, r1, floor, h + 1, end, up); }
    }
  }

  // ------------------------------------------------------------ the whole loop

  /** A store never written anchors at the floor, or at the tip when there is none. */
  function NextHeight(isEmpty: bool, contiguous: int, floor: Option<nat>, tip: nat): nat
    requires !isEmpty ==> contiguous >= 0
  {
    if isEmpty then (if floor.Some? then floor.value else tip) else SaturatingAdd(contiguous, 1)
  }

  /**
   One turn of the loop. `poll` is `None` while the cached tip is fresh, `Some(None)` for
   a failed poll. The floor is fixed for a process but may differ after a restart; a
   restart is a turn with a fresh poll.
   */
  datatype Pass = Pass(poll: Option<Option<nat>>, floor: Option<nat>, up: Upstream)

  datatype Loop = Loop(db: Db<Rec>, tip: nat)

  function Turn(l: Loop, p: Pass): (l': Loop)
    requires ValidDb(l.db) && (l.db.Open? ==> Contiguous(l.db) >= 0)
    ensures ValidDb(l'.db)
  {
    if p.poll == Some(None) then l
    else
      var tip := if p.poll.Some? then p.poll.value.value else l.tip;
      var next := NextHeight(l.db.Closed?, Contiguous(l.db), p.floor, tip);
      if next > tip then Loop(l.db, tip)
      else
        var end := Min(tip, SaturatingAdd(next, SaturatingSub(FILL_CHUNK, 1)));
        Loop(Fill(Run(l.db, [], None, true), p.floor, next, end, p.up).db, tip)
  }

  /** Verified fetches, and tips below the largest u64, where `saturating_add(1)` still moves. */
  ghost predicate Bounded(passes: seq<Pass>) {
    forall i :: 0 <= i < |passes| ==> Checked(passes[i].up) && TipBelowMax(passes[i])
  }

  predicate TipBelowMax(p: Pass) { p.poll.Some? && p.poll.value.Some? ==> p.poll.value.value < U64_MAX }

  ghost predicate LoopInv(l: Loop) {
    && ValidDb(l.db) && GapFree(l.db) && l.tip < U64_MAX
    && (l.db.Open? ==> Contiguous(l.db) < U64_MAX)
  }

  lemma TurnKeeps(l: Loop, p: Pass)
    requires LoopInv(l) && Checked(p.up) && TipBelowMax(p)
    ensures l.db.Open? ==> Contiguous(l.db) >= 0
    ensures LoopInv(Turn(l, p))
    ensures var l' := Turn(l, p);
            l.db.Open? ==> l'.db.Open? && l'.db.min == l.db.min && Contiguous(l.db) <= Contiguous(l'.db)
  {
    if p.poll != Some(None) {
      var tip := if p.poll.Some? then p.poll.value.value else l.tip;
      var next := NextHeight(l.db.Closed?, Contiguous(l.db), p.floor, tip);
      if next <= tip {
        var end := Min(tip, SaturatingAdd(next, SaturatingSub(FILL_CHUNK, 1)));
        RunWritesAtTheFrontier(l.db, p.floor, next, end, p.up);
        FillBounded(Run(l.db, [], None, true), p.floor, next, next, end, p.up);
        FillGrows(Run(l.db, [], None, true), p.floor, next, end, p.up);
      }
    }
  }

  /** No run writes past its end. */
  lemma {:induction false} FillBounded(r: Run, floor: Option<nat>, w: nat, h: nat, end: nat, up: Upstream)
    requires Checked(up) && RunInv(r, floor, w, h) && w + |r.writes| <= end + 1
    ensures w + |Fill(r, floor, h, end, up).writes| <= end + 1
    decreases end + 1 - h
  {
    hide Checked, GapFree, Consecutive, Consume, Expects, Contiguous;
    if h > end || !r.ok {
    } else {
      ConsumeKeeps(r, floor, w, h, up);
      var r1 := Consume(r, floor, h, up);
      if r1.ok { FillBounded(r1, floor, w, h + 1, end, up); }
    }
  }

  lemma ConsumeGrows(r: Run, floor: Option<nat>, h: nat, up: Upstream)
    requires ValidDb(r.db)
    ensures Grows(r.db, Consume(r, floor, h, up).db)
  {
    hide Grows, Emit, ValidDb;
    GrowsKept(r.db, r.db, r.db);
    var fetched := up.fetch(h);
    if fetched.Some? {
      var f := fetched.value;
      var settled := r;
      if r.pending.Some? {
        var rewards := ResolveReward(up, r.pending.value, f.kind);
        if rewards.Some? {
          StoreGrows(r, floor, r.pending.value, rewards.value, up);
          settled := Store(r, floor, r.pending.value, rewards.value, up);
        }
      }
      StoreGrows(settled, floor, f, EMPTY_ARRAY, up);
      GrowsKept(r.db, settled.db, Store(settled, floor, f, EMPTY_ARRAY, up).db);
    }
  }

  lemma StoreGrows(r: Run, floor: Option<nat>, f: Fetched, rewards: string, up: Upstream)
    requires ValidDb(r.db)
    ensures Grows(r.db, Store(r, floor, f, rewards, up).db)
  {
  }

  lemma GrowsKept(a: Db<Rec>, b: Db<Rec>, c: Db<Rec>)
    ensures Grows(a, a) && (Grows(a, b) && Grows(b, c) ==> Grows(a, c))
  {
  }

  lemma {:induction false} FillGrows(r: Run, floor: Option<nat>, h: nat, end: nat, up: Upstream)
    requires ValidDb(r.db)
    ensures Grows(r.db, Fill(r, floor, h, end, up).db)
    decreases end + 1 - h
  {
    if h > end || !r.ok {
    } else {
      ConsumeGrows(r, floor, h, up);
      hide Consume;
      FillGrows(Consume(r, floor, h, up), floor, h + 1, end, up);
    }
  }

  /** The loop's state after a schedule of passes, starting from an empty store. */
  ghost function After(passes: seq<Pass>): (l: Loop)
    requires Bounded(passes)
    ensures LoopInv(l)
    decreases |passes|
  {
    if passes == [] then Loop(Closed, 0)
    else
      var n := |passes| - 1;
      TurnKeeps(After(passes[..n]), passes[n]);
      Turn(After(passes[..n]), passes[n])
  }

  /** `ingest` as the source runs it: a loop whose only state is the cached tip and the store. */
  method Ingest(passes: seq<Pass>) returns (db: Db<Rec>, tip: nat)
    requires Bounded(passes)
    ensures Loop(db, tip) == After(passes)
  {
    db, tip := Closed, 0;
    for n := 0 to |passes|
      invariant Loop(db, tip) == After(passes[..n])
    {
      assert passes[..n + 1][..n] == passes[..n];
      var p := passes[n];
      TurnKeeps(Loop(db, tip), p);
      if p.poll != Some(None) {
        if p.poll.Some? {
          tip := p.poll.value.value;
        }
        var next := NextHeight(db.Closed?, Contiguous(db), p.floor, tip);
        if next <= tip {
          var end := Min(tip, SaturatingAdd(next, SaturatingSub(FILL_CHUNK, 1)));
          var ok;
          db, ok := FillRange(db, p.floor, next, end, p.up);
        }
      }
    }
    assert passes[..|passes|] == passes;
  }

  /**
   The whole loop, for every schedule of tips, failures and restarts: the store is always
   one gap-free interval that no later pass moves the start of or shortens, and under
   finality every stored block is the chain's block and carries the rewards its successor
   decided, never a guess.
   */
  lemma {:induction false} LoopIsGapFreeAndRight(passes: seq<Pass>, k: nat)
    requires Bounded(passes) && k <= |passes|
    ensures GapFree(After(passes).db)
    ensures Bounded(passes[..k])
    ensures var before, now := After(passes[..k]).db, After(passes).db;
            before.Open? ==> now.Open? && now.min == before.min && Contiguous(before) <= Contiguous(now)
    ensures forall chain :: (forall i :: 0 <= i < |passes| ==> Truthful(chain, passes[i].up)) ==>
              RewardsRight(chain, After(passes).db)
  {
    hide GapFree, RewardsRight, Truthful, Turn, Contiguous, Checked, TipBelowMax;
    if passes == [] {
      assert passes[..k] == passes;
      NothingStored();
    } else {
      var n := |passes| - 1;
      var prev := After(passes[..n]);
      TurnKeeps(prev, passes[n]);
      if k == |passes| {
        assert passes[..k] == passes;
        LoopIsGapFreeAndRight(passes[..n], 0);
      } else {
        assert passes[..n][..k] == passes[..k];
        LoopIsGapFreeAndRight(passes[..n], k);
      }
      forall chain | forall i :: 0 <= i < |passes| ==> Truthful(chain, passes[i].up)
        ensures RewardsRight(chain, After(passes).db)
      {
        forall i | 0 <= i < n ensures Truthful(chain, passes[..n][i].up) { assert passes[..n][i] == passes[i]; }
        TurnRewards(chain, prev, passes[n]);
      }
    }
  }

  /**
   The rewards in the fields of the blocks themselves. Under finality, in every store the loop
   fills: a block whose `tx` proposes the reward of a staking transaction carries `[]` if the
   next block's bytes are an abort and that transaction's UTXOs if they are a commit, and is not
   stored otherwise; every other block carries `[]`.
   */
  lemma StoredRewardsInFields(sha: Sha256, chain: Chain, passes: seq<Pass>, h: nat)
    requires Bounded(passes) && forall i :: 0 <= i < |passes| ==> Truthful(chain, passes[i].up)
    requires forall g :: SelfVerifying(sha, chain.block(g))
    requires Has(After(passes).db, h)
    ensures HexncDecode(chain.block(h + 1).hexnc).Ok?
    ensures var rec, next := After(passes).db.blocks[h], HexncDecode(chain.block(h + 1).hexnc).value;
            && rec.block == chain.block(h)
            && (forall staking :: ProposesReward(rec.block.json, staking) ==>
                  if TypeByte(next, 1) || TypeByte(next, 30) then rec.rewards == "[]"
                  else (TypeByte(next, 2) || TypeByte(next, 31)) && rec.rewards == chain.utxos(staking))
            && ((forall staking :: !ProposesReward(rec.block.json, staking)) ==> rec.rewards == "[]")
  {
    hide After, Truthful, Bounded, SelfVerifying, Rewards;
    LoopIsGapFreeAndRight(passes, 0);
    assert RewardsRight(chain, After(passes).db);
    RewardsInFields(sha, chain, h, After(passes).db.blocks[h].rewards);
  }

  lemma RewardsInFields(sha: Sha256, chain: Chain, h: nat, rewards: string)
    requires SelfVerifying(sha, chain.block(h)) && SelfVerifying(sha, chain.block(h + 1))
    requires Rewards(chain, h) == Some(rewards)
    ensures HexncDecode(chain.block(h + 1).hexnc).Ok?
    ensures var b, next := chain.block(h).json, HexncDecode(chain.block(h + 1).hexnc).value;
            && (forall staking :: ProposesReward(b, staking) ==>
                  if TypeByte(next, 1) || TypeByte(next, 30) then rewards == "[]"
                  else (TypeByte(next, 2) || TypeByte(next, 31)) && rewards == chain.utxos(staking))
            && ((forall staking :: !ProposesReward(b, staking)) ==> rewards == "[]")
  {
    hide KindOf, RewardStakingTx, ProposesReward, HexncDecode, TypeByte, Cb58Encode, ExtractTxIds;
    KindByBytes(HexncDecode(chain.block(h + 1).hexnc).value);
    var b := chain.block(h).json;
    RewardProposalIff(b, "");
    forall staking | ProposesReward(b, staking) ensures RewardStakingTx(b) == Some(staking) {
      RewardProposalIff(b, staking);
    }
  }

  /** A fetch or put that fails ends the run there; a put that failed after its block was written leaves the block. */
  lemma FailuresEndTheRun(r: Run, floor: Option<nat>, h: nat, end: nat, f: Fetched, rewards: string, up: Upstream)
    requires ValidDb(r.db) && h <= end
    ensures r.ok && up.fetch(h).None? ==> Fill(r, floor, h, end, up) == r.(ok := false)
    ensures var r' := Store(r, floor, f, rewards, up);
            && (r'.ok ==> up.put(f.height) == Done)
            && (up.put(f.height) == Refused ==> r'.db == r.db && r'.writes == r.writes)
            && (up.put(f.height) == Half && Writable(r.db, f.height) ==>
                  !r'.ok && Has(r'.db, f.height) && r'.writes == r.writes + [f.height])
    ensures !r.ok ==> Fill(r, floor, h, end, up) == r
  {
  }

  // ------------------------------------------------------------- and it advances

  /** Upstream answers every call of a run over [from..=end], and every proposal before its end is decided. */
  ghost predicate Answers(up: Upstream, from: nat, end: nat) {
    forall h :: from <= h <= end ==> AnswersAt(up, h, end)
  }

  ghost predicate AnswersAt(up: Upstream, h: nat, end: nat) {
    && up.fetch(h).Some? && up.put(h) == Done
    && (up.fetch(h).value.stakingTx.Some? && h < end && up.fetch(h + 1).Some? ==>
          up.fetch(h + 1).value.kind == Abort || (up.fetch(h + 1).value.kind == Commit && up.utxos(h).Some?))
  }

  lemma StoreSucceeds(r: Run, floor: Option<nat>, f: Fetched, rewards: string, up: Upstream)
    requires ValidDb(r.db) && GapFree(r.db) && Expects(r.db, floor, f.height) && up.put(f.height) == Done
    ensures Store(r, floor, f, rewards, up).ok
  {
    WriteAtFrontier(r.db, floor, f.height, Rec(f, rewards));
  }

  lemma ConsumeSucceeds(r: Run, floor: Option<nat>, w: nat, h: nat, end: nat, up: Upstream)
    requires Checked(up) && RunInv(r, floor, w, h) && r.ok && h <= end && AnswersAt(up, h, end)
    requires r.pending.Some? ==> h > 0 && AnswersAt(up, h - 1, end) && r.pending == up.fetch(h - 1)
    ensures var r' := Consume(r, floor, h, up); r'.ok && (r'.pending.Some? ==> r'.pending == up.fetch(h))
  {
    hide GapFree, Consecutive, Contiguous, Emit, Expects;
    var f := up.fetch(h).value;
    var settled := r;
    if r.pending.Some? {
      var p := r.pending.value;
      var rewards := ResolveReward(up, p, f.kind).value;
      StoreSucceeds(r, floor, p, rewards, up);
      StoreKeeps(r, floor, w, p, rewards, up);
      settled := Store(r, floor, p, rewards, up);
    }
    if f.stakingTx.None? { StoreSucceeds(settled, floor, f, EMPTY_ARRAY, up); }
  }

  lemma {:induction false} FillSucceeds(r: Run, floor: Option<nat>, w: nat, h: nat, end: nat, up: Upstream)
    requires Checked(up) && RunInv(r, floor, w, h) && r.ok && Answers(up, h, end)
    requires r.pending.Some? ==> h > 0 && AnswersAt(up, h - 1, end) && r.pending == up.fetch(h - 1)
    ensures Fill(r, floor, h, end, up).ok
    decreases end + 1 - h
  {
    hide Checked, RunInv, Consume, AnswersAt;
    if h > end {
    } else {
      assert AnswersAt(up, h, end);
      RunIsValid(r, floor, w, h);
      ConsumeSucceeds(r, floor, w, h, end, up);
      ConsumeKeeps(r, floor, w, h, up);
      FillSucceeds(Consume(r, floor, h, up), floor, w, h + 1, end, up);
    }
  }

  lemma RunIsValid(r: Run, floor: Option<nat>, w: nat, h: nat)
    requires RunInv(r, floor, w, h)
    ensures ValidDb(r.db)
  {
  }

  /** A run on a store not yet created anchors it where the run starts. */
  lemma {:induction false} FillAnchors(r: Run, floor: Option<nat>, w: nat, h: nat, end: nat, up: Upstream)
    requires Checked(up) && RunInv(r, floor, w, h) && (r.db.Open? ==> r.db.min == w)
    ensures var db := Fill(r, floor, h, end, up).db; db.Open? ==> db.min == w
    decreases end + 1 - h
  {
    hide Checked, Consume;
    if h > end || !r.ok {
    } else {
      ConsumeAnchors(r, floor, w, h, up);
      ConsumeKeeps(r, floor, w, h, up);
      hide RunInv;
      var r1 := Consume(r, floor, h, up);
      if r1.ok { FillAnchors(r1, floor, w, h + 1, end, up); }
    }
  }

  lemma ConsumeAnchors(r: Run, floor: Option<nat>, w: nat, h: nat, up: Upstream)
    requires Checked(up) && RunInv(r, floor, w, h) && r.ok && (r.db.Open? ==> r.db.min == w)
    ensures var db := Consume(r, floor, h, up).db; db.Open? ==> db.min == w
  {
    hide GapFree, Consecutive, Contiguous;
    var fetched := up.fetch(h);
    if fetched.Some? && r.pending.Some? {
      var rewards := ResolveReward(up, r.pending.value, fetched.value.kind);
      if rewards.Some? { StoreKeeps(r, floor, w, r.pending.value, rewards.value, up); }
    }
  }

  /**
   A turn whose calls all succeed brings the frontier to the tip, or 8192 heights on, and one
   short of that exactly when the last block is a held proposal. A new store starts at the
   floor, or at the tip when there is none.
   */
  lemma TurnAdvances(l: Loop, p: Pass, tip: nat, next: nat, end: nat)
    requires LoopInv(l) && Checked(p.up) && TipBelowMax(p)
    requires p.poll == Some(Some(tip)) || (p.poll.None? && tip == l.tip)
    requires next == if l.db.Open? then Contiguous(l.db) + 1 else if p.floor.Some? then p.floor.value else tip
    requires next <= tip && end == Min(tip, next + 8191) && Answers(p.up, next, end)
    ensures l.db.Open? ==> Contiguous(l.db) >= 0
    ensures var l' := Turn(l, p);
            && l'.tip == tip
            && (if EndsHeld(p.up, end) then end > next ==> l'.db.Open? && Contiguous(l'.db) == end - 1
                else l'.db.Open? && Contiguous(l'.db) == end)
            && (l.db.Closed? && l'.db.Open? ==> l'.db.min == next)
  {
    hide Fill, RunInv, GapFree, Consecutive, Answers, Checked, Contiguous;
    TurnKeeps(l, p);
    NextExpected(l, p, next);
    var start := Run(l.db, [], None, true);
    StartOfRun(l.db, p.floor, next);
    RunWritesAtTheFrontier(l.db, p.floor, next, end, p.up);
    FillSucceeds(start, p.floor, next, next, end, p.up);
    FillOpens(start, p.floor, next, next, end, p.up);
    if l.db.Closed? { FillAnchors(start, p.floor, next, next, end, p.up); }
  }

  lemma NextExpected(l: Loop, p: Pass, next: nat)
    requires LoopInv(l)
    requires l.db.Open? ==> next == Contiguous(l.db) + 1
    requires l.db.Closed? && p.floor.Some? ==> next == p.floor.value
    ensures Expects(l.db, p.floor, next)
  {
  }

  lemma StartOfRun(db: Db<Rec>, floor: Option<nat>, from: nat)
    requires ValidDb(db) && GapFree(db) && Expects(db, floor, from)
    ensures RunInv(Run(db, [], None, true), floor, from, from)
  {
  }

  /** A run that wrote anything left a store. */
  lemma {:induction false} FillOpens(r: Run, floor: Option<nat>, w: nat, h: nat, end: nat, up: Upstream)
    requires Checked(up) && RunInv(r, floor, w, h)
    ensures var r' := Fill(r, floor, h, end, up); r'.writes != [] ==> r'.db.Open?
    decreases end + 1 - h
  {
    hide Checked, GapFree, Consecutive, Expects, Contiguous, Consume;
    if h > end || !r.ok {
    } else {
      ConsumeKeeps(r, floor, w, h, up);
      var r1 := Consume(r, floor, h, up);
      if r1.ok { FillOpens(r1, floor, w, h + 1, end, up); }
    }
  }

  lemma NothingStored()
    ensures GapFree(Closed) && forall chain :: RewardsRight(chain, Closed)
  {
  }

  lemma TurnRewards(chain: Chain, l: Loop, p: Pass)
    requires ValidDb(l.db) && (l.db.Open? ==> Contiguous(l.db) >= 0)
    requires Checked(p.up) && Truthful(chain, p.up) && RewardsRight(chain, l.db)
    ensures RewardsRight(chain, Turn(l, p).db)
  {
    if p.poll != Some(None) {
      var tip := if p.poll.Some? then p.poll.value.value else l.tip;
      var next := NextHeight(l.db.Closed?, Contiguous(l.db), p.floor, tip);
      if next <= tip {
        var end := Min(tip, SaturatingAdd(next, SaturatingSub(FILL_CHUNK, 1)));
        FillRewards(chain, Run(l.db, [], None, true), p.floor, next, end, p.up);
      }
    }
  }
}
