/**
 neve-to-neve replication of the P-chain: the server's range replay and live fan-out
 against the client's bootstrap and tip following, over a FIFO channel that can be cut
 at any point.

 Elements are JSON values here: a streamed record is parsed and serialized again by the
 client, so agreement is agreement of values.
 */
module Replication {
  import opened U64
  import opened Wrappers
  import opened BlockDb
  import opened Codec
  import opened PlatformBlock
  import opened PlatformIngest

  /** A streamed notification payload; `Malformed` is not an array of three elements. */
  datatype Wire = Wire(json: BlockJson, bytes: Option<string>, rewards: string) | Malformed

  /** A frame is a record notification or anything else (the ack, an error, a stray reply). */
  datatype Frame = Payload(wire: Wire) | Noise

  /** `get_record`, as the bytes go out: the record's three elements. */
  function ToWire(r: Rec): Wire { Wire(r.block.json, Some(r.block.hexnc), r.rewards) }

  /** `persist_record` up to the write: the same cross-check as a direct fetch, at the record's own height. */
  function Persist(sha: Sha256): Wire -> Option<Rec> {
    (w: Wire) =>
      if w.Malformed? then None
      else
        match Verify(sha, w.bytes, w.json, None)
        case None => None
        case Some(f) => Some(Rec(f, w.rewards))
  }

  /** What the client admits is self-verifying, and a self-verifying record survives the wire. */
  lemma WireRoundTrip(sha: Sha256, w: Wire, r: Rec)
    ensures Persist(sha)(w).Some? ==> SelfVerifying(sha, Persist(sha)(w).value.block)
    ensures SelfVerifying(sha, r.block) ==> Persist(sha)(ToWire(r)) == Some(r)
  {
    if Persist(sha)(w).Some? {
      VerifyIff(sha, w.bytes, w.json, None, Persist(sha)(w).value.block);
    }
    VerifyIff(sha, Some(r.block.hexnc), r.block.json, None, r.block);
  }

  // ------------------------------------------------------------- the protocol

  /**
   The client's connection. `Boot` streams [from..=target]; `cursor` is the server's next
   height and `got` the first height not yet delivered. `floor` is the client's anchor.
   */
  datatype Phase =
    | Idle
    | Boot(floor: Option<nat>, from: nat, target: nat, cursor: nat, got: nat)
    | Live(floor: Option<nat>)

  datatype Sys = Sys(server: Db<Rec>, client: Db<Rec>, phase: Phase, chan: seq<Frame>)

  /**
   `ServerStores` lets the server's history grow at any moment, below the largest height,
   where the cursors' `saturating_add(1)` still moves; the first store may be
   anchored at any floor, so the server need not hold its minimum. `Connect` reads the
   server's contiguous tip and subscribes. `Deliver` hands the client the oldest frame,
   `LiveRecord` a tip record (any stored height: a lagging subscriber skips some). `Cut`
   ends the connection wherever it is: a lost socket, an idle timeout or a restart.
   */
  datatype Event =
    | ServerStores(h: nat, anchor: Option<nat>)
    | Connect(floor: Option<nat>)
    | Send
    | SendNoise
    | Deliver(put: PutOutcome)
    | LiveRecord(h: nat, put: PutOutcome)
    | Cut

  /** First height the client lacks: the floor on a cold start, else one past its frontier. */
  function BootFrom(client: Db<Rec>, floor: Option<nat>): int {
    if client.Closed? then (if floor.Some? then floor.value else 0) else Contiguous(client) + 1
  }

  function ClientPut(client: Db<Rec>, floor: Option<nat>, r: Rec, put: PutOutcome): (c: Db<Rec>)
    requires ValidDb(client)
    ensures ValidDb(c)
  {
    if put == Refused || !Writable(client, r.block.height) then client
    else WriteBlock(client, floor, r.block.height, r)
  }

  /** The client's reaction to the oldest frame during bootstrap; a refused record ends the session. */
  function DeliverFrame(persist: Wire -> Option<Rec>, s: Sys, put: PutOutcome): Sys
    requires s.phase.Boot? && s.chan != [] && ValidDb(s.client)
  {
    var rest := s.chan[1..];
    if s.chan[0].Noise? then s.(chan := rest)
    else
      match persist(s.chan[0].wire)
      case None => s.(phase := Idle, chan := [])
      case Some(r) =>
        var client := ClientPut(s.client, s.phase.floor, r, put);
        if put != Done || !Writable(s.client, r.block.height) then s.(client := client, phase := Idle, chan := [])
        else if r.block.height >= s.phase.target then s.(client := client, phase := Live(s.phase.floor), chan := [])
        else s.(client := client, phase := s.phase.(got := r.block.height + 1), chan := rest)
  }

  function Step(truth: nat -> Rec, persist: Wire -> Option<Rec>, s: Sys, e: Event): Sys {
    if !ValidDb(s.server) || !ValidDb(s.client) then s
    else
      match e
      case ServerStores(h, anchor) =>
        if Writable(s.server, h) && h < U64_MAX then s.(server := WriteBlock(s.server, anchor, h, truth(h))) else s
      case Connect(floor) =>
        if !s.phase.Idle? || s.server.Closed? || Contiguous(s.server) < 0 then s
        else
          var target, from := Contiguous(s.server), BootFrom(s.client, floor);
          if from > target then s.(phase := Live(floor), chan := [])
          else if from < s.server.min then s
          else s.(phase := Boot(floor, from, target, from, from), chan := [])
      case Send =>
        if s.phase.Boot? && s.phase.cursor <= s.phase.target && Has(s.server, s.phase.cursor) then
          s.(chan := s.chan + [Payload(ToWire(s.server.blocks[s.phase.cursor]))],
             phase := s.phase.(cursor := s.phase.cursor + 1))
        else s
      case SendNoise => if s.phase.Boot? then s.(chan := s.chan + [Noise]) else s
      case Deliver(put) => if s.phase.Boot? && s.chan != [] then DeliverFrame(persist, s, put) else s
      case LiveRecord(h, put) =>
        if s.phase.Live? && Has(s.server, h) then
          match persist(ToWire(s.server.blocks[h]))
          case None => s
          case Some(r) => s.(client := ClientPut(s.client, s.phase.floor, r, put))
        else s
      case Cut => s.(phase := Idle, chan := [])
  }

  function Init(): Sys { Sys(Closed, Closed, Idle, []) }

  function History(truth: nat -> Rec, persist: Wire -> Option<Rec>, events: seq<Event>): Sys {
    if events == [] then Init()
    else Step(truth, persist, History(truth, persist, events[..|events| - 1]), events[|events| - 1])
  }

  // -------------------------------------------------------------- invariants

  /** The server's history is final and its records pass the client's check. */
  ghost predicate Faithful(truth: nat -> Rec, persist: Wire -> Option<Rec>) {
    forall h :: truth(h).block.height == h && persist(ToWire(truth(h))) == Some(truth(h))
  }

  /** A server that holds verified records satisfies this with the client's real check. */
  lemma VerifiedHistoryIsFaithful(sha: Sha256, truth: nat -> Rec)
    requires forall h :: truth(h).block.height == h && SelfVerifying(sha, truth(h).block)
    ensures Faithful(truth, Persist(sha))
  {
    forall h ensures truth(h).block.height == h && Persist(sha)(ToWire(truth(h))) == Some(truth(h)) {
      WireRoundTrip(sha, Malformed, truth(h));
    }
  }

  ghost predicate Holds(truth: nat -> Rec, db: Db<Rec>) {
    ValidDb(db) && (db.Open? ==> forall h :: h in db.blocks ==> db.blocks[h] == truth(h))
  }

  /** The client's records are the server's records. */
  ghost predicate Agrees(truth: nat -> Rec, s: Sys) {
    && Holds(truth, s.server) && Holds(truth, s.client)
    && (s.client.Open? ==> forall h :: h in s.client.blocks ==> Has(s.server, h))
  }

  /** The record frames under way are the records from `got` on, in order. */
  ghost predicate Queued(truth: nat -> Rec, chan: seq<Frame>, got: nat, cursor: nat)
    decreases |chan|
  {
    if chan == [] then got == cursor
    else if chan[0].Noise? then Queued(truth, chan[1..], got, cursor)
    else got < cursor && chan[0] == Payload(ToWire(truth(got))) && Queued(truth, chan[1..], got + 1, cursor)
  }

  /** Everything below `got` is in the client's store, down to its minimum. */
  ghost predicate FilledTo(client: Db<Rec>, floor: Option<nat>, from: nat, got: nat) {
    if client.Closed? then got == from == BootFrom(client, floor)
    else client.min <= from && from <= got && Covered(client, client.min, got - 1)
  }

  ghost predicate PhaseInv(truth: nat -> Rec, s: Sys) {
    match s.phase
    case Idle => true
    case Boot(floor, from, target, cursor, got) =>
      && s.server.Open? && s.server.min <= from <= got <= cursor <= target + 1 && got <= target
      && target <= Contiguous(s.server)
      && Queued(truth, s.chan, got, cursor)
      && FilledTo(s.client, floor, from, got)
    case Live(floor) => s.client.Closed? ==> floor.Some? && floor.value >= 1
  }

  ghost predicate Inv(truth: nat -> Rec, s: Sys) {
    && Agrees(truth, s) && PhaseInv(truth, s)
    && (s.client.Open? && s.client.min == 0 ==> 0 in s.client.blocks)
  }

  lemma {:induction false} QueuedSnoc(truth: nat -> Rec, chan: seq<Frame>, got: nat, cursor: nat, f: Frame)
    requires Queued(truth, chan, got, cursor)
    ensures f.Noise? ==> Queued(truth, chan + [f], got, cursor)
    ensures f == Payload(ToWire(truth(cursor))) ==> Queued(truth, chan + [f], got, cursor + 1)
  {
    if chan == [] {
    } else {
      assert (chan + [f])[1..] == chan[1..] + [f];
      QueuedSnoc(truth, chan[1..], if chan[0].Noise? then got else got + 1, cursor, f);
    }
  }

  lemma {:induction false} QueuedOrdered(truth: nat -> Rec, chan: seq<Frame>, got: nat, cursor: nat)
    requires Queued(truth, chan, got, cursor)
    ensures got <= cursor
  {
    if chan == [] {
    } else {
      QueuedOrdered(truth, chan[1..], if chan[0].Noise? then got else got + 1, cursor);
    }
  }

  lemma ClientPutKeeps(truth: nat -> Rec, s: Sys, floor: Option<nat>, h: nat, put: PutOutcome)
    requires Agrees(truth, s) && Has(s.server, h) && truth(h).block.height == h
    requires s.client.Open? && s.client.min == 0 ==> 0 in s.client.blocks
    requires s.client.Closed? && h > 0 ==> floor.None? || floor.value >= 1
    ensures var c := ClientPut(s.client, floor, truth(h), put);
            Agrees(truth, s.(client := c)) && Grows(s.client, c) && (c.Open? && c.min == 0 ==> 0 in c.blocks)
  {
  }

  /** Storing the record the client waits for extends what it has filled. */
  lemma NextFills(client: Db<Rec>, floor: Option<nat>, from: nat, r: Rec, put: PutOutcome)
    requires ValidDb(client) && FilledTo(client, floor, from, r.block.height) && put != Refused
    ensures Writable(client, r.block.height)
    ensures var c := ClientPut(client, floor, r, put); c.Open? && FilledTo(c, floor, from, r.block.height + 1)
  {
  }

  /** A payload frame carries the record the client waits for, and storing it keeps what is known. */
  lemma DeliverPayload(truth: nat -> Rec, persist: Wire -> Option<Rec>, s: Sys, put: PutOutcome)
    requires Faithful(truth, persist) && Inv(truth, s) && s.phase.Boot? && s.chan != [] && s.chan[0].Payload?
    ensures persist(s.chan[0].wire) == Some(truth(s.phase.got))
    ensures s.phase.got < s.phase.cursor && Queued(truth, s.chan[1..], s.phase.got + 1, s.phase.cursor)
    ensures var c := ClientPut(s.client, s.phase.floor, truth(s.phase.got), put);
            && Agrees(truth, s.(client := c)) && Grows(s.client, c) && (c.Open? && c.min == 0 ==> 0 in c.blocks)
            && (put != Refused ==> c.Open? && FilledTo(c, s.phase.floor, s.phase.from, s.phase.got + 1))
            && (put != Refused ==> Writable(s.client, s.phase.got))
  {
    hide HoleFrom, Agrees, Grows;
    var got := s.phase.got;
    assert s.chan[0] == Payload(ToWire(truth(got)));
    assert truth(got).block.height == got;
    FrontierIff(s.server, s.phase.target);
    assert Has(s.server, got);
    AgreesValid(truth, s);
    ClientPutKeeps(truth, s, s.phase.floor, got, put);
    if put != Refused { NextFills(s.client, s.phase.floor, s.phase.from, truth(got), put); }
  }

  lemma AgreesValid(truth: nat -> Rec, s: Sys)
    requires Agrees(truth, s)
    ensures ValidDb(s.server) && ValidDb(s.client)
  {
  }

  lemma DeliverKeeps(truth: nat -> Rec, persist: Wire -> Option<Rec>, s: Sys, put: PutOutcome)
    requires Faithful(truth, persist) && Inv(truth, s) && s.phase.Boot? && s.chan != []
    ensures var s' := DeliverFrame(persist, s, put);
            && Inv(truth, s') && s'.server == s.server && Grows(s.client, s'.client)
            && (s'.phase.Live? ==>
                  && s'.client.Open? && s'.client.min <= s.phase.from
                  && Covered(s'.client, s'.client.min, s.phase.target))
  {
    hide Contiguous, Agrees, Faithful, ClientPut, Writable;
    AgreesValid(truth, s);
    if s.chan[0].Payload? {
      DeliverPayload(truth, persist, s, put);
      assert truth(s.phase.got).block.height == s.phase.got by { FaithfulHeight(truth, persist, s.phase.got); }
      var s' := DeliverFrame(persist, s, put);
      AgreesFrame(truth, s.(client := s'.client), s');
    } else {
      AgreesFrame(truth, s, s.(chan := s.chan[1..]));
    }
  }

  lemma FaithfulHeight(truth: nat -> Rec, persist: Wire -> Option<Rec>, h: nat)
    requires Faithful(truth, persist)
    ensures truth(h).block.height == h
  {
  }

  lemma AgreesFrame(truth: nat -> Rec, s: Sys, s': Sys)
    requires Agrees(truth, s) && s'.server == s.server && s'.client == s.client
    ensures Agrees(truth, s')
  {
  }

  lemma ConnectKeeps(truth: nat -> Rec, persist: Wire -> Option<Rec>, s: Sys, floor: Option<nat>)
    requires Inv(truth, s)
    ensures var s' := Step(truth, persist, s, Connect(floor));
            Inv(truth, s') && s'.server == s.server && s'.client == s.client
  {
    if s.client.Open? {
      FrontierIff(s.client, Contiguous(s.client));
    }
  }

  lemma ServerKeeps(truth: nat -> Rec, persist: Wire -> Option<Rec>, s: Sys, h: nat, anchor: Option<nat>)
    requires Inv(truth, s)
    ensures var s' := Step(truth, persist, s, ServerStores(h, anchor));
            Inv(truth, s') && Grows(s.server, s'.server) && s'.client == s.client
  {
    var s' := Step(truth, persist, s, ServerStores(h, anchor));
    if s.server.Open? { FrontierGrows(s.server, s'.server); }
  }

  lemma SendKeeps(truth: nat -> Rec, persist: Wire -> Option<Rec>, s: Sys, e: Event)
    requires Inv(truth, s) && (e.Send? || e.SendNoise?)
    ensures var s' := Step(truth, persist, s, e);
            Inv(truth, s') && s'.server == s.server && s'.client == s.client
  {
    if s.phase.Boot? {
      QueuedSnoc(truth, s.chan, s.phase.got, s.phase.cursor, Payload(ToWire(truth(s.phase.cursor))));
      QueuedSnoc(truth, s.chan, s.phase.got, s.phase.cursor, Noise);
    }
  }

  lemma LiveKeeps(truth: nat -> Rec, persist: Wire -> Option<Rec>, s: Sys, h: nat, put: PutOutcome)
    requires Faithful(truth, persist) && Inv(truth, s)
    ensures var s' := Step(truth, persist, s, LiveRecord(h, put));
            Inv(truth, s') && s'.server == s.server && Grows(s.client, s'.client)
  {
    if s.phase.Live? && Has(s.server, h) { ClientPutKeeps(truth, s, s.phase.floor, h, put); }
  }

  lemma StepKeeps(truth: nat -> Rec, persist: Wire -> Option<Rec>, s: Sys, e: Event)
    requires Faithful(truth, persist) && Inv(truth, s)
    ensures var s' := Step(truth, persist, s, e);
            Inv(truth, s') && Grows(s.server, s'.server) && Grows(s.client, s'.client)
  {
    hide Inv, PhaseInv, Agrees, Contiguous, Faithful, DeliverFrame;
    InvValid(truth, s);
    match e
    case ServerStores(h, anchor) => ServerKeeps(truth, persist, s, h, anchor);
    case Connect(floor) => ConnectKeeps(truth, persist, s, floor);
    case Send => SendKeeps(truth, persist, s, e);
    case SendNoise => SendKeeps(truth, persist, s, e);
    case Deliver(put) => if s.phase.Boot? && s.chan != [] { DeliverKeeps(truth, persist, s, put); }
    case LiveRecord(h, put) => LiveKeeps(truth, persist, s, h, put);
    case Cut => CutKeeps(truth, s);
  }

  lemma InvValid(truth: nat -> Rec, s: Sys)
    requires Inv(truth, s)
    ensures ValidDb(s.server) && ValidDb(s.client)
  {
  }

  lemma CutKeeps(truth: nat -> Rec, s: Sys)
    requires Inv(truth, s)
    ensures Inv(truth, s.(phase := Idle, chan := []))
  {
  }

  lemma {:induction false} HistoryKeeps(truth: nat -> Rec, persist: Wire -> Option<Rec>, events: seq<Event>)
    requires Faithful(truth, persist)
    ensures Inv(truth, History(truth, persist, events))
  {
    if events == [] {
    } else {
      HistoryKeeps(truth, persist, events[..|events| - 1]);
      StepKeeps(truth, persist, History(truth, persist, events[..|events| - 1]), events[|events| - 1]);
    }
  }

  // ------------------------------------------------------------ main results

  /**
   For every interleaving and every cut: what the client holds is what the server holds,
   and during a bootstrap the client holds a gap-free prefix of the requested range.
   */
  lemma MirrorAgrees(truth: nat -> Rec, persist: Wire -> Option<Rec>, events: seq<Event>, h: nat)
    requires Faithful(truth, persist)
    ensures var s := History(truth, persist, events);
            && (Has(s.client, h) ==> Has(s.server, h) && s.client.blocks[h] == s.server.blocks[h])
            && (s.phase.Boot? && s.phase.from <= h < s.phase.got ==> Has(s.client, h))
  {
    HistoryKeeps(truth, persist, events);
  }

  /**
   A bootstrap that completes leaves the client agreeing with the server on all of
   [from..=target], with no hole left anywhere at or below the target.
   */
  lemma BootstrapHeals(truth: nat -> Rec, persist: Wire -> Option<Rec>, events: seq<Event>, e: Event, h: nat)
    requires Faithful(truth, persist)
    requires History(truth, persist, events).phase.Boot?
    requires History(truth, persist, events + [e]).phase.Live?
    ensures var s, s' := History(truth, persist, events), History(truth, persist, events + [e]);
            && Contiguous(s'.client) >= s.phase.target
            && (s.phase.from <= h <= s.phase.target ==>
                  Has(s'.client, h) && Has(s'.server, h) && s'.client.blocks[h] == s'.server.blocks[h])
            && (s'.client.Open? && s'.client.min <= h <= s.phase.target ==> Has(s'.client, h))
  {
    var s := History(truth, persist, events);
    HistoryKeeps(truth, persist, events);
    assert (events + [e])[..|events|] == events;
    DeliverKeeps(truth, persist, s, e.put);
    var s' := History(truth, persist, events + [e]);
    StepKeeps(truth, persist, s, e);
    FrontierIff(s'.client, s.phase.target);
  }

  /** Over any sequence of sessions an open client keeps its minimum and its frontier never falls. */
  lemma {:induction false} FrontierNeverFalls(
      truth: nat -> Rec, persist: Wire -> Option<Rec>, events: seq<Event>, k: nat)
    requires Faithful(truth, persist) && k <= |events|
    ensures var before, now := History(truth, persist, events[..k]), History(truth, persist, events);
            before.client.Open? ==>
              && now.client.Open? && now.client.min == before.client.min
              && Contiguous(before.client) <= Contiguous(now.client)
  {
    hide Inv, Step, Contiguous, Faithful;
    if k == |events| {
      assert events[..k] == events;
    } else {
      var n := |events| - 1;
      FrontierNeverFalls(truth, persist, events[..n], k);
      assert events[..n][..k] == events[..k];
      HistoryKeeps(truth, persist, events[..n]);
      var s := History(truth, persist, events[..n]);
      StepKeeps(truth, persist, s, events[n]);
      if s.client.Open? { FrontierGrows(s.client, History(truth, persist, events).client); }
    }
  }

  // ----------------------------------------------------- does a mirror start?

  /** The floor a cold mirror asks from; without one it asks from genesis. */
  function ColdStart(floor: Option<nat>): nat { if floor.Some? then floor.value else 0 }

  /** A connection gets going exactly when what it asks for is not below the server's minimum. */
  lemma ConnectStartsIff(truth: nat -> Rec, persist: Wire -> Option<Rec>, s: Sys, floor: Option<nat>)
    requires ValidDb(s.server) && ValidDb(s.client) && s.phase.Idle?
    requires s.server.Open? && Contiguous(s.server) >= 0
    ensures !Step(truth, persist, s, Connect(floor)).phase.Idle? <==> BootFrom(s.client, floor) >= s.server.min
    ensures s.client.Closed? ==> BootFrom(s.client, floor) == ColdStart(floor)
  {
    FrontierIff(s.server, s.server.min - 1);
  }

  /**
   So a cold mirror whose floors all lie below the server's minimum stores nothing, over every
   history: the range is refused, the session ends there, and it never comes to follow the tip.
   A mirror without a floor of a server that does not start at genesis is the case `low == 1`.
   */
  lemma {:induction false} LowFloorNeverStarts(
      truth: nat -> Rec, persist: Wire -> Option<Rec>, events: seq<Event>, low: nat)
    requires forall k :: 0 <= k < |events| && events[k].Connect? ==> ColdStart(events[k].floor) < low
    ensures var s := History(truth, persist, events);
            s.server.Closed? || s.server.min >= low ==> s.client.Closed? && s.phase.Idle?
  {
    hide Step;
    if events == [] {
    } else {
      var n := |events| - 1;
      assert forall k :: 0 <= k < n ==> events[..n][k] == events[k];
      LowFloorNeverStarts(truth, persist, events[..n], low);
      StepNeverStarts(truth, persist, History(truth, persist, events[..n]), events[n], low);
    }
  }

  lemma StepNeverStarts(truth: nat -> Rec, persist: Wire -> Option<Rec>, s: Sys, e: Event, low: nat)
    requires s.server.Closed? || s.server.min >= low ==> s.client.Closed? && s.phase.Idle?
    requires e.Connect? ==> ColdStart(e.floor) < low
    ensures var s' := Step(truth, persist, s, e);
            s'.server.Closed? || s'.server.min >= low ==> s'.client.Closed? && s'.phase.Idle?
  {
    hide Persist, Contiguous, ClientPut;
    if e.Connect? && s.server.Open? { FrontierIff(s.server, s.server.min - 1); }
  }

  // -------------------------------------------------------------- progress

  /** A record followed live is stored, and one that continues the frontier moves it. */
  lemma LiveRecordStores(truth: nat -> Rec, persist: Wire -> Option<Rec>, s: Sys, h: nat, put: PutOutcome)
    requires Faithful(truth, persist) && Inv(truth, s) && s.phase.Live?
    requires Has(s.server, h) && Writable(s.client, h) && put != Refused
    ensures var s' := Step(truth, persist, s, LiveRecord(h, put));
            && s'.phase == s.phase && s'.server == s.server
            && Has(s'.client, h) && s'.client.blocks[h] == s.server.blocks[h]
            && (forall g :: g != h && Has(s.client, g) ==>
                  Has(s'.client, g) && s'.client.blocks[g] == s.client.blocks[g])
            && (s.client.Open? && h == Contiguous(s.client) + 1 ==> Contiguous(s'.client) >= h)
  {
    hide PhaseInv;
    var s' := Step(truth, persist, s, LiveRecord(h, put));
    if s.client.Open? && h == Contiguous(s.client) + 1 {
      FrontierIff(s.client, h - 1);
      assert Covered(s'.client, s'.client.min, h);
      FrontierIff(s'.client, h);
    }
  }

  /** A record that does not verify, or whose put fails, ends the session; nothing it follows is lost. */
  lemma FailureEndsTheSession(truth: nat -> Rec, persist: Wire -> Option<Rec>, s: Sys, put: PutOutcome)
    requires ValidDb(s.server) && ValidDb(s.client) && s.phase.Boot? && s.chan != [] && s.chan[0].Payload?
    ensures var s', r := Step(truth, persist, s, Deliver(put)), persist(s.chan[0].wire);
            && Grows(s.client, s'.client)
            && (r.None? ==> s' == s.(phase := Idle, chan := []))
            && (r.Some? && put != Done ==> s'.phase.Idle? && s'.chan == [])
            && (put == Refused ==> s'.client == s.client)
  {
  }

  /** What happens around the client: the server stores, the wire carries noise, a cut ends the connection only. */
  lemma Surroundings(truth: nat -> Rec, persist: Wire -> Option<Rec>, s: Sys, h: nat, anchor: Option<nat>)
    requires ValidDb(s.server) && ValidDb(s.client)
    ensures var t := Step(truth, persist, s, ServerStores(h, anchor));
            && t.client == s.client && t.phase == s.phase && t.chan == s.chan
            && (Writable(s.server, h) && h < U64_MAX ==> Has(t.server, h) && t.server.blocks[h] == truth(h))
            && forall g :: g != h ==> (Has(t.server, g) <==> Has(s.server, g))
    ensures Step(truth, persist, s, Cut) == Sys(s.server, s.client, Idle, [])
    ensures s.phase.Boot? ==> Step(truth, persist, s, SendNoise) == s.(chan := s.chan + [Noise])
    ensures s.phase.Boot? && s.chan != [] && s.chan[0].Noise? ==>
              Step(truth, persist, s, Deliver(Done)) == s.(chan := s.chan[1..])
  {
  }

  lemma HistorySnoc(truth: nat -> Rec, persist: Wire -> Option<Rec>, events: seq<Event>, e: Event)
    ensures History(truth, persist, events + [e]) == Step(truth, persist, History(truth, persist, events), e)
  {
    assert (events + [e])[..|events|] == events;
  }

  lemma NextToSend(truth: nat -> Rec, s: Sys)
    requires Inv(truth, s) && s.phase.Boot? && s.chan == []
    ensures s.phase.cursor == s.phase.got <= s.phase.target
    ensures Has(s.server, s.phase.got) && s.server.blocks[s.phase.got] == truth(s.phase.got)
  {
    FrontierIff(s.server, s.phase.target);
    assert s.phase.got in s.server.blocks;
  }

  /** One record sent and delivered. */
  lemma RoundDelivers(truth: nat -> Rec, persist: Wire -> Option<Rec>, s: Sys)
    requires Faithful(truth, persist) && Inv(truth, s) && s.phase.Boot? && s.chan == []
    ensures var s' := Step(truth, persist, Step(truth, persist, s, Send), Deliver(Done));
            && s'.server == s.server && s'.chan == []
            && (if s.phase.got == s.phase.target then s'.phase.Live?
                else s'.phase == s.phase.(got := s.phase.got + 1, cursor := s.phase.got + 1))
  {
    hide Inv, Contiguous, Queued, Faithful, ClientPut;
    var got := s.phase.got;
    InvValid(truth, s);
    NextToSend(truth, s);
    SendKeeps(truth, persist, s, Send);
    var sent := Step(truth, persist, s, Send);
    assert sent.chan == [Payload(ToWire(truth(got)))] && sent.phase == s.phase.(cursor := got + 1);
    assert sent.chan[1..] == [];
    DeliverPayload(truth, persist, sent, Done);
    FaithfulHeight(truth, persist, got);
  }

  /** A bootstrap under way with nothing on the wire, whose records are sent and delivered, goes live. */
  lemma {:induction false} RoundsGoLive(truth: nat -> Rec, persist: Wire -> Option<Rec>, events: seq<Event>)
    returns (more: seq<Event>)
    requires Faithful(truth, persist)
    requires History(truth, persist, events).phase.Boot? && History(truth, persist, events).chan == []
    ensures var s, s' := History(truth, persist, events), History(truth, persist, events + more);
            && s'.phase.Live? && s'.server == s.server
            && s'.client.Open? && Contiguous(s'.client) >= s.phase.target
    decreases var phase := History(truth, persist, events).phase; phase.target + 1 - phase.got
  {
    hide Step, Inv;
    var s := History(truth, persist, events);
    HistoryKeeps(truth, persist, events);
    GotWithinTarget(truth, s);
    RoundDelivers(truth, persist, s);
    HistorySnoc(truth, persist, events, Send);
    HistorySnoc(truth, persist, events + [Send], Deliver(Done));
    var round := events + [Send] + [Deliver(Done)];
    if s.phase.got == s.phase.target {
      more := [Send, Deliver(Done)];
      assert events + more == round;
      SendBoots(truth, persist, s);
      BootstrapHeals(truth, persist, events + [Send], Deliver(Done), s.phase.target);
    } else {
      var rest := RoundsGoLive(truth, persist, round);
      more := [Send, Deliver(Done)] + rest;
      assert events + more == round + rest;
    }
  }

  lemma SendBoots(truth: nat -> Rec, persist: Wire -> Option<Rec>, s: Sys)
    requires s.phase.Boot?
    ensures var s' := Step(truth, persist, s, Send);
            s'.phase.Boot? && s'.phase.target == s.phase.target && s'.phase.from == s.phase.from
  {
  }

  lemma GotWithinTarget(truth: nat -> Rec, s: Sys)
    requires Inv(truth, s) && s.phase.Boot?
    ensures s.phase.from <= s.phase.got <= s.phase.target
  {
  }

  /** A connection that starts streams up to the server's frontier, or follows live when there is nothing to stream. */
  lemma ConnectLeads(truth: nat -> Rec, persist: Wire -> Option<Rec>, s: Sys, floor: Option<nat>)
    requires ValidDb(s.server) && ValidDb(s.client) && s.phase.Idle?
    requires s.server.Open? && Contiguous(s.server) >= 0 && BootFrom(s.client, floor) >= s.server.min
    ensures var s' := Step(truth, persist, s, Connect(floor));
            && s'.server == s.server && s'.client == s.client && s'.chan == []
            && (s'.phase.Boot? ==> s'.phase.target == Contiguous(s.server))
            && (!s'.phase.Boot? ==> s'.phase.Live?)
            && (s'.phase.Live? ==> if s.client.Open? then Contiguous(s.client) >= Contiguous(s.server)
                                   else ColdStart(floor) > Contiguous(s.server))
  {
  }

  /**
   What a connection is for: one that may start, on a server that stands still, can always end
   live with the client's frontier at or past the server's (or with nothing to store, when the
   floor lies above it).
   */
  lemma ConnectionCatchesUp(truth: nat -> Rec, persist: Wire -> Option<Rec>, events: seq<Event>, floor: Option<nat>)
    returns (more: seq<Event>)
    requires Faithful(truth, persist)
    requires var s := History(truth, persist, events);
             && s.phase.Idle? && s.server.Open? && Contiguous(s.server) >= 0
             && BootFrom(s.client, floor) >= s.server.min
    ensures var s, s' := History(truth, persist, events), History(truth, persist, events + more);
            && s'.phase.Live? && s'.server == s.server
            && (if s'.client.Open? then Contiguous(s'.client) >= Contiguous(s.server)
                else ColdStart(floor) > Contiguous(s.server))
  {
    hide Contiguous, Inv, Step, BootFrom;
    var s := History(truth, persist, events);
    HistoryKeeps(truth, persist, events);
    HistorySnoc(truth, persist, events, Connect(floor));
    InvValid(truth, s);
    ConnectLeads(truth, persist, s, floor);
    var s1 := History(truth, persist, events + [Connect(floor)]);
    if s1.phase.Live? {
      more := [Connect(floor)];
    } else {
      var rest := RoundsGoLive(truth, persist, events + [Connect(floor)]);
      more := [Connect(floor)] + rest;
      assert events + more == events + [Connect(floor)] + rest;
    }
  }

  // ------------------------------------------- the two loops, as each side runs

  /** Where a stream is headed: its fixed end, or the contiguous tip of the moment. */
  function Target(end: Option<nat>, db: Db<Rec>): int { if end.Some? then end.value else Contiguous(db) }

  /** The store only grows: from the checks to each read of the tip, and from there to the read of the record. */
  ghost predicate Advances(truth: nat -> Rec, checked: Db<Rec>, tipView: nat -> Db<Rec>, view: nat -> Db<Rec>) {
    && Holds(truth, checked)
    && forall k: nat ::
         && Holds(truth, tipView(k)) && Grows(checked, tipView(k))
         && Holds(truth, view(k)) && Grows(tipView(k), view(k))
  }

  lemma NextIsStored(truth: nat -> Rec, checked: Db<Rec>, tipView: nat -> Db<Rec>, view: nat -> Db<Rec>,
                     end: Option<nat>, k: nat, h: nat)
    requires Advances(truth, checked, tipView, view) && checked.Open? && checked.min <= h <= Target(end, tipView(k))
    requires end.Some? ==> end.value <= Contiguous(checked)
    ensures Has(view(k), h) && view(k).blocks[h] == truth(h)
  {
    FrontierGrows(checked, tipView(k));
    FrontierIff(tipView(k), h);
    assert h in tipView(k).blocks;
  }

  /**
   `serve_range`, with a fixed end or following the tip. `checked` is the store the request
   is checked against, `tipView(k)` and `view(k)` the store when round `k` reads the tip and
   the record, and `taken` how many sends the socket accepts. A range that cannot be served
   without a gap is refused up front. An accepted one sends the records in order, never meets
   a hole, and stops only with the socket or past its target: the fixed end, or the tip
   wherever it has moved by then. At the largest height of all `saturating_add(1)` stands
   still, so a range ending there repeats its last record until the socket closes.
   */
  method ServeRange(ghost truth: nat -> Rec, checked: Db<Rec>, tipView: nat -> Db<Rec>, view: nat -> Db<Rec>,
                    start: nat, end: Option<nat>, taken: nat)
    returns (r: Option<seq<Frame>>)
    requires Advances(truth, checked, tipView, view)
    requires start <= U64_MAX && (end.Some? ==> end.value <= U64_MAX)
    ensures r.None? <==> checked.Closed? || start < checked.min
                         || (end.Some? && (end.value < start || end.value > Contiguous(checked)))
    ensures r.Some? ==> |r.value| <= taken && forall k :: 0 <= k < |r.value| ==>
              && r.value[k] == Payload(ToWire(truth(SaturatingAdd(start, k))))
              && SaturatingAdd(start, k) <= Target(end, tipView(k))
    ensures r.Some? && start + |r.value| <= U64_MAX + 1 ==> Queued(truth, r.value, start, start + |r.value|)
    ensures r.Some? && |r.value| < taken ==>
              var h := SaturatingAdd(start, |r.value|);
              h > Target(end, tipView(|r.value|)) && h > Target(end, checked)
    ensures r.Some? && end.Some? ==>
              |r.value| == if end.value < U64_MAX then Min(taken, end.value + 1 - start) else taken
  {
    hide Advances, Contiguous, Queued, ToWire;
    if checked.Closed? || start < checked.min || (end.Some? && (end.value < start || end.value > Contiguous(checked))) {
      return None;
    }
    var frames: seq<Frame> := [];
    NoneQueued(truth, start);
    var h := start;
    while |frames| < taken
      invariant h == SaturatingAdd(start, |frames|) && |frames| <= taken
      invariant forall k :: 0 <= k < |frames| ==>
                  && frames[k] == Payload(ToWire(truth(SaturatingAdd(start, k))))
                  && SaturatingAdd(start, k) <= Target(end, tipView(k))
      invariant start + |frames| <= U64_MAX + 1 ==> Queued(truth, frames, start, start + |frames|)
      invariant end.Some? && end.value < U64_MAX ==> start + |frames| <= end.value + 1
      decreases taken - |frames|
    {
      var k := |frames|;
      TipGrows(truth, checked, tipView, view, k);
      if h > Target(end, tipView(k)) {
        break;
      }
      NextIsStored(truth, checked, tipView, view, end, k, h);
      var frame := Payload(ToWire(view(k).blocks[h]));
      if start + k <= U64_MAX { QueuedSnoc(truth, frames, start, start + k, frame); }
      frames := frames + [frame];
      h := SaturatingAdd(h, 1);
    }
    return Some(frames);
  }

  lemma NoneQueued(truth: nat -> Rec, start: nat)
    ensures Queued(truth, [], start, start)
  {
  }

  lemma TipGrows(truth: nat -> Rec, checked: Db<Rec>, tipView: nat -> Db<Rec>, view: nat -> Db<Rec>, h: nat)
    requires Advances(truth, checked, tipView, view) && checked.Open?
    ensures Contiguous(checked) <= Contiguous(tipView(h))
  {
    FrontierGrows(checked, tipView(h));
  }

  /**
   `bootstrap` on the frames that arrive before the connection ends. Whatever the cut and
   whichever put fails, the client has filled exactly the prefix [from..got) of the range and
   only the cut or a failed put ended it there; `done` exactly when the prefix reaches the target.
   */
  method Bootstrap(ghost truth: nat -> Rec, persist: Wire -> Option<Rec>, client: Db<Rec>, floor: Option<nat>,
                   from: nat, target: nat, frames: seq<Frame>, put: nat -> PutOutcome, ghost cursor: nat)
    returns (db: Db<Rec>, done: bool, ghost got: nat)
    requires Faithful(truth, persist) && Holds(truth, client)
    requires from == BootFrom(client, floor) && from <= target && cursor <= target + 1
    requires Queued(truth, frames, from, cursor)
    ensures Holds(truth, db) && Grows(client, db)
    ensures from <= got <= target + 1 && FilledTo(db, floor, from, got)
    ensures !done ==> got == cursor || put(got) == Refused || (got > from && put(got - 1) == Half)
    ensures done ==> got == target + 1 && db.Open? && Covered(db, db.min, target) && Contiguous(db) >= target
    ensures done <==> cursor == target + 1 && forall h :: from <= h <= target ==> put(h) == Done
  {
    hide Holds, Grows, FilledTo, Covered, Contiguous, BootFrom, ClientPut;
    db, got := client, from;
    StartFills(truth, client, floor, from);
    var rest := frames;
    while rest != []
      invariant from <= got <= target && Queued(truth, rest, got, cursor)
      invariant ValidDb(db) && Holds(truth, db) && Grows(client, db) && FilledTo(db, floor, from, got)
      invariant forall h :: from <= h < got ==> put(h) == Done
      decreases |rest|
    {
      QueuedOrdered(truth, rest, got, cursor);
      var frame := rest[0];
      rest := rest[1..];
      if frame.Payload? {
        var r := persist(frame.wire);
        if r.None? {
          return db, false, got;
        }
        assert r.value == truth(got);
        var h := r.value.block.height;
        PutFills(truth, client, db, floor, from, got, put(h));
        db := ClientPut(db, floor, r.value, put(h));
        if put(h) != Refused {
          got := got + 1;
        }
        if put(h) != Done {
          return db, false, got;
        }
        QueuedOrdered(truth, rest, got, cursor);
        if h >= target {
          FilledReaches(db, floor, from, target);
          return db, true, got;
        }
      }
    }
    done := false;
  }

  lemma StartFills(truth: nat -> Rec, client: Db<Rec>, floor: Option<nat>, from: nat)
    requires Holds(truth, client) && from == BootFrom(client, floor)
    ensures ValidDb(client) && Grows(client, client) && FilledTo(client, floor, from, from)
  {
    if client.Open? { FrontierIff(client, Contiguous(client)); }
  }

  lemma FilledReaches(db: Db<Rec>, floor: Option<nat>, from: nat, target: nat)
    requires db.Open? && FilledTo(db, floor, from, target + 1)
    ensures Covered(db, db.min, target) && Contiguous(db) >= target
  {
    FrontierIff(db, target);
  }

  lemma PutFills(
      truth: nat -> Rec, client: Db<Rec>, db: Db<Rec>, floor: Option<nat>, from: nat, got: nat, put: PutOutcome)
    requires Holds(truth, db) && Grows(client, db) && truth(got).block.height == got
    requires from == BootFrom(client, floor) && FilledTo(db, floor, from, got)
    ensures var db' := ClientPut(db, floor, truth(got), put);
            && Holds(truth, db') && Grows(client, db')
            && (if put == Refused then db' == db else db'.Open? && FilledTo(db', floor, from, got + 1))
  {
    if put != Refused { NextFills(db, floor, from, truth(got), put); }
  }
}
