/**
 Request pacing: a pacer hands out slots at least an interval apart, and every upstream
 request claims one from the host-wide pacer and then one from its chain's own.
 Times are whole clock units.
 */
module Pacing {
  import opened U64

  /** The slot a claim at time `now` gets, and the pacer's next free slot afterwards. */
  function Claim(interval: nat, next: nat, now: nat): (nat, nat) {
    if interval == 0 then (now, next)
    else
      var slot := Max(next, now);
      (slot, slot + interval)
  }

  class Pacer {
    const interval: nat
    var nextSlot: nat

    constructor (interval: nat, now: nat)
      ensures this.interval == interval && nextSlot == now
    {
      this.interval, this.nextSlot := interval, now;
    }

    /** `wait`, up to the sleep: claim a slot under the lock and bump. */
    method Wait(now: nat) returns (slot: nat)
      modifies this
      ensures (slot, nextSlot) == Claim(interval, old(nextSlot), now)
      ensures slot >= now && (interval > 0 ==> slot >= old(nextSlot) && nextSlot == slot + interval)
    {
      if interval == 0 {
        return now;
      }
      slot := if nextSlot < now then now else nextSlot;
      nextSlot := slot + interval;
    }
  }

  // ----------------------------------------------------- counting in a window

  ghost predicate Spaced(slots: seq<nat>, interval: nat) {
    forall i, j :: 0 <= i < j < |slots| ==> slots[j] - slots[i] >= (j - i) * interval
  }

  lemma {:induction false} BoundedSetSize(s: set<nat>, lo: nat, n: nat)
    requires forall x :: x in s ==> lo <= x < lo + n
    ensures |s| <= n
  {
    if n == 0 {
      assert s == {};
    } else {
      BoundedSetSize(s - {lo + n - 1}, lo, n - 1);
    }
  }

  lemma WithinInterval(d: nat, interval: nat, length: nat)
    requires interval > 0 && d * interval <= length
    ensures d <= length / interval
  {
    var q := length / interval;
    if d > q { MulGrows(q + 1, d, interval); }
  }

  lemma MulGrows(a: nat, b: nat, c: nat)
    requires a <= b
    ensures a * c <= b * c
  {
  }

  /** Two slots of one window are at most floor(L / interval) claims apart. */
  lemma WindowSpan(slots: seq<nat>, interval: nat, length: nat, a: nat, b: nat)
    requires interval > 0 && Spaced(slots, interval) && a <= b < |slots| && slots[b] <= slots[a] + length
    ensures b - a <= length / interval
  {
    if a < b {
      assert slots[b] - slots[a] >= (b - a) * interval;
      WithinInterval(b - a, interval, length);
    }
  }

  /** Any window of length L holds at most floor(L / interval) + 1 slots. */
  lemma WindowHolds(slots: seq<nat>, interval: nat, start: nat, length: nat)
    requires interval > 0 && Spaced(slots, interval)
    ensures |InWindow(slots, start, length)| <= length / interval + 1
  {
    hide Spaced;
    var hits, n := InWindow(slots, start, length), length / interval;
    if hits != {} {
      var first := Least(hits);
      forall i | i in hits ensures first <= i < first + (n + 1) { WindowSpan(slots, interval, length, first, i); }
      BoundedSetSize(hits, first, n + 1);
    }
  }

  function InWindow(slots: seq<nat>, start: nat, length: nat): set<nat> {
    set i: nat | i < |slots| && start <= slots[i] <= start + length
  }

  lemma {:induction false} Least(s: set<nat>) returns (m: nat)
    requires s != {}
    ensures m in s && forall x :: x in s ==> m <= x
  {
    var x :| x in s;
    if s == {x} {
      m := x;
    } else {
      var rest := s - {x};
      var r := Least(rest);
      m := if x < r then x else r;
      forall y | y in s ensures m <= y { assert y == x || y in rest; }
    }
  }

  // ------------------------------------------------- two pacers in sequence

  /** Where a request is: waiting for its host slot, for its chain slot, or sent. */
  datatype Stage = AtHost | AtChain(slot: nat) | Released(at: nat)

  datatype Request = Request(chain: nat, hostSlot: nat, stage: Stage)

  /** One chain's pacer and the slots it has handed out, in claim order. */
  datatype ChainPacer = ChainPacer(interval: nat, next: nat, slots: seq<nat>)

  /** All chains of a process behind one host pacer; `requests` is in host-claim order. */
  datatype Process = Process(now: nat, interval: nat, next: nat, chains: seq<ChainPacer>, requests: seq<Request>)

  /**
   `HostClaim` starts a request on a chain. Once its host slot has come it may claim from
   its chain (`ChainClaim`), and once that slot has come it may be sent (`Release`), in any
   order across requests and as late as the scheduler likes.
   */
  datatype Event = Tick(d: nat) | HostClaim(chain: nat) | ChainClaim(i: nat) | Release(i: nat)

  function Step(p: Process, e: Event): Process {
    match e
    case Tick(d) => p.(now := p.now + d)
    case HostClaim(c) =>
      if c >= |p.chains| then p
      else
        var (slot, next) := Claim(p.interval, p.next, p.now);
        p.(next := next, requests := p.requests + [Request(c, slot, AtHost)])
    case ChainClaim(i) =>
      if i >= |p.requests| || !p.requests[i].stage.AtHost? || p.now < p.requests[i].hostSlot then p
      else if p.requests[i].chain >= |p.chains| then p
      else
        var r := p.requests[i];
        var c := p.chains[r.chain];
        var (slot, next) := Claim(c.interval, c.next, p.now);
        p.(chains := p.chains[r.chain := ChainPacer(c.interval, next, c.slots + [slot])],
           requests := p.requests[i := r.(stage := AtChain(slot))])
    case Release(i) =>
      if i >= |p.requests| || !p.requests[i].stage.AtChain? || p.now < p.requests[i].stage.slot then p
      else p.(requests := p.requests[i := p.requests[i].(stage := Released(p.now))])
  }

  function History(p: Process, events: seq<Event>): Process {
    if events == [] then p else Step(History(p, events[..|events| - 1]), events[|events| - 1])
  }

  predicate Fresh(p: Process) {
    p.next == p.now && p.requests == [] && forall c :: 0 <= c < |p.chains| ==> p.chains[c].slots == []
  }

  function HostSlots(p: Process): (s: seq<nat>)
    ensures |s| == |p.requests| && forall i :: 0 <= i < |s| ==> s[i] == p.requests[i].hostSlot
  {
    seq(|p.requests|, i requires 0 <= i < |p.requests| => p.requests[i].hostSlot)
  }

  /** Slots are spaced, start no earlier than `t0`, and all lie an interval below the next free one. */
  ghost predicate PacerInv(slots: seq<nat>, interval: nat, next: nat) {
    interval > 0 ==>
      && Spaced(slots, interval)
      && forall i :: 0 <= i < |slots| ==> next - slots[i] >= (|slots| - i) * interval
  }

  ghost predicate Inv(p: Process, t0: nat) {
    && PacerInv(HostSlots(p), p.interval, p.next)
    && (forall c :: 0 <= c < |p.chains| ==> PacerInv(p.chains[c].slots, p.chains[c].interval, p.chains[c].next))
    && (forall i :: 0 <= i < |p.requests| ==>
          && p.requests[i].hostSlot >= t0
          && (p.requests[i].stage.AtChain? ==> p.requests[i].stage.slot >= p.requests[i].hostSlot)
          && (p.requests[i].stage.Released? ==> p.requests[i].stage.at >= p.requests[i].hostSlot))
    && t0 <= p.now && t0 <= p.next
  }

  lemma ClaimKeeps(slots: seq<nat>, interval: nat, next: nat, now: nat)
    requires PacerInv(slots, interval, next)
    ensures var (slot, next') := Claim(interval, next, now);
            PacerInv(slots + [slot], interval, next')
  {
    if interval > 0 {
      var (slot, next') := Claim(interval, next, now);
      var all := slots + [slot];
      forall i | 0 <= i < |slots|
        ensures slot - slots[i] >= (|slots| - i) * interval && next' - slots[i] >= (|all| - i) * interval
      {
        assert (|all| - i) * interval == (|slots| - i) * interval + interval;
      }
      assert (|all| - |slots|) * interval == interval;
      forall i | 0 <= i < |all| ensures next' - all[i] >= (|all| - i) * interval {}
    }
  }

  ghost predicate SameSettings(p: Process, q: Process) {
    && q.interval == p.interval && |q.chains| == |p.chains|
    && forall c :: 0 <= c < |p.chains| ==> q.chains[c].interval == p.chains[c].interval
  }

  lemma StepKeeps(p: Process, e: Event, t0: nat)
    requires Inv(p, t0)
    ensures Inv(Step(p, e), t0) && SameSettings(p, Step(p, e))
  {
    var p' := Step(p, e);
    match e
    case Tick(_) =>
      assert HostSlots(p') == HostSlots(p);
    case HostClaim(c) =>
      if c < |p.chains| {
        ClaimKeeps(HostSlots(p), p.interval, p.next, p.now);
        assert HostSlots(p') == HostSlots(p) + [Claim(p.interval, p.next, p.now).0];
      }
    case ChainClaim(i) =>
      assert HostSlots(p') == HostSlots(p);
      if i < |p.requests| && p.requests[i].chain < |p.chains| {
        var c := p.chains[p.requests[i].chain];
        ClaimKeeps(c.slots, c.interval, c.next, p.now);
      }
    case Release(_) =>
      assert HostSlots(p') == HostSlots(p);
  }

  lemma {:induction false} HistoryKeeps(p: Process, events: seq<Event>)
    requires Fresh(p)
    ensures Inv(History(p, events), p.now) && SameSettings(p, History(p, events))
  {
    if events == [] {
    } else {
      HistoryKeeps(p, events[..|events| - 1]);
      StepKeeps(History(p, events[..|events| - 1]), events[|events| - 1], p.now);
    }
  }

  /** For every interleaving, the slots of each pacer are spaced: the host's and every chain's own. */
  lemma EveryPacerSpaces(p: Process, events: seq<Event>, c: nat, i: nat, j: nat)
    requires Fresh(p) && c < |p.chains|
    ensures var q := History(p, events);
            && (p.interval > 0 && i < j < |q.requests| ==>
                  q.requests[j].hostSlot - q.requests[i].hostSlot >= (j - i) * p.interval)
            && c < |q.chains|
            && (p.chains[c].interval > 0 && i < j < |q.chains[c].slots| ==>
                  q.chains[c].slots[j] - q.chains[c].slots[i] >= (j - i) * p.chains[c].interval)
  {
    HistoryKeeps(p, events);
    var q := History(p, events);
    if i < j < |q.requests| {
      assert HostSlots(q)[i] == q.requests[i].hostSlot && HostSlots(q)[j] == q.requests[j].hostSlot;
    }
  }

  /** So any window of length L holds at most floor(L / interval) + 1 slots of the host, and of each chain. */
  lemma EveryWindowHolds(p: Process, events: seq<Event>, c: nat, start: nat, length: nat)
    requires Fresh(p) && c < |p.chains|
    ensures var q := History(p, events);
            && (p.interval > 0 ==> |InWindow(HostSlots(q), start, length)| <= length / p.interval + 1)
            && c < |q.chains|
            && (p.chains[c].interval > 0 ==>
                  |InWindow(q.chains[c].slots, start, length)| <= length / p.chains[c].interval + 1)
  {
    hide Spaced, InWindow;
    HistoryKeeps(p, events);
    var q := History(p, events);
    if p.interval > 0 { WindowHolds(HostSlots(q), p.interval, start, length); }
    if p.chains[c].interval > 0 { WindowHolds(q.chains[c].slots, p.chains[c].interval, start, length); }
  }

  /** Through both pacers, all chains together send at most floor((t - t0) / interval) + 1 requests by time t. */
  lemma HostBudgetHolds(p: Process, events: seq<Event>, t: nat)
    requires Fresh(p) && t >= p.now
    ensures var q := History(p, events);
            p.interval > 0 ==>
              |set i: nat | i < |q.requests| && q.requests[i].stage.Released? && q.requests[i].stage.at <= t|
                <= (t - p.now) / p.interval + 1
  {
    hide History, Spaced;
    HistoryKeeps(p, events);
    var q := History(p, events);
    if p.interval > 0 {
      var sent := set i: nat | i < |q.requests| && q.requests[i].stage.Released? && q.requests[i].stage.at <= t;
      forall i | i in sent ensures 0 <= i < 0 + ((t - p.now) / p.interval + 1) { SentByThen(q, p.now, t, i); }
      BoundedSetSize(sent, 0, (t - p.now) / p.interval + 1);
    }
  }

  /** A request sent by time `t` is among the first floor((t - t0) / interval) + 1 of the host. */
  lemma SentByThen(q: Process, t0: nat, t: nat, i: nat)
    requires Inv(q, t0) && q.interval > 0 && t0 <= t && i < |q.requests|
    requires q.requests[i].stage.Released? && q.requests[i].stage.at <= t
    ensures i <= (t - t0) / q.interval
  {
    hide Spaced;
    assert HostSlots(q)[i] == q.requests[i].hostSlot && HostSlots(q)[0] == q.requests[0].hostSlot;
    WindowSpan(HostSlots(q), q.interval, t - t0, 0, i);
  }

  // ------------------------------------- does host spacing survive to sending?

  /** Pacers as they are built: nothing claimed, every next slot already due. */
  predicate JustBuilt(p: Process) { Fresh(p) && forall c :: 0 <= c < |p.chains| ==> p.chains[c].next <= p.now }

  /** A claim or a send that can happen happens at the first moment it can. */
  predicate PromptStep(p: Process, e: Event) {
    match e
    case ChainClaim(i) => i < |p.requests| && p.requests[i].stage.AtHost? ==> p.now <= p.requests[i].hostSlot
    case Release(i) => i < |p.requests| && p.requests[i].stage.AtChain? ==> p.now <= p.requests[i].stage.slot
    case _ => true
  }

  ghost predicate Prompt(p: Process, events: seq<Event>) {
    forall k :: 0 <= k < |events| ==> PromptStep(History(p, events[..k]), events[k])
  }

  predicate Apart(a: nat, b: nat, d: nat) { a + d <= b || b + d <= a }

  /** The property in question: any two requests are sent a host interval apart. */
  ghost predicate SendsSpaced(q: Process) {
    forall i, j :: 0 <= i < j < |q.requests| && q.requests[i].stage.Released? && q.requests[j].stage.Released? ==>
      Apart(q.requests[i].stage.at, q.requests[j].stage.at, q.interval)
  }

  /** When a request that has its chain slot is, or was, to be sent. */
  function SentAt(r: Request): nat
    requires !r.stage.AtHost?
  {
    if r.stage.AtChain? then r.stage.slot else r.stage.at
  }

  /** The chains never hold a request back beyond its host slot. */
  ghost predicate NoHold(p: Process) {
    && (forall c :: 0 <= c < |p.chains| ==> p.chains[c].next <= p.next && p.chains[c].interval <= p.interval)
    && (forall i :: 0 <= i < |p.requests| ==> NotHeld(p, p.requests[i]))
  }

  ghost predicate NotHeld(p: Process, r: Request) {
    && r.chain < |p.chains|
    && (r.stage.AtHost? && p.now <= r.hostSlot ==> p.chains[r.chain].next <= r.hostSlot)
    && (!r.stage.AtHost? ==> SentAt(r) == r.hostSlot)
  }

  lemma HostApart(p: Process, t0: nat, i: nat, j: nat)
    requires Inv(p, t0) && p.interval > 0 && i < |p.requests| && j < |p.requests| && i != j
    ensures Apart(p.requests[i].hostSlot, p.requests[j].hostSlot, p.interval)
  {
    var slots, a, b := HostSlots(p), if i < j then i else j, if i < j then j else i;
    assert slots[b] - slots[a] >= (b - a) * p.interval;
    MulGrows(1, b - a, p.interval);
  }

  lemma NoHoldKept(p: Process, e: Event, t0: nat)
    requires Inv(p, t0) && p.interval > 0 && NoHold(p) && PromptStep(p, e)
    ensures NoHold(Step(p, e))
  {
    var p' := Step(p, e);
    hide Inv;
    if e.ChainClaim? && p' != p {
      var i := e.i;
      var r := p.requests[i];
      assert NotHeld(p, r);
      forall j | 0 <= j < |p.requests| ensures NotHeld(p', p'.requests[j]) {
        assert NotHeld(p, p.requests[j]);
        if j != i { HostApart(p, t0, i, j); }
      }
      HostNextAbove(p, t0, i);
    } else {
      forall j | 0 <= j < |p'.requests| ensures NotHeld(p', p'.requests[j]) {
        if j < |p.requests| { assert NotHeld(p, p.requests[j]); }
      }
    }
  }

  lemma HostNextAbove(p: Process, t0: nat, i: nat)
    requires Inv(p, t0) && p.interval > 0 && i < |p.requests|
    ensures p.requests[i].hostSlot + p.interval <= p.next
  {
    var slots := HostSlots(p);
    assert p.next - slots[i] >= (|slots| - i) * p.interval;
    MulGrows(1, |slots| - i, p.interval);
  }

  /** A chain's own requests are sent its interval apart. */
  ghost predicate ChainSpaced(p: Process) {
    && (forall i :: 0 <= i < |p.requests| ==> BelowNext(p, p.requests[i]))
    && (forall i, j :: 0 <= i < j < |p.requests| ==> SentApart(p, p.requests[i], p.requests[j]))
  }

  ghost predicate BelowNext(p: Process, r: Request) {
    && r.chain < |p.chains|
    && (!r.stage.AtHost? && p.chains[r.chain].interval > 0 ==>
          SentAt(r) + p.chains[r.chain].interval <= p.chains[r.chain].next)
  }

  ghost predicate SentApart(p: Process, r: Request, s: Request) {
    r.chain == s.chain < |p.chains| && !r.stage.AtHost? && !s.stage.AtHost? ==>
      Apart(SentAt(r), SentAt(s), p.chains[r.chain].interval)
  }

  lemma ChainSpacedKept(p: Process, e: Event)
    requires ChainSpaced(p) && PromptStep(p, e)
    ensures ChainSpaced(Step(p, e))
  {
    var p' := Step(p, e);
    forall i | 0 <= i < |p'.requests| ensures BelowNext(p', p'.requests[i]) {
      if i < |p.requests| { assert BelowNext(p, p.requests[i]); }
    }
    forall i, j | 0 <= i < j < |p'.requests| ensures SentApart(p', p'.requests[i], p'.requests[j]) {
      if j < |p.requests| {
        assert SentApart(p, p.requests[i], p.requests[j]);
        assert BelowNext(p, p.requests[i]) && BelowNext(p, p.requests[j]);
      }
    }
  }

  lemma {:induction false} PromptHistory(p: Process, events: seq<Event>)
    requires JustBuilt(p) && Prompt(p, events)
    ensures ChainSpaced(History(p, events))
    ensures p.interval > 0 && NoHold(p) ==> NoHold(History(p, events))
  {
    if events == [] {
    } else {
      var n := |events| - 1;
      var before := events[..n];
      forall k | 0 <= k < n ensures PromptStep(History(p, before[..k]), before[k]) {
        assert before[..k] == events[..k] && before[k] == events[k];
      }
      PromptHistory(p, before);
      HistoryKeeps(p, before);
      ChainSpacedKept(History(p, before), events[n]);
      if p.interval > 0 && NoHold(p) { NoHoldKept(History(p, before), events[n], p.now); }
    }
  }

  /** Can be read off the configuration: one chain, or no chain slower than the host. */
  predicate HostSetsThePace(p: Process) {
    p.interval == 0 || |p.chains| <= 1 || forall c :: 0 <= c < |p.chains| ==> p.chains[c].interval <= p.interval
  }

  lemma NoHoldSpaces(q: Process, t0: nat)
    requires Inv(q, t0) && q.interval > 0 && NoHold(q)
    ensures SendsSpaced(q)
  {
    hide Inv;
    forall i, j | 0 <= i < j < |q.requests| && q.requests[i].stage.Released? && q.requests[j].stage.Released?
      ensures Apart(q.requests[i].stage.at, q.requests[j].stage.at, q.interval)
    {
      assert NotHeld(q, q.requests[i]) && NotHeld(q, q.requests[j]);
      HostApart(q, t0, i, j);
    }
  }

  lemma OneChainSpaces(q: Process)
    requires ChainSpaced(q) && |q.chains| == 1 && q.interval <= q.chains[0].interval
    ensures SendsSpaced(q)
  {
    forall i, j | 0 <= i < j < |q.requests| && q.requests[i].stage.Released? && q.requests[j].stage.Released?
      ensures Apart(q.requests[i].stage.at, q.requests[j].stage.at, q.interval)
    {
      assert BelowNext(q, q.requests[i]) && BelowNext(q, q.requests[j]);
      assert SentApart(q, q.requests[i], q.requests[j]);
    }
  }

  lemma PacedSendsAreSpaced(p: Process, events: seq<Event>)
    requires JustBuilt(p) && Prompt(p, events) && HostSetsThePace(p)
    ensures SendsSpaced(History(p, events))
  {
    hide Inv, History, Prompt, ChainSpaced;
    PromptHistory(p, events);
    HistoryKeeps(p, events);
    if p.interval == 0 {
    } else if forall c :: 0 <= c < |p.chains| ==> p.chains[c].interval <= p.interval {
      assert NoHold(p);
      hide NoHold;
      NoHoldSpaces(History(p, events), p.now);
    } else {
      assert |p.chains| == 1;
      OneChainSpaces(History(p, events));
    }
  }

  /** A chain slower than the host sends its second request at its own pace, a chain interval after the first. */
  lemma SecondRequestIsHeld(p: Process, a: nat) returns (events: seq<Event>, now: Process)
    requires JustBuilt(p) && p.interval > 0 && a < |p.chains| && p.chains[a].interval > p.interval
    ensures Prompt(p, events) && History(p, events) == now
    ensures now.now == p.now + p.chains[a].interval && now.next == p.now + 2 * p.interval && now.interval == p.interval
    ensures |now.chains| == |p.chains| && forall c :: 0 <= c < |p.chains| && c != a ==> now.chains[c] == p.chains[c]
    ensures |now.requests| == 2 && now.requests[1].stage == Released(now.now)
  {
    hide History, Prompt;
    var t, host, wait := p.now, p.interval, p.chains[a].interval;
    var a1 := ChainPacer(wait, t + wait, p.chains[a].slots + [t]);
    var a2 := ChainPacer(wait, t + 2 * wait, a1.slots + [t + wait]);
    var r0, r1 := Request(a, t, AtChain(t)), Request(a, t + host, AtHost);
    now := Started(p);
    events := [];
    events, now := Then(p, events, now, HostClaim(a), p.(next := t + host, requests := [r0.(stage := AtHost)]));
    events, now := Then(p, events, now, ChainClaim(0), now.(chains := p.chains[a := a1], requests := [r0]));
    events, now := Then(p, events, now, HostClaim(a), now.(next := t + 2 * host, requests := [r0, r1]));
    events, now := Then(p, events, now, Tick(host), now.(now := t + host));
    events, now := Then(p, events, now, ChainClaim(1),
                        now.(chains := p.chains[a := a2], requests := [r0, r1.(stage := AtChain(t + wait))]));
    events, now := Then(p, events, now, Tick(wait - host), now.(now := t + wait));
    events, now := Then(p, events, now, Release(1), now.(requests := [r0, r1.(stage := Released(t + wait))]));
  }

  /** Next to any other chain, a request of that chain then goes out less than a host interval later. */
  lemma HostSpacingIsLostAtRelease(p: Process, a: nat, b: nat) returns (events: seq<Event>)
    requires JustBuilt(p) && p.interval > 0
    requires a < |p.chains| && b < |p.chains| && a != b && p.chains[a].interval > p.interval
    ensures Prompt(p, events) && !SendsSpaced(History(p, events))
  {
    hide History, Prompt;
    var now;
    events, now := SecondRequestIsHeld(p, a);
    var slot: nat := Max(now.next, now.now);
    var sent, r2 := now.requests, Request(b, slot, AtHost);
    var (_, next) := Claim(p.chains[b].interval, p.chains[b].next, slot);
    var b1 := ChainPacer(p.chains[b].interval, next, p.chains[b].slots + [slot]);
    events, now := Then(p, events, now, HostClaim(b), now.(next := slot + p.interval, requests := sent + [r2]));
    events, now := Then(p, events, now, Tick(slot - now.now), now.(now := slot));
    events, now := Then(p, events, now, ChainClaim(2),
                        now.(chains := now.chains[b := b1], requests := sent + [r2.(stage := AtChain(slot))]));
    events, now := Then(p, events, now, Release(2), now.(requests := sent + [r2.(stage := Released(slot))]));
    assert !Apart(now.requests[1].stage.at, now.requests[2].stage.at, now.interval);
  }

  /**
   Host spacing survives to the moment of sending, under every schedule without delays, if
   and only if the host sets the pace.
   */
  lemma HostSpacingSurvivesIff(p: Process)
    requires JustBuilt(p)
    ensures (forall events :: Prompt(p, events) ==> SendsSpaced(History(p, events))) <==> HostSetsThePace(p)
  {
    if HostSetsThePace(p) {
      forall events | Prompt(p, events) ensures SendsSpaced(History(p, events)) { PacedSendsAreSpaced(p, events); }
    } else {
      var a :| 0 <= a < |p.chains| && p.chains[a].interval > p.interval;
      var events := HostSpacingIsLostAtRelease(p, a, if a == 0 then 1 else 0);
    }
  }

  predicate SameProcess(p: Process, q: Process) {
    p.now == q.now && p.interval == q.interval && p.next == q.next && p.chains == q.chains && p.requests == q.requests
  }

  lemma Started(p: Process) returns (now: Process)
    ensures now == p == History(p, []) && Prompt(p, [])
  {
    now := p;
  }

  /** Extends a history without delays by one event whose effect is spelled out. */
  lemma Then(p: Process, events: seq<Event>, now: Process, e: Event, next: Process)
    returns (events': seq<Event>, now': Process)
    requires History(p, events) == now && SameProcess(Step(now, e), next)
    requires Prompt(p, events) && PromptStep(now, e)
    ensures events' == events + [e] && now' == next && History(p, events') == next && Prompt(p, events')
  {
    events', now' := events + [e], next;
    assert events'[..|events|] == events;
    forall k | 0 <= k < |events'| ensures PromptStep(History(p, events'[..k]), events'[k]) {
      if k < |events| { assert events'[..k] == events[..k]; }
    }
  }
}
