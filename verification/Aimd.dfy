/** The adaptive pre-fetch delay of the live path, in nanoseconds. */
module Aimd {
  const MS: nat := 1_000_000
  const INC: nat := 10 * MS
  const DEC: nat := 1 * MS

  function Next(delay: nat, cap: nat, ok: bool): nat {
    if ok then (if delay < DEC then 0 else delay - DEC)
    else if delay + INC < cap then delay + INC
    else cap
  }

  class AimdDelay {
    const max: nat
    var delay: nat

    constructor (max: nat)
      ensures this.max == max && delay == 0
    {
      this.max, this.delay := max, 0;
    }

    /** `record`: a first-try `empty` steps up to the cap, a first-try `ok` steps down to zero. */
    method Record(firstTryOk: bool)
      requires delay <= max
      modifies this
      ensures delay == Next(old(delay), max, firstTryOk) && delay <= max
    {
      if firstTryOk {
        delay := if delay < DEC then 0 else delay - DEC;
      } else {
        var up := delay + INC;
        delay := if up < max then up else max;
      }
    }
  }

  /** The delay after a history of first-try outcomes. */
  function Delay(cap: nat, outcomes: seq<bool>): nat {
    if outcomes == [] then 0
    else Next(Delay(cap, outcomes[..|outcomes| - 1]), cap, outcomes[|outcomes| - 1])
  }

  function Empties(outcomes: seq<bool>): nat {
    if outcomes == [] then 0
    else Empties(outcomes[..|outcomes| - 1]) + (if outcomes[|outcomes| - 1] then 0 else 1)
  }

  /** The cap never cut an increase short. */
  ghost predicate CapSlack(cap: nat, outcomes: seq<bool>) {
    forall i :: 0 <= i < |outcomes| && !outcomes[i] ==> Delay(cap, outcomes[..i]) + INC <= cap
  }

  /** Zero never cut a decrease short. */
  ghost predicate FloorSlack(cap: nat, outcomes: seq<bool>) {
    forall i :: 0 <= i < |outcomes| && outcomes[i] ==> Delay(cap, outcomes[..i]) >= DEC
  }

  lemma SlackBefore(cap: nat, outcomes: seq<bool>)
    requires outcomes != []
    ensures CapSlack(cap, outcomes) ==> CapSlack(cap, outcomes[..|outcomes| - 1])
    ensures FloorSlack(cap, outcomes) ==> FloorSlack(cap, outcomes[..|outcomes| - 1])
  {
    var before := outcomes[..|outcomes| - 1];
    forall i | 0 <= i < |before| ensures before[..i] == outcomes[..i] && before[i] == outcomes[i] {}
  }

  /** For every outcome sequence the delay stays within the cap. */
  lemma {:induction false} DelayWithinCap(cap: nat, outcomes: seq<bool>)
    ensures Delay(cap, outcomes) <= cap
  {
    if outcomes == [] {
    } else {
      DelayWithinCap(cap, outcomes[..|outcomes| - 1]);
    }
  }

  /** While the cap never cuts an increase short, eleven steps up cost at most a step per head and the delay. */
  lemma {:induction false} EmptiesPaidFor(cap: nat, outcomes: seq<bool>)
    requires CapSlack(cap, outcomes)
    ensures Empties(outcomes) * 11 * MS <= |outcomes| * MS + Delay(cap, outcomes)
  {
    if outcomes == [] {
    } else {
      var n := |outcomes| - 1;
      SlackBefore(cap, outcomes);
      EmptiesPaidFor(cap, outcomes[..n]);
      assert !outcomes[n] ==> Delay(cap, outcomes[..n]) + INC <= cap;
    }
  }

  /** If neither clamp ever binds, the delay is exactly 10 ms per empty less 1 ms per ok. */
  lemma {:induction false} UnclampedDelay(cap: nat, outcomes: seq<bool>)
    requires CapSlack(cap, outcomes) && FloorSlack(cap, outcomes)
    ensures Delay(cap, outcomes) == Empties(outcomes) * INC - (|outcomes| - Empties(outcomes)) * DEC
  {
    if outcomes == [] {
    } else {
      var n := |outcomes| - 1;
      SlackBefore(cap, outcomes);
      UnclampedDelay(cap, outcomes[..n]);
      assert !outcomes[n] ==> Delay(cap, outcomes[..n]) + INC <= cap;
      assert outcomes[n] ==> Delay(cap, outcomes[..n]) >= DEC;
    }
  }

  /** So n heads contain at most (n + cap in ms) / 11 first-try empties. */
  lemma EmptyRateBound(capMs: nat, outcomes: seq<bool>)
    requires CapSlack(capMs * MS, outcomes)
    ensures Empties(outcomes) <= (|outcomes| + capMs) / 11
  {
    DelayWithinCap(capMs * MS, outcomes);
    EmptiesPaidFor(capMs * MS, outcomes);
  }

  /** n of the same outcome in a row. */
  function Repeat(ok: bool, n: nat): seq<bool> { seq(n, _ => ok) }

  /** Whatever came before, n empties in a row climb 10 ms each, up to the cap. */
  lemma {:induction false} EmptiesClimb(cap: nat, outcomes: seq<bool>, n: nat)
    ensures Delay(cap, outcomes + Repeat(false, n)) == Lesser(cap, Delay(cap, outcomes) + n * INC)
  {
    hide Delay;
    DelayWithinCap(cap, outcomes);
    if n == 0 {
      assert outcomes + Repeat(false, 0) == outcomes;
    } else {
      EmptiesClimb(cap, outcomes, n - 1);
      RampStep(cap, outcomes, false, n);
      assert n * INC == (n - 1) * INC + INC;
    }
  }

  /** And n oks descend 1 ms each, down to zero. */
  lemma {:induction false} OksDescend(cap: nat, outcomes: seq<bool>, n: nat)
    ensures Delay(cap, outcomes + Repeat(true, n)) == Surplus(Delay(cap, outcomes), n * DEC)
  {
    hide Delay;
    if n == 0 {
      assert outcomes + Repeat(true, 0) == outcomes;
    } else {
      OksDescend(cap, outcomes, n - 1);
      RampStep(cap, outcomes, true, n);
      assert n * DEC == (n - 1) * DEC + DEC;
    }
  }

  lemma RampStep(cap: nat, outcomes: seq<bool>, ok: bool, n: nat)
    requires n > 0
    ensures Delay(cap, outcomes + Repeat(ok, n)) == Next(Delay(cap, outcomes + Repeat(ok, n - 1)), cap, ok)
  {
    var all := outcomes + Repeat(ok, n);
    assert all[..|all| - 1] == outcomes + Repeat(ok, n - 1);
  }

  function Lesser(a: nat, b: nat): nat { if a < b then a else b }

  function Surplus(a: nat, b: nat): nat { if a < b then 0 else a - b }

  /** A zero cap keeps the controller inert. */
  lemma ZeroCapIsInert(outcomes: seq<bool>)
    ensures Delay(0, outcomes) == 0
  {
    DelayWithinCap(0, outcomes);
  }
}
