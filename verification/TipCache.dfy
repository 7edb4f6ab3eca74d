/** The backfill loop's cached upstream tip, against a loop that polls on every pass. */
module TipCache {
  import opened U64
  import opened Wrappers

  const TIP_TTL: nat := 10

  /** What upstream would answer at a pass, and whether reading it works; times in seconds. */
  datatype Pass = Pass(now: nat, highWater: nat, contiguous: nat, tip: nat, reachable: bool)

  class Cache {
    var height: nat
    var fetched: Option<nat>
    /** Upstream reads attempted so far. */
    var attempts: nat

    constructor ()
      ensures View() == Cached(0, None, 0)
    {
      height, fetched, attempts := 0, None, 0;
    }

    ghost function View(): Cached
      reads this
    {
      Cached(height, fetched, attempts)
    }

    /** `get_uncached`: a failed read keeps the previous value but counts as an attempt. */
    method GetUncached(p: Pass) returns (tip: nat)
      modifies this
      ensures View() == Read(old(View()), p) && tip == height
    {
      if p.reachable {
        height := p.tip;
      }
      fetched, attempts := Some(p.now), attempts + 1;
      tip := height;
    }

    method Get(p: Pass) returns (tip: nat)
      modifies this
      ensures View() == (if IsFresh(old(View()), p.now) then old(View()) else Read(old(View()), p)) && tip == height
    {
      if fetched.Some? && p.now - fetched.value < TIP_TTL {
        return height;
      }
      tip := GetUncached(p);
    }

    /** One pass up to its decision: true is "caught up, nap". */
    method Decide(p: Pass) returns (idle: bool)
      modifies this
      ensures (View(), idle) == CachedPass(old(View()), p)
    {
      var known := Max(p.highWater, height);
      var upstream;
      if p.contiguous < known {
        upstream := Get(p);
      } else {
        upstream := GetUncached(p);
      }
      idle := p.contiguous >= Max(p.highWater, upstream);
    }
  }

  datatype Cached = Cached(height: nat, fetched: Option<nat>, attempts: nat)

  predicate IsFresh(c: Cached, now: nat) { c.fetched.Some? && now - c.fetched.value < TIP_TTL }

  function Read(c: Cached, p: Pass): Cached {
    Cached(if p.reachable then p.tip else c.height, Some(p.now), c.attempts + 1)
  }

  function CachedPass(c: Cached, p: Pass): (Cached, bool) {
    var c' := if p.contiguous < Max(p.highWater, c.height) && IsFresh(c, p.now) then c else Read(c, p);
    (c', p.contiguous >= Max(p.highWater, c'.height))
  }

  /** The loop without a cache: read the tip, then decide. */
  predicate PolledIdle(p: Pass) { p.contiguous >= Max(p.highWater, p.tip) }

  function CacheAfter(passes: seq<Pass>): Cached {
    if passes == [] then Cached(0, None, 0) else CachedPass(CacheAfter(passes[..|passes| - 1]), passes[|passes| - 1]).0
  }

  /** Upstream tips never go down and every read works. */
  ghost predicate Steady(passes: seq<Pass>) {
    && (forall i :: 0 <= i < |passes| ==> passes[i].reachable)
    && (forall i, j :: 0 <= i < j < |passes| ==> passes[i].tip <= passes[j].tip)
  }

  /** A pass that declares caught up attempted one upstream read in that very pass, and decided on its answer. */
  lemma CaughtUpWasConfirmed(passes: seq<Pass>, p: Pass)
    ensures var (c, idle) := CachedPass(CacheAfter(passes), p);
            && (idle ==> c.attempts == CacheAfter(passes).attempts + 1 && c == Read(CacheAfter(passes), p))
            && c.attempts <= CacheAfter(passes).attempts + 1
  {
  }

  /** Upstream tips never go down; reads may fail. */
  ghost predicate TipsRise(passes: seq<Pass>) {
    forall i, j :: 0 <= i < j < |passes| ==> passes[i].tip <= passes[j].tip
  }

  lemma {:induction false} CacheNeverAhead(passes: seq<Pass>, p: Pass)
    requires TipsRise(passes + [p])
    ensures CacheAfter(passes).height <= p.tip
  {
    if passes == [] {
    } else {
      var n := |passes| - 1;
      var before, last := passes[..n], passes[n];
      assert TipsRise(before + [last]) by {
        assert before + [last] == passes;
        assert forall i :: 0 <= i < |passes| ==> passes[i] == (passes + [p])[i];
      }
      CacheNeverAhead(before, last);
      assert last.tip <= p.tip by {
        assert (passes + [p])[n] == last && (passes + [p])[n + 1] == p;
      }
    }
  }

  /**
   What the cache saves: after a read, working or not, passes with known work ask nothing for
   ten seconds, and the first one after that asks again.
   */
  lemma AtMostOneReadPerTtl(passes: seq<Pass>, p: Pass, q: Pass)
    requires var c := CachedPass(CacheAfter(passes), p).0;
             && c.attempts > CacheAfter(passes).attempts
             && q.now >= p.now && q.contiguous < Max(q.highWater, c.height)
    ensures var c := CachedPass(CacheAfter(passes), p).0;
            CachedPass(c, q).0.attempts == if q.now < p.now + 10 then c.attempts else c.attempts + 1
  {
  }

  /** A tip that was read is never forgotten: known work is not idled over, whether or not the read works. */
  lemma KnownWorkIsNotIdle(passes: seq<Pass>, p: Pass)
    requires TipsRise(passes + [p])
    ensures var (c, idle) := CachedPass(CacheAfter(passes), p);
            && CacheAfter(passes).height <= c.height <= p.tip
            && (p.contiguous < Max(p.highWater, CacheAfter(passes).height) ==> !idle)
            && (!p.reachable ==> c.height == CacheAfter(passes).height)
  {
    CacheNeverAhead(passes, p);
  }

  /** When tips never fall and reads succeed, the cached loop works or idles exactly as the polling one. */
  lemma CacheRefinesPolling(passes: seq<Pass>, p: Pass)
    requires Steady(passes + [p])
    ensures CachedPass(CacheAfter(passes), p).1 == PolledIdle(p)
  {
    CacheNeverAhead(passes, p);
    assert (passes + [p])[|passes|] == p;
  }
}
