/**
 The three stamps in the `meta` keyspace, checked and completed on every open, with
 crashes that keep only a prefix of the inserts.
 */
module Stamps {
  import opened Wrappers

  datatype Chain = C | P

  function ChainText(c: Chain): string { if c == C then "c" else "p" }

  function FormatVersion(c: Chain): nat { 1 }

  /** A stored stamp: text, or bytes that are not UTF-8. */
  datatype Stamp = Text(s: string) | NotUtf8

  datatype Meta = Meta(chain: Option<Stamp>, identity: Option<Stamp>, format: Option<Stamp>)

  datatype Insert = SetChain(c: Chain) | SetIdentity(id: string) | SetFormat(v: nat)

  // -------------------------------------------------------- decimal numbers

  function Decimal(n: nat): string {
    var d := [('0' as int + n % 10) as char];
    if n < 10 then d else Decimal(n / 10) + d
  }

  function DecimalValue(s: string): Option<nat> {
    if s == "" then Some(0)
    else
      var last := s[|s| - 1];
      match DecimalValue(s[..|s| - 1])
      case None => None
      case Some(v) => if '0' <= last <= '9' then Some(v * 10 + (last as int - '0' as int)) else None
  }

  /** Rust's `u32::from_str`: decimal digits, an optional `+`, below 2^32. */
  function ParseU32(s: string): Option<nat> {
    var digits := if s != "" && s[0] == '+' then s[1..] else s;
    if digits == "" then None
    else
      match DecimalValue(digits)
      case None => None
      case Some(v) => if v < 0x1_0000_0000 then Some(v) else None
  }

  lemma {:induction false} DecimalDigits(n: nat)
    ensures DecimalValue(Decimal(n)) == Some(n)
    ensures Decimal(n) != "" && Decimal(n)[0] != '+'
  {
    var s := Decimal(n);
    if n >= 10 {
      DecimalDigits(n / 10);
      assert s[..|s| - 1] == Decimal(n / 10);
    } else {
      assert s[..0] == "";
    }
  }

  lemma ParseDecimal(n: nat)
    requires n < 0x1_0000_0000
    ensures ParseU32(Decimal(n)) == Some(n) && ParseU32("+" + Decimal(n)) == Some(n)
  {
    DecimalDigits(n);
    assert ("+" + Decimal(n))[1..] == Decimal(n);
  }

  /** Nothing but digits after an optional sign parses, and nothing of 2^32 or more. */
  lemma {:induction false} ParsesDigitsOnly(s: string, c: char, n: nat)
    requires !('0' <= c <= '9')
    ensures ParseU32("").None? && ParseU32("+").None? && ParseU32(s + [c]).None?
    ensures n >= 0x1_0000_0000 ==> ParseU32(Decimal(n)).None?
  {
    DecimalDigits(n);
    assert "+"[1..] == "";
    var t := s + [c];
    assert t[..|s|] == s && (s != "" && s[0] == '+' ==> t[1..] == s[1..] + [c] && t[1..][..|s| - 1] == s[1..]);
    assert s == "" && c == '+' ==> t == "+";
  }

  // ------------------------------------------------------------- one opening

  predicate Matches(stamp: Stamp, want: string) { stamp == Text(want) }

  predicate FormatMatches(stamp: Stamp, want: nat) { stamp.Text? && ParseU32(stamp.s) == Some(want) }

  /** The checks of an open, in the order they are made. */
  predicate Accepts(m: Meta, chain: Chain, identity: string, hasData: bool) {
    var populated := hasData || m.identity.Some? || m.format.Some?;
    if m.chain.Some? && !Matches(m.chain.value, ChainText(chain)) then false
    else if m.chain.None? && populated && chain != C then false
    else if m.identity.Some? && !Matches(m.identity.value, identity) then false
    else if m.format.Some? then FormatMatches(m.format.value, FormatVersion(chain))
    else if m.identity.Some? then true
    else !hasData
  }

  /** The missing stamps, in the order they are inserted: chain, identity, format. */
  function Missing(m: Meta, chain: Chain, identity: string): seq<Insert> {
    var rest := MissingIdentity(m, chain, identity);
    if m.chain.None? then [SetChain(chain)] + rest else rest
  }

  function MissingIdentity(m: Meta, chain: Chain, identity: string): seq<Insert> {
    if m.identity.None? then [SetIdentity(identity)] + MissingFormat(m, chain) else MissingFormat(m, chain)
  }

  function MissingFormat(m: Meta, chain: Chain): seq<Insert> {
    if m.format.None? then [SetFormat(FormatVersion(chain))] else []
  }

  function ApplyInsert(m: Meta, i: Insert): Meta {
    match i
    case SetChain(c) => m.(chain := Some(Text(ChainText(c))))
    case SetIdentity(id) => m.(identity := Some(Text(id)))
    case SetFormat(v) => m.(format := Some(Text(Decimal(v))))
  }

  /** The first `k` inserts take effect, in order. */
  function ApplyFirst(m: Meta, ins: seq<Insert>, k: nat): Meta
    decreases k
  {
    if k == 0 || ins == [] then m else ApplyFirst(ApplyInsert(m, ins[0]), ins[1..], k - 1)
  }

  /** The `meta` keyspace on disk; `journal` is what the current open has inserted so far. */
  class MetaStore {
    var meta: Meta
    var journal: seq<Insert>

    constructor (m: Meta)
      ensures meta == m && journal == []
    {
      meta, journal := m, [];
    }

    method Put(i: Insert)
      modifies this
      ensures meta == ApplyInsert(old(meta), i) && journal == old(journal) + [i]
    {
      meta := ApplyInsert(meta, i);
      journal := journal + [i];
    }

    /** The checks, in source order. */
    method Verify(chain: Chain, identity: string, hasData: bool) returns (ok: bool)
      ensures ok <==> Accepts(meta, chain, identity, hasData)
    {
      var populated := hasData || meta.identity.Some? || meta.format.Some?;
      match meta.chain {
        case Some(stored) => if stored != Text(ChainText(chain)) { return false; }
        case None => if populated && chain != C { return false; }
      }
      if meta.identity.Some? && meta.identity.value != Text(identity) {
        return false;
      }
      match meta.format {
        case Some(stored) => return stored.Text? && ParseU32(stored.s) == Some(FormatVersion(chain));
        case None => return meta.identity.Some? || !hasData;
      }
    }

    /**
     `verify_and_stamp_meta`. A refusal inserts nothing; an acceptance inserts exactly
     the missing stamps, in order, so a crash keeps a prefix of `Missing`.
     */
    method VerifyAndStamp(chain: Chain, identity: string, hasData: bool) returns (r: Result<()>)
      requires journal == []
      modifies this
      ensures r.Ok? <==> Accepts(old(meta), chain, identity, hasData)
      ensures r.Err? ==> meta == old(meta) && journal == []
      ensures r.Ok? ==> journal == Missing(old(meta), chain, identity)
      ensures r.Ok? ==> meta == ApplyFirst(old(meta), journal, |journal|)
    {
      var ok := Verify(chain, identity, hasData);
      if !ok {
        return Err;
      }
      var m := meta;
      if m.chain.None? { Put(SetChain(chain)); }
      if m.identity.None? { Put(SetIdentity(identity)); }
      if m.format.None? { Put(SetFormat(FormatVersion(chain))); }
      PrefixApplied(m, chain, identity, |journal|);
      assert journal == Missing(m, chain, identity);
      return Ok(());
    }
  }

  function One(b: bool): nat { if b then 1 else 0 }

  lemma ApplyHead(m: Meta, i: Insert, rest: seq<Insert>, k: nat)
    requires k > 0
    ensures ApplyFirst(m, [i] + rest, k) == ApplyFirst(ApplyInsert(m, i), rest, k - 1)
  {
    assert ([i] + rest)[1..] == rest;
  }

  lemma FormatApplied(m: Meta, chain: Chain, k: nat)
    ensures ApplyFirst(m, MissingFormat(m, chain), k) ==
            m.(format := if m.format.None? && k >= 1 then Some(Text(Decimal(FormatVersion(chain)))) else m.format)
  {
    if m.format.None? && k >= 1 {
      assert MissingFormat(m, chain) == [SetFormat(FormatVersion(chain))] + [];
      ApplyHead(m, SetFormat(FormatVersion(chain)), [], k);
    }
  }

  lemma IdentityApplied(m: Meta, chain: Chain, identity: string, k: nat)
    ensures ApplyFirst(m, MissingIdentity(m, chain, identity), k) ==
            m.(identity := if m.identity.None? && k >= 1 then Some(Text(identity)) else m.identity,
               format := if m.format.None? && k >= One(m.identity.None?) + 1
                         then Some(Text(Decimal(FormatVersion(chain)))) else m.format)
  {
    if m.identity.None? && k >= 1 {
      ApplyHead(m, SetIdentity(identity), MissingFormat(m, chain), k);
      FormatApplied(ApplyInsert(m, SetIdentity(identity)), chain, k - 1);
    } else {
      FormatApplied(m, chain, k);
    }
  }

  /** Exactly which stamps a crash after `kept` inserts leaves behind. */
  lemma PrefixApplied(m: Meta, chain: Chain, identity: string, kept: nat)
    ensures ApplyFirst(m, Missing(m, chain, identity), kept) == Stamped(m, chain, identity, kept)
  {
    if m.chain.None? && kept >= 1 {
      ApplyHead(m, SetChain(chain), MissingIdentity(m, chain, identity), kept);
      IdentityApplied(ApplyInsert(m, SetChain(chain)), chain, identity, kept - 1);
    } else {
      IdentityApplied(m, chain, identity, kept);
    }
  }

  function Stamped(m: Meta, chain: Chain, identity: string, kept: nat): Meta {
    var nc, ni := One(m.chain.None?), One(m.identity.None?);
    Meta(if m.chain.None? && kept >= 1 then Some(Text(ChainText(chain))) else m.chain,
         if m.identity.None? && kept >= nc + 1 then Some(Text(identity)) else m.identity,
         if m.format.None? && kept >= nc + ni + 1 then Some(Text(Decimal(FormatVersion(chain)))) else m.format)
  }

  // ---------------------------------------------------- histories of a store

  datatype Owner = Owner(chain: Chain, identity: string)

  /** `owners` records under which (chain, identity) blocks were ever written. */
  datatype World = World(meta: Meta, owners: set<Owner>, session: Option<Owner>)

  /**
   `OpenStore` keeps the first `kept` inserts: all of them when the open returns, fewer
   when the process dies on the way. `WriteBlocks` happens only inside a session.
   */
  datatype Event =
    | OpenStore(chain: Chain, identity: string, kept: nat)
    | WriteBlocks
    | CloseOrCrash

  predicate HasData(w: World) { w.owners != {} }

  function Step(w: World, e: Event): World {
    match e
    case OpenStore(chain, identity, kept) =>
      if w.session.Some? || !Accepts(w.meta, chain, identity, HasData(w)) then w
      else
        var ins := Missing(w.meta, chain, identity);
        if kept < |ins| then w.(meta := ApplyFirst(w.meta, ins, kept))
        else w.(meta := ApplyFirst(w.meta, ins, |ins|), session := Some(Owner(chain, identity)))
    case WriteBlocks => if w.session.Some? then w.(owners := w.owners + {w.session.value}) else w
    case CloseOrCrash => w.(session := None)
  }

  function History(start: World, events: seq<Event>): World {
    if events == [] then start else Step(History(start, events[..|events| - 1]), events[|events| - 1])
  }

  /**
   A new directory, one written by an older C-chain build that stamped its network, or one
   that holds blocks and says nothing of their network.
   */
  predicate Start(w: World) {
    w.session.None? && (w == World(Meta(None, None, None), {}, None) || Legacy(w) || Unidentified(w))
  }

  predicate Unidentified(w: World) {
    w.session.None? && w.meta.identity.None? && w.meta.format.None? && HasData(w)
  }

  predicate Legacy(w: World) {
    && w.meta.chain.None? && w.meta.identity.Some? && w.meta.identity.value.Text?
    && (w.meta.format.None? || w.meta.format == Some(Text(Decimal(FormatVersion(C)))))
    && w.owners <= {Owner(C, w.meta.identity.value.s)}
  }

  ghost predicate StampedFor(m: Meta, o: Owner) {
    && m.identity == Some(Text(o.identity))
    && (m.chain == Some(Text(ChainText(o.chain))) || (m.chain.None? && o.chain == C))
  }

  ghost predicate Sound(w: World) {
    && (w.meta.format.Some? ==> w.meta.identity.Some?)
    && (w.meta.format.Some? ==> w.meta.format == Some(Text(Decimal(1))))
    && (forall o :: o in w.owners ==> StampedFor(w.meta, o))
    && (w.session.Some? ==> StampedFor(w.meta, w.session.value) && w.meta.chain.Some? && w.meta.format.Some?)
    && (w.meta.chain.Some? ==> w.meta.chain == Some(Text("c")) || w.meta.chain == Some(Text("p")))
    && (w.meta.identity.Some? ==> w.meta.identity.value.Text?)
  }

  lemma StepSound(w: World, e: Event)
    requires Sound(w)
    ensures Sound(Step(w, e))
  {
    if e.OpenStore? && w.session.None? && Accepts(w.meta, e.chain, e.identity, HasData(w)) {
      var ins := Missing(w.meta, e.chain, e.identity);
      PrefixApplied(w.meta, e.chain, e.identity, e.kept);
      PrefixApplied(w.meta, e.chain, e.identity, |ins|);
    }
  }

  /** Block data with no network stamp stays as it is: no history opens it or changes a stamp. */
  lemma {:induction false} UnidentifiedStaysShut(start: World, events: seq<Event>)
    requires Unidentified(start)
    ensures History(start, events) == start
  {
    if events == [] {
    } else {
      UnidentifiedStaysShut(start, events[..|events| - 1]);
    }
  }

  lemma {:induction false} HistorySound(start: World, events: seq<Event>)
    requires Start(start)
    ensures if Unidentified(start) then History(start, events) == start else Sound(History(start, events))
  {
    if Unidentified(start) {
      UnidentifiedStaysShut(start, events);
    } else if events == [] {
    } else {
      HistorySound(start, events[..|events| - 1]);
      StepSound(History(start, events[..|events| - 1]), events[|events| - 1]);
    }
  }

  /**
   Over every history of opens, crashes between stamp inserts and writes: the data of
   a store all belongs to one (chain, identity), no open under another is accepted,
   a format stamp implies an identity stamp, data without an identity stamp is refused
   whoever opens it, and a refused open changes nothing.
   */
  lemma NeverMixed(start: World, events: seq<Event>, chain: Chain, identity: string, kept: nat, o: Owner)
    requires Start(start)
    ensures var w := History(start, events);
            && (o in w.owners && Accepts(w.meta, chain, identity, HasData(w)) ==> o == Owner(chain, identity))
            && (o in w.owners && w.session.Some? ==> w.session.value == o)
            && (w.meta.format.Some? ==> w.meta.identity.Some?)
            && (HasData(w) && w.meta.identity.None? ==> !Accepts(w.meta, chain, identity, true))
            && (HasData(w) && w.meta.identity.None? <==> Unidentified(start))
            && (!Accepts(w.meta, chain, identity, HasData(w)) ==> Step(w, OpenStore(chain, identity, kept)) == w)
  {
    HistorySound(start, events);
    ParseDecimal(1);
    var w := History(start, events);
    if HasData(w) && !Unidentified(start) {
      var some :| some in w.owners;
      assert StampedFor(w.meta, some);
    }
  }

  /**
   Who is let in, over every history: a chain and identity that no stamp contradicts, the
   chain stamp being C's where an older store has none; a new directory lets anyone in.
   */
  lemma OpensIff(start: World, events: seq<Event>, chain: Chain, identity: string)
    requires Start(start) && !Unidentified(start)
    ensures var w := History(start, events);
            Accepts(w.meta, chain, identity, HasData(w)) <==>
              && (w.meta.chain.Some? ==> w.meta.chain == Some(Text(ChainText(chain))))
              && (w.meta.identity.Some? ==> w.meta.identity == Some(Text(identity)))
              && (w.meta.chain.None? && w.meta.identity.Some? ==> chain == C)
  {
    HistorySound(start, events);
    ParseDecimal(1);
    var w := History(start, events);
    if HasData(w) {
      var o :| o in w.owners;
      assert StampedFor(w.meta, o);
    }
  }

  /** An open that is let in and not cut short is a session under its name, with all three stamps in place. */
  lemma OpenStamps(w: World, chain: Chain, identity: string, kept: nat)
    requires w.session.None? && Accepts(w.meta, chain, identity, HasData(w)) && kept >= 3
    ensures var w' := Step(w, OpenStore(chain, identity, kept));
            && w'.session == Some(Owner(chain, identity)) && w'.owners == w.owners
            && w'.meta.chain == Some(Text(ChainText(chain)))
            && w'.meta.identity == Some(Text(identity))
            && w'.meta.format.Some? && FormatMatches(w'.meta.format.value, FormatVersion(chain))
    ensures HasData(Step(Step(w, OpenStore(chain, identity, kept)), WriteBlocks))
  {
    var ins := Missing(w.meta, chain, identity);
    PrefixApplied(w.meta, chain, identity, |ins|);
    ParseDecimal(FormatVersion(chain));
    assert |ins| == One(w.meta.chain.None?) + One(w.meta.identity.None?) + One(w.meta.format.None?);
    assert Owner(chain, identity) in Step(Step(w, OpenStore(chain, identity, kept)), WriteBlocks).owners;
  }

  /** In particular a new directory can be opened by anyone, and is then theirs. */
  lemma NewDirectoryOpens(chain: Chain, identity: string)
    ensures var w := Step(World(Meta(None, None, None), {}, None), OpenStore(chain, identity, 3));
            && w.session == Some(Owner(chain, identity))
            && w.meta.chain.Some? && w.meta.identity.Some? && w.meta.format.Some?
  {
    OpenStamps(World(Meta(None, None, None), {}, None), chain, identity, 3);
  }

  /**
   Whatever crashes interrupted earlier opens, the owner of a store's data is let in again,
   unless the data never had an identity stamp.
   */
  lemma OwnerCanReopen(start: World, events: seq<Event>, o: Owner)
    requires Start(start)
    ensures var w := History(start, events);
            o in w.owners ==> (Accepts(w.meta, o.chain, o.identity, HasData(w)) <==> !Unidentified(start))
  {
    HistorySound(start, events);
    ParseDecimal(1);
  }

  /** So after any history, a close or a crash, the owner's next open that is not cut short is a session again. */
  lemma OwnerReopens(start: World, events: seq<Event>, o: Owner)
    requires Start(start) && !Unidentified(start) && o in History(start, events).owners
    ensures var closed := Step(History(start, events), CloseOrCrash);
            && closed.meta == History(start, events).meta && closed.owners == History(start, events).owners
            && Step(closed, OpenStore(o.chain, o.identity, 3)).session == Some(o)
  {
    OwnerCanReopen(start, events, o);
    OpenStamps(Step(History(start, events), CloseOrCrash), o.chain, o.identity, 3);
  }

  /**
   Data without an identity stamp is refused exactly when there is no format stamp:
   the invariant above is what makes the refusal unconditional.
   */
  lemma UnidentifiedData(m: Meta, chain: Chain, identity: string)
    requires m.identity.None?
    requires if m.chain.Some? then Matches(m.chain.value, ChainText(chain)) else chain == C
    requires m.format.Some? ==> FormatMatches(m.format.value, FormatVersion(chain))
    ensures Accepts(m, chain, identity, true) <==> m.format.Some?
  {
  }
}
