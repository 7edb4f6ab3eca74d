/**
 The height-keyed blockstore as an abstract map with a minimum height, and the
 contiguous frontier every fill protocol resumes from.
 */
module BlockDb {
  import opened Wrappers

  /** `Closed` until the first write creates the files and fixes `min` for good. */
  datatype Db<+V> = Closed | Open(min: nat, blocks: map<nat, V>)

  predicate Has<V>(db: Db<V>, h: nat) { db.Open? && h in db.blocks }

  predicate ValidDb<V>(db: Db<V>) { db.Open? ==> forall h :: h in db.blocks ==> db.min <= h }

  /** The blockstore refuses a height below its minimum. */
  predicate Writable<V>(db: Db<V>, h: nat) { db.Open? ==> db.min <= h }

  /** A fresh store is anchored at the configured floor unless that lies above the first block. */
  function AnchorAt(floor: Option<nat>, h: nat): (min: nat)
    ensures min <= h
  {
    if floor.Some? && floor.value <= h then floor.value else h
  }

  function WriteBlock<V>(db: Db<V>, floor: Option<nat>, h: nat, v: V): (r: Db<V>)
    requires ValidDb(db) && Writable(db, h)
    ensures ValidDb(r) && r.Open? && Has(r, h) && r.blocks[h] == v
  {
    match db
    case Closed => Open(AnchorAt(floor, h), map[h := v])
    case Open(min, blocks) => Open(min, blocks[h := v])
  }

  /** What a new store will ever take: its first block and above, and anything from the floor up. */
  lemma AnchorIff<V>(floor: Option<nat>, h: nat, v: V, g: nat)
    ensures var db := WriteBlock(Closed, floor, h, v);
            && (Writable(db, g) <==> g >= h || (floor.Some? && g >= floor.value))
            && (Has(db, g) <==> g == h)
  {
  }

  /** How a put ended: `Half` wrote the block and failed in the index batch, `Refused` wrote nothing. */
  datatype PutOutcome = Done | Half | Refused

  // ------------------------------------------------------------ the frontier

  /** The lowest absent height at or above `h`. */
  function HoleFrom<V>(blocks: map<nat, V>, h: nat): (r: nat)
    ensures h <= r && r !in blocks
    ensures forall k :: h <= k < r ==> k in blocks
    decreases |set k | k in blocks && k >= h|
  {
    if h in blocks then
      assert |set k | k in blocks && k >= h + 1| < |set k | k in blocks && k >= h| by {
        var here, above := set k | k in blocks && k >= h, set k | k in blocks && k >= h + 1;
        assert above == here - {h};
      }
      HoleFrom(blocks, h + 1)
    else h
  }

  /**
   `max_contiguous_height`: the greatest H with every height of [min..H] present,
   and `min - 1` when the minimum itself is absent. A closed store reports 0.
   */
  function Contiguous<V>(db: Db<V>): int {
    match db
    case Closed => 0
    case Open(min, blocks) => HoleFrom(blocks, min) - 1
  }

  ghost predicate Covered<V>(db: Db<V>, lo: nat, hi: int) {
    db.Open? && forall h :: lo <= h <= hi ==> h in db.blocks
  }

  /** The frontier reaches `h` exactly when nothing from the minimum up to `h` is missing. */
  lemma FrontierIff<V>(db: Db<V>, h: int)
    requires db.Open? && h >= db.min - 1
    ensures Contiguous(db) >= h <==> Covered(db, db.min, h)
  {
    var hole := HoleFrom(db.blocks, db.min);
    if Covered(db, db.min, h) && hole <= h { assert false; }
  }

  /** Everything `a` holds, `b` holds, under the same minimum. */
  ghost predicate Grows<V>(a: Db<V>, b: Db<V>) {
    a.Open? ==> b.Open? && b.min == a.min && a.blocks.Keys <= b.blocks.Keys
  }

  /** Writes never lower the frontier of an open store. */
  lemma FrontierGrows<V>(a: Db<V>, b: Db<V>)
    requires a.Open? && Grows(a, b)
    ensures Contiguous(a) <= Contiguous(b)
  {
    assert Covered(b, b.min, Contiguous(a)) by {
      forall h | b.min <= h <= Contiguous(a) ensures h in b.blocks { assert h in a.blocks; }
    }
    FrontierIff(b, Contiguous(a));
  }
}
