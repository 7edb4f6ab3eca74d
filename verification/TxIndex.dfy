/**
 The index space shared by ingest and `getTx`: ids are extracted from a block's
 transaction list with undecodable entries dropped, and the survivors numbered. The
 list is `transactions` on the C-chain and `txs` followed by `tx` on the P-chain.
 */
module TxIndex {
  import opened Wrappers
  import opened Codec

  /** `extract_tx_hashes` and `extract_tx_ids`: what does not decode is skipped. */
  function DecodedIds<T>(decode: T -> Option<Digest>, txs: seq<T>): seq<Digest> {
    if txs == [] then []
    else
      var n := |txs| - 1;
      match decode(txs[n])
      case None => DecodedIds(decode, txs[..n])
      case Some(id) => DecodedIds(decode, txs[..n]) + [id]
  }

  /** How many entries before position `p` decode. */
  function Rank<T>(decode: T -> Option<Digest>, txs: seq<T>, p: nat): nat
    requires p <= |txs|
  {
    |DecodedIds(decode, txs[..p])|
  }

  ghost predicate AllDecodeBefore<T>(decode: T -> Option<Digest>, txs: seq<T>, p: nat)
    requires p <= |txs|
  {
    forall q :: 0 <= q < p ==> decode(txs[q]).Some?
  }

  /** No two decodable entries of a block share an id. */
  ghost predicate UniqueIds<T>(decode: T -> Option<Digest>, txs: seq<T>) {
    forall p, q :: 0 <= p < q < |txs| && decode(txs[p]).Some? ==> decode(txs[p]) != decode(txs[q])
  }

  lemma {:induction false} DecodedIdAt<T>(decode: T -> Option<Digest>, txs: seq<T>, p: nat)
    requires p < |txs| && decode(txs[p]).Some?
    ensures var r := Rank(decode, txs, p);
            r < |DecodedIds(decode, txs)| && DecodedIds(decode, txs)[r] == decode(txs[p]).value
  {
    var n := |txs| - 1;
    if p < n {
      DecodedIdAt(decode, txs[..n], p);
      assert txs[..n][..p] == txs[..p];
    }
  }

  lemma {:induction false} RankBounds<T>(decode: T -> Option<Digest>, txs: seq<T>, p: nat)
    requires p <= |txs|
    ensures Rank(decode, txs, p) <= p
    ensures Rank(decode, txs, p) == p <==> AllDecodeBefore(decode, txs, p)
  {
    if p == 0 {
    } else {
      RankBounds(decode, txs, p - 1);
      assert txs[..p][..p - 1] == txs[..p - 1];
    }
  }

  lemma {:induction false} RankStrict<T>(decode: T -> Option<Digest>, txs: seq<T>, p: nat, q: nat)
    requires p < q <= |txs| && decode(txs[p]).Some?
    ensures Rank(decode, txs, p) < Rank(decode, txs, q)
  {
    assert txs[..q][..q - 1] == txs[..q - 1];
    if p < q - 1 { RankStrict(decode, txs, p, q - 1); }
  }

  /** Ids that are distinct once numbered were distinct in the block. */
  lemma DistinctIdsAreUnique<T>(decode: T -> Option<Digest>, txs: seq<T>)
    requires var ids := DecodedIds(decode, txs);
             forall i, j :: 0 <= i < |ids| && 0 <= j < |ids| && ids[i] == ids[j] ==> i == j
    ensures UniqueIds(decode, txs)
  {
    forall p, q | 0 <= p < q < |txs| && decode(txs[p]).Some? ensures decode(txs[p]) != decode(txs[q]) {
      if decode(txs[q]).Some? {
        DecodedIdAt(decode, txs, p);
        DecodedIdAt(decode, txs, q);
        RankStrict(decode, txs, p, q);
      }
    }
  }

  /** Every stored id belongs to some entry, so stored positions and entries correspond. */
  lemma {:induction false} EntryOf<T>(decode: T -> Option<Digest>, txs: seq<T>, i: nat) returns (p: nat)
    requires i < |DecodedIds(decode, txs)|
    ensures p < |txs| && decode(txs[p]) == Some(DecodedIds(decode, txs)[i]) && Rank(decode, txs, p) == i
  {
    var n := |txs| - 1;
    if i < |DecodedIds(decode, txs[..n])| {
      p := EntryOf(decode, txs[..n], i);
      assert txs[..n][..p] == txs[..p];
    } else {
      p := n;
    }
  }

  /**
   The index stored for a transaction is its rank among the decodable entries, and it
   resolves back to that transaction exactly when no undecodable entry precedes it.
   */
  lemma StoredIndexResolves<T>(decode: T -> Option<Digest>, txs: seq<T>, p: nat)
    requires p < |txs| && decode(txs[p]).Some? && UniqueIds(decode, txs)
    ensures var stored := Rank(decode, txs, p);
            && stored <= p
            && stored < |DecodedIds(decode, txs)| && DecodedIds(decode, txs)[stored] == decode(txs[p]).value
            && (decode(txs[stored]) == decode(txs[p]) <==> AllDecodeBefore(decode, txs, p))
            && (AllDecodeBefore(decode, txs, p) ==> txs[stored] == txs[p])
  {
    DecodedIdAt(decode, txs, p);
    RankBounds(decode, txs, p);
  }

  /** How it fails: behind one entry that does not decode, an id is stored with that entry's position. */
  lemma UndecodableEntryMisleads<T>(decode: T -> Option<Digest>, bad: T, good: T)
    requires decode(bad).None? && decode(good).Some?
    ensures var txs := [bad, good];
            && DecodedIds(decode, txs) == [decode(good).value]
            && Rank(decode, txs, 1) == 0 && decode(txs[0]) != decode(good)
  {
    var txs := [bad, good];
    assert txs[..1] == [bad] && [bad][..0] == [];
    assert DecodedIds(decode, [bad]) == [];
  }
}
