/**
 One P-chain block as fetched: the cross-check of its two encodings, and the
 transactions it carries in the index space the store and `getTx` share.
 */
module PlatformBlock {
  import opened Wrappers
  import opened Codec
  import opened TxIndex

  /** The `unsignedTx` fields that tell a `RewardValidatorTx` from other proposals. */
  datatype Unsigned = Unsigned(hasTime: bool, hasInputs: bool, txId: Option<string>)

  /** A transaction value: its `id` if that is a string, its `unsignedTx`, and everything else. */
  datatype Tx = Tx(id: Option<string>, unsigned: Option<Unsigned>, body: string)

  const NULL_TX := Tx(None, None, "null")

  /** A block value: absent fields and fields of the wrong type read as `None`. */
  datatype BlockJson = BlockJson(
    id: Option<string>, height: Option<nat>, txs: Option<seq<Tx>>, tx: Option<Tx>, body: string)

  datatype Fetched = Fetched(
    height: nat, hexnc: string, json: BlockJson, id: Digest, txIds: seq<Digest>,
    kind: BlockKind, stakingTx: Option<string>)

  /** `txs` first, then the singular `tx`: a Banff proposal block carries both. */
  function BlockTxs(b: BlockJson): seq<Tx> {
    (if b.txs.Some? then b.txs.value else []) + (if b.tx.Some? then [b.tx.value] else [])
  }

  function DecodeId(sha: Sha256, tx: Tx): Option<Digest> {
    if tx.id.None? then None
    else
      match Cb58Decode(sha, tx.id.value)
      case Err => None
      case Ok(id) => Some(id)
  }

  /** A transaction decodes to an id exactly when its `id` spells it. */
  lemma DecodeIdIff(sha: Sha256, tx: Tx, id: Digest)
    ensures DecodeId(sha, tx) == Some(id) <==> tx.id == Some(Cb58Encode(sha, id))
  {
    hide Cb58Encode, Cb58Decode;
    Cb58RoundTrip(sha, id);
    if tx.id.Some? { Cb58OneSpelling(sha, tx.id.value); }
  }

  function Decoder(sha: Sha256): Tx -> Option<Digest> { (tx: Tx) => DecodeId(sha, tx) }

  /** `extract_tx_ids` */
  function ExtractTxIds(sha: Sha256, b: BlockJson): seq<Digest> { DecodedIds(Decoder(sha), BlockTxs(b)) }

  function RewardStakingTx(b: BlockJson): Option<string> {
    if b.tx.None? || b.tx.value.unsigned.None? then None
    else
      var u := b.tx.value.unsigned.value;
      if u.hasTime || u.hasInputs then None else u.txId
  }

  /** A `RewardValidatorTx` proposal: the singular `tx` carries a staking `txID` and neither time nor inputs. */
  predicate ProposesReward(b: BlockJson, staking: string) {
    && b.tx.Some? && b.tx.value.unsigned.Some?
    && b.tx.value.unsigned.value == Unsigned(false, false, Some(staking))
  }

  /** Exactly those are recognised, by their staking transaction. */
  lemma RewardProposalIff(b: BlockJson, staking: string)
    ensures RewardStakingTx(b) == Some(staking) <==> ProposesReward(b, staking)
    ensures RewardStakingTx(b).None? <==> forall id :: !ProposesReward(b, id)
  {
    if RewardStakingTx(b).Some? { assert ProposesReward(b, RewardStakingTx(b).value); }
  }

  /**
   `verify`: `sha256(bytes)` must reproduce the ID the JSON reports, and the height
   must be present and, when one was asked for, equal to it.
   */
  function Verify(sha: Sha256, bytesValue: Option<string>, json: BlockJson, asked: Option<nat>): Option<Fetched> {
    if bytesValue.None? then None
    else
      match HexncDecode(bytesValue.value)
      case Err => None
      case Ok(bytes) =>
        var reported := if json.id.Some? then json.id.value else "";
        var derived := Cb58Encode(sha, sha(bytes));
        if reported != derived then None
        else if json.height.None? then None
        else if asked.Some? && asked.value != json.height.value then None
        else
          match Cb58Decode(sha, derived)
          case Err => None
          case Ok(id) =>
            Some(Fetched(json.height.value, bytesValue.value, json, id,
                         ExtractTxIds(sha, json), KindOf(bytes), RewardStakingTx(json)))
  }

  /** A record whose halves agree: its ID is the hash of its own bytes. */
  ghost predicate SelfVerifying(sha: Sha256, f: Fetched) {
    && HexncDecode(f.hexnc).Ok?
    && f.id == sha(HexncDecode(f.hexnc).value)
    && f.json.id == Some(Cb58Encode(sha, f.id))
    && f.json.height == Some(f.height)
    && f.kind == KindOf(HexncDecode(f.hexnc).value)
    && f.txIds == ExtractTxIds(sha, f.json)
    && f.stakingTx == RewardStakingTx(f.json)
  }

  lemma EmptyIsNoId(sha: Sha256)
    ensures Cb58Decode(sha, "").Err?
  {
  }

  /** `verify` admits exactly the self-verifying records at the expected height. */
  lemma VerifyIff(sha: Sha256, bytesValue: Option<string>, json: BlockJson, asked: Option<nat>, f: Fetched)
    ensures Verify(sha, bytesValue, json, asked) == Some(f) <==>
            && SelfVerifying(sha, f) && bytesValue == Some(f.hexnc) && json == f.json
            && (asked.Some? ==> asked.value == f.height)
  {
    hide Cb58Encode, Cb58Decode, HexncDecode, KindOf, ExtractTxIds, RewardStakingTx;
    if bytesValue.Some? && HexncDecode(bytesValue.value).Ok? {
      var bytes := HexncDecode(bytesValue.value).value;
      Cb58RoundTrip(sha, sha(bytes));
      EmptyIsNoId(sha);
    }
  }

  /** The block value that `getTx` slices; taking a transaction out edits it in place. */
  class BlockValue {
    var txs: Option<seq<Tx>>
    var tx: Option<Tx>

    constructor (b: BlockJson)
      ensures txs == b.txs && tx == b.tx
    {
      txs, tx := b.txs, b.tx;
    }

    ghost function Listed(): seq<Tx>
      reads this
    {
      BlockTxs(BlockJson(None, None, txs, tx, ""))
    }

    /**
     `take_nth_tx`: the `idx`-th listed transaction leaves the block. `swap_remove`
     moves the last entry of the array into its place, so the rest keep their multiset;
     taking the singular `tx` leaves a JSON null behind.
     */
    method TakeNth(idx: nat) returns (r: Option<Tx>)
      modifies this
      ensures r == if idx < |old(Listed())| then Some(old(Listed())[idx]) else None
      ensures old(txs).Some? && idx < |old(txs).value| ==>
                multiset(Listed()) + multiset{old(Listed())[idx]} == multiset(old(Listed()))
      ensures r.Some? && !(old(txs).Some? && idx < |old(txs).value|) ==> Listed() == old(Listed())[idx := NULL_TX]
      ensures r.None? ==> Listed() == old(Listed())
    {
      var len := if txs.Some? then |txs.value| else 0;
      if idx < len {
        var arr := txs.value;
        r := Some(arr[idx]);
        var last := arr[len - 1];
        txs := Some(arr[idx := last][..len - 1]);
        SwapRemoved(arr, idx);
        return;
      }
      if idx != len {
        return None;
      }
      r := tx;
      if tx.Some? {
        tx := Some(NULL_TX);
      }
    }
  }

  lemma SwapRemoved(arr: seq<Tx>, idx: nat)
    requires idx < |arr|
    ensures multiset(arr[idx := arr[|arr| - 1]][..|arr| - 1]) + multiset{arr[idx]} == multiset(arr)
  {
    var n := |arr| - 1;
    var rest := arr[idx := arr[n]][..n];
    assert arr == arr[..n] + [arr[n]];
    if idx < n {
      assert arr[..n] == arr[..idx] + [arr[idx]] + arr[idx + 1..n];
      assert rest == arr[..idx] + [arr[n]] + arr[idx + 1..n];
    } else {
      assert rest == arr[..n];
    }
  }
}
