/**
 `platform.getBlock` and `platform.getTx` over any store that ingest or the mirror filled:
 what an ID resolves to is what the ID names.
 */
module PlatformServe {
  import opened Wrappers
  import opened BlockDb
  import opened Codec
  import opened TxIndex
  import opened PlatformBlock
  import Storage

  /** The three elements of a P-chain record. */
  datatype Elem = BlockElem(json: BlockJson) | BytesElem(hexnc: string) | RewardsElem(text: string)

  /** What `store_block` hands to `put` for a verified block. */
  function PutOf(f: Fetched, rewards: string): Storage.Put<Elem> {
    var record := Storage.Combined([BlockElem(f.json), BytesElem(f.hexnc), RewardsElem(rewards)]);
    Storage.Put(f.height, Storage.Block(f.id, f.txIds, record))
  }

  /** Every write is of a record that passed `verify`, on the direct path or the mirror's. */
  ghost predicate Admitted(sha: Sha256, steps: seq<Storage.Step<Elem>>) {
    forall k :: 0 <= k < |steps| && steps[k].Write? ==> AdmittedPut(sha, steps[k].put)
  }

  ghost predicate AdmittedPut(sha: Sha256, p: Storage.Put<Elem>) {
    exists f, rewards :: SelfVerifying(sha, f) && p == PutOf(f, rewards)
  }

  ghost predicate AdmittedBlock(sha: Sha256, b: Storage.Block<Elem>) {
    exists f, rewards :: SelfVerifying(sha, f) && b == PutOf(f, rewards).block
  }

  lemma {:induction false} StoredAreAdmitted(sha: Sha256, steps: seq<Storage.Step<Elem>>, h: nat)
    requires Admitted(sha, steps)
    ensures Has(Storage.RunAll(steps).db, h) ==> AdmittedBlock(sha, Storage.RunAll(steps).db.blocks[h])
  {
    hide SelfVerifying, PutOf;
    if steps == [] {
    } else {
      var n := |steps| - 1;
      StoredAreAdmitted(sha, steps[..n], h);
      if steps[n].Write? && Has(Storage.RunAll(steps).db, h) {
        assert AdmittedPut(sha, steps[n].put);
        if steps[n].put.height == h {
          var f, rewards :| SelfVerifying(sha, f) && steps[n].put == PutOf(f, rewards);
          assert AdmittedBlock(sha, steps[n].put.block);
        }
      }
    }
  }

  // ------------------------------------------------------------------ reads

  /** `get_element`: a missing height is a miss, a record that does not decode an error. */
  function GetElement(db: Db<Storage.Block<Elem>>, h: nat, idx: nat): Result<Option<Elem>> {
    if !Has(db, h) then Ok(None) else Storage.Element(db.blocks[h].stored, idx)
  }

  /** What is written is what is read: the block value, its bytes and its rewards, and no fourth element. */
  lemma ElementsOfARecord(db: Db<Storage.Block<Elem>>, h: nat, f: Fetched, rewards: string, idx: nat)
    requires Has(db, h) && db.blocks[h] == PutOf(f, rewards).block
    ensures GetElement(db, h, 0) == Ok(Some(BlockElem(f.json)))
    ensures GetElement(db, h, 1) == Ok(Some(BytesElem(f.hexnc)))
    ensures GetElement(db, h, 2) == Ok(Some(RewardsElem(rewards)))
    ensures idx > 2 ==> GetElement(db, h, idx) == Ok(None)
    ensures PutOf(f, rewards).height == f.height && PutOf(f, rewards).block.hash == f.id
  {
  }

  datatype Rendered = Text(s: string) | Json(json: BlockJson)

  /** `render_block`: the JSON element as stored, or the canonical bytes in the asked encoding. */
  function RenderBlock(sha: Sha256, db: Db<Storage.Block<Elem>>, h: nat, enc: Encoding): Result<Option<Rendered>> {
    match GetElement(db, h, if enc == JsonForm then 0 else 1)
    case Err => Err
    case Ok(None) => Ok(None)
    case Ok(Some(e)) =>
      if enc == JsonForm then (if e.BlockElem? then Ok(Some(Json(e.json))) else Err)
      else if !e.BytesElem? then Err
      else
        match HexncDecode(e.hexnc)
        case Err => Err
        case Ok(bytes) =>
          match RenderBytes(sha, enc, bytes)
          case None => Ok(None)
          case Some(s) => Ok(Some(Text(s)))
  }

  /** `get_block`: a malformed ID is an error, an unindexed one a miss. */
  function GetBlock(sha: Sha256, s: Storage.State<Elem>, blockId: string, enc: Encoding): Result<Option<Rendered>> {
    match Cb58Decode(sha, blockId)
    case Err => Err
    case Ok(raw) => if raw !in s.index.hashes then Ok(None) else RenderBlock(sha, s.db, s.index.hashes[raw], enc)
  }

  /** Is this answer the block value, or these bytes, with four checksum bytes in the checksummed forms? */
  ghost predicate Shows(sha: Sha256, enc: Encoding, json: BlockJson, bytes: Bytes, r: Rendered) {
    match r
    case Json(j) => enc == JsonForm && j == json
    case Text(s) =>
      && enc != JsonForm
      && HexncDecode(s) == Ok(if enc == Hexnc then bytes else bytes + Checksum(sha, bytes))
  }

  lemma RenderShows(sha: Sha256, db: Db<Storage.Block<Elem>>, h: nat, enc: Encoding, f: Fetched, rewards: string)
    requires Has(db, h) && SelfVerifying(sha, f) && db.blocks[h] == PutOf(f, rewards).block
    ensures var r := RenderBlock(sha, db, h, enc);
            r.Ok? && r.value.Some? && Shows(sha, enc, f.json, HexncDecode(f.hexnc).value, r.value.value)
  {
    hide HexncDecode, RenderBytes, Checksum, Cb58Encode, KindOf, ExtractTxIds, RewardStakingTx;
    if enc != JsonForm {
      var bytes := HexncDecode(f.hexnc).value;
      RenderedBytesDecode(sha, enc, bytes);
      assert RenderBlock(sha, db, h, enc) == Ok(Some(Text(RenderBytes(sha, enc, bytes).value)));
    }
  }

  /**
   Under finality, over every history of puts, failed batches and crashes: a string that is no
   ID is an error and an ID that is not indexed a miss. An indexed one has a single string of
   bytes whose SHA-256 is that ID and a single block value reporting it, and every encoding
   answers with those.
   */
  lemma GetBlockIsTheBlock(
      sha: Sha256, chain: nat -> Storage.Block<Elem>, steps: seq<Storage.Step<Elem>>, blockId: string)
      returns (bytes: Bytes, json: BlockJson)
    requires Storage.Final(chain) && Storage.Honest(chain, steps) && Admitted(sha, steps)
    ensures Cb58Decode(sha, blockId).Err? ==> forall enc :: GetBlock(sha, Storage.RunAll(steps), blockId, enc).Err?
    ensures Cb58Decode(sha, blockId).Ok? ==>
            var s, raw := Storage.RunAll(steps), Cb58Decode(sha, blockId).value;
            if raw !in s.index.hashes then forall enc :: GetBlock(sha, s, blockId, enc) == Ok(None)
            else
              && sha(bytes) == raw && json.id == Some(blockId)
              && forall enc ::
                   var r := GetBlock(sha, s, blockId, enc);
                   r.Ok? && r.value.Some? && Shows(sha, enc, json, bytes, r.value.value)
  {
    bytes, json := [], BlockJson(None, None, None, None, "");
    if Cb58Decode(sha, blockId).Err? {
      return;
    }
    var s := Storage.RunAll(steps);
    var raw := Cb58Decode(sha, blockId).value;
    Storage.LookupsAreRight(chain, steps, raw);
    hide Cb58Encode, Cb58Decode, HexncDecode, RenderBlock, Storage.RunAll, Storage.Final;
    if raw in s.index.hashes {
      var h := s.index.hashes[raw];
      StoredAreAdmitted(sha, steps, h);
      var f, rewards :| SelfVerifying(sha, f) && s.db.blocks[h] == PutOf(f, rewards).block;
      Cb58OneSpelling(sha, blockId);
      bytes, json := HexncDecode(f.hexnc).value, f.json;
      forall enc ensures var r := GetBlock(sha, s, blockId, enc);
                         r.Ok? && r.value.Some? && Shows(sha, enc, json, bytes, r.value.value)
      {
        RenderShows(sha, s.db, h, enc, f, rewards);
      }
    }
  }

  /** `get_tx` with the `json` encoding: the indexed block, then the indexed position. */
  function GetTx(sha: Sha256, s: Storage.State<Elem>, txId: string): Result<Option<Tx>> {
    match Cb58Decode(sha, txId)
    case Err => Err
    case Ok(raw) =>
      if raw !in s.index.txs then Ok(None)
      else
        match GetElement(s.db, s.index.txs[raw].height, 0)
        case Err => Err
        case Ok(None) => Ok(None)
        case Ok(Some(e)) =>
          if !e.BlockElem? then Err
          else
            var txs, i := BlockTxs(e.json), s.index.txs[raw].index;
            Ok(if i < |txs| then Some(txs[i]) else None)
  }

  /** A string that is no ID is an error, and an ID that is not indexed a miss. */
  lemma GetTxMisses(sha: Sha256, s: Storage.State<Elem>, txId: string)
    ensures GetTx(sha, s, txId) == Err <== Cb58Decode(sha, txId).Err?
    ensures Cb58Decode(sha, txId).Ok? && Cb58Decode(sha, txId).value !in s.index.txs ==> GetTx(sha, s, txId) == Ok(None)
  {
  }

  /**
   Under finality an indexed ID leads to the stored block that holds its transaction, at a
   position `p` whose rank among the decodable entries is the index stored; `getTx` answers
   with that transaction exactly when no undecodable entry precedes it in the block.
   */
  lemma GetTxIsTheTxIff(
      sha: Sha256, chain: nat -> Storage.Block<Elem>, steps: seq<Storage.Step<Elem>>, txId: string)
      returns (json: BlockJson, p: nat)
    requires Storage.Final(chain) && Storage.Honest(chain, steps) && Admitted(sha, steps)
    requires Cb58Decode(sha, txId).Ok? && Cb58Decode(sha, txId).value in Storage.RunAll(steps).index.txs
    ensures var s, raw, txs := Storage.RunAll(steps), Cb58Decode(sha, txId).value, BlockTxs(json);
            && GetElement(s.db, s.index.txs[raw].height, 0) == Ok(Some(BlockElem(json)))
            && p < |txs| && Decoder(sha)(txs[p]) == Some(raw)
            && Rank(Decoder(sha), txs, p) == s.index.txs[raw].index
    ensures GetTx(sha, Storage.RunAll(steps), txId).Ok?
    ensures var raw, txs := Cb58Decode(sha, txId).value, BlockTxs(json);
            var r := GetTx(sha, Storage.RunAll(steps), txId).value;
            && r.Some?
            && (Decoder(sha)(r.value) == Some(raw) <==> AllDecodeBefore(Decoder(sha), txs, p))
            && (AllDecodeBefore(Decoder(sha), txs, p) ==> r.value == txs[p])
  {
    hide Cb58Decode, Decoder, BlockTxs, AllDecodeBefore, Admitted, GetElement, Storage.RunAll, Storage.Final;
    var s := Storage.RunAll(steps);
    var raw := Cb58Decode(sha, txId).value;
    Storage.LookupsAreRight(chain, steps, raw);
    var h, i := s.index.txs[raw].height, s.index.txs[raw].index;
    json := StoredJson(sha, steps, h);
    var txs := BlockTxs(json);
    StoredTxsDiffer(chain, steps, h);
    DistinctIdsAreUnique(Decoder(sha), txs);
    p := EntryOf(Decoder(sha), txs, i);
    StoredIndexResolves(Decoder(sha), txs, p);
  }

  /** The ids indexed for a stored block are those of the block value served for its height. */
  lemma StoredJson(sha: Sha256, steps: seq<Storage.Step<Elem>>, h: nat) returns (json: BlockJson)
    requires Admitted(sha, steps) && Has(Storage.RunAll(steps).db, h)
    ensures var db := Storage.RunAll(steps).db;
            && GetElement(db, h, 0) == Ok(Some(BlockElem(json)))
            && db.blocks[h].txs == DecodedIds(Decoder(sha), BlockTxs(json))
  {
    hide Decoder, BlockTxs, Admitted, Storage.RunAll, HexncDecode, Cb58Encode, KindOf, RewardStakingTx;
    StoredAreAdmitted(sha, steps, h);
    var b := Storage.RunAll(steps).db.blocks[h];
    var f, rewards :| SelfVerifying(sha, f) && b == PutOf(f, rewards).block;
    json := f.json;
  }

  lemma StoredTxsDiffer(chain: nat -> Storage.Block<Elem>, steps: seq<Storage.Step<Elem>>, h: nat)
    requires Storage.Final(chain) && Storage.Honest(chain, steps) && Has(Storage.RunAll(steps).db, h)
    ensures var ids := Storage.RunAll(steps).db.blocks[h].txs;
            forall i, j :: 0 <= i < |ids| && 0 <= j < |ids| && ids[i] == ids[j] ==> i == j
  {
    Storage.ReachableFromChain(chain, steps);
    var ids := chain(h).txs;
    forall i, j | 0 <= i < |ids| && 0 <= j < |ids| && ids[i] == ids[j] ensures i == j {
      assert Storage.SameTx(chain, h, h, i, j);
    }
  }
}
