/** Compact blocks, and the primitives this model takes as parameters: the protobuf codec of a stored
    block and SHA-256. */
module Blocks {
  import opened Base

  datatype ChainMetadata = ChainMetadata(sapling: nat, orchard: nat, ironwood: nat)

  datatype Output = Output(cmu: Bytes, ephemeralKey: Bytes, ciphertext: Bytes)

  datatype Action = Action(nullifier: Bytes, cmx: Bytes, ephemeralKey: Bytes, ciphertext: Bytes)

  datatype TxIn = TxIn(prevoutTxid: Bytes, prevoutIndex: nat)

  datatype TxOut = TxOut(amount: nat, scriptPubKey: Bytes)

  datatype CompactTx = CompactTx(
    index: nat, txid: Bytes, fee: nat,
    spends: seq<Bytes>, outputs: seq<Output>, actions: seq<Action>, ironwoodActions: seq<Action>,
    vin: seq<TxIn>, vout: seq<TxOut>)

  datatype CompactBlock = CompactBlock(
    height: nat, hash: Bytes, prevHash: Bytes, time: nat, header: Bytes,
    vtx: seq<CompactTx>, metadata: Option<ChainMetadata>)

  /** The code this model does not look into. */
  datatype Primitives = Primitives(
    encode: CompactBlock -> Bytes,
    decode: Bytes -> Option<CompactBlock>,
    sha256: Bytes -> Bytes)
  {
    /** Decoding undoes encoding, and a digest is 32 bytes. */
    ghost predicate Lawful() {
      && (forall b: CompactBlock :: decode(encode(b)) == Some(b))
      && (forall x: Bytes :: |sha256(x)| == 32)
    }
  }
}
