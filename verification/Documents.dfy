/** What a file of the store may hold, and the digests of it. */
module Documents {
  import opened Options
  import StateWire

  type Txid = nat

  /** The prepared-journal record; its stage is the sibling derived from the transaction id. */
  datatype Journal = Journal(base: Option<Digest>, goal: Digest, staged: Txid)

  /**
   The bytes of a file.  The store never looks inside a document; the state
   layer reads the two schema versions, and anything else is opaque to both.
  */
  datatype Bytes =
    | Raw(data: seq<bv8>)
    | Record(journal: Journal)
    | V1(legacy: StateWire.StateV1Wire)
    | V2(state: StateWire.StateV2Wire)

  /** SHA-256 as an abstract injective function. */
  datatype Digest = Sha256(preimage: Bytes)

  function Empty(): Bytes {
    Raw([])
  }

  function DigestOf(bytes: Option<Bytes>): Option<Digest> {
    match bytes
    case None => None
    case Some(b) => Some(Sha256(b))
  }
}
