/** Transactions, blocks, and the cryptography the ledger relies on. */
module Blocks {
  import opened Wrappers
  import opened Text
  import opened Merkle

  datatype Tx = Tx(
    sender: string, receiver: string, amount: int, nonce: int, fee: int,
    pubKey: string, signature: string)

  /** `time` counts nanoseconds from Go's zero time, so `IsZero` is `time == 0`. The commitment
      is `None` for the empty string, which is no digest. */
  datatype Block = Block(
    producer: string, producerAddr: string, reward: int, producerPubKey: string,
    signature: string, balancesRoot: Option<Digest>, isFinalized: bool, validatorId: string,
    height: int, prevHash: string, hash: string, time: int, txs: seq<Tx>)

  /** The fields of a block its hash covers. */
  datatype Header = Header(
    validatorId: string, balancesRoot: Option<Digest>, height: int, prevHash: string,
    time: int, producer: string, txs: seq<Tx>)

  /** The hexadecimal text of a digest; never empty. */
  type Hex = s: string | s != "" && forall i :: 0 <= i < |s| ==> '0' <= s[i] <= '9' || 'a' <= s[i] <= 'f' witness "0"

  /** Ed25519 (section 5.1 of RFC 8032) and SHA-256 (section 6.2 of FIPS 180-4) as the node calls
      them. Every result holds for every choice of these functions.
      `txAuth` covers the hex decoding of key and signature, the binding of the key to the sending
      address and the signature over sender, receiver, amount and nonce. */
  datatype Crypto = Crypto(
    txAuth: (string, string, string, string, int, int) -> bool,
    blockAuth: (string, string, string) -> bool,
    sign: (string, string) -> string,
    blockHash: Header -> Hex,
    txId: Tx -> Hex,
    accountsHash: seq<Entry> -> Hex,
    snapshotHash: string -> Hex)

  const MAX_MEMPOOL_TXS := 256
  const MAX_BLOCK_TXS := 64
  const MAX_TX_FIELD_LEN := 256
  const BASE_FEE := 1
  const FEE_CONGESTION_STEP := 256
  const FEE_STEP_INCREMENT := 1
  const MAX_FUTURE_SKEW := 120_000_000_000
  const MAX_BUFFER_DISTANCE := 2
  const FINALITY_DEPTH := 2
  const NO_VALIDATOR := "ERR_NO_VALIDATOR"

  /** Every error the ledger code returns. */
  datatype Refusal =
    // transactions
    | BadTxSignature | FieldTooLarge | DuplicateTx | DuplicateSenderNonce
    | MissingParty | SelfTransfer | BadAmount | NegativeNonce | NegativeFee | FeeTooLow
    | BadNonce | InsufficientBalance | MempoolFull | ConflictingSenderNonce
    // block application
    | NegativeReward | TooManyTxs | BadHeight | BadPrevHash | MissingTime | BadHash
    | BadBlockSignature | BadReward | MissingRoot | BadRoot | PersistFailed
    // proposals
    | ReorgBlocked | NoQuorum | InvalidHeight | DuplicateCommitted | ConflictingCommitted
    | StaleHeight | FutureTime | StaleTime | MalformedTx | TooFarAhead
    | DuplicatePending | ConflictingPending
    // proposing
    | NoPayoutAddress | NoValidatorKeys | SuccessorBuffered | OtherValidatorBuffered | BadKeyHex

  function HeaderOf(b: Block): Header
  {
    Header(b.validatorId, b.balancesRoot, b.height, b.prevHash, b.time, b.producer, b.txs)
  }

  function BlockHash(c: Crypto, b: Block): string
  {
    c.blockHash(HeaderOf(b))
  }

  predicate BlockSignatureOk(c: Crypto, b: Block)
  {
    && b.validatorId != ""
    && b.producer != ""
    && b.validatorId == b.producer
    && (b.producerPubKey == "" || b.producerPubKey == b.validatorId)
    && c.blockAuth(b.validatorId, BlockHash(c, b), b.signature)
  }

  predicate VerifyTx(c: Crypto, tx: Tx)
  {
    && tx.sender != "" && tx.receiver != ""
    && tx.amount > 0
    && tx.nonce >= 0
    && tx.pubKey != "" && tx.signature != ""
    && c.txAuth(tx.pubKey, tx.signature, tx.sender, tx.receiver, tx.amount, tx.nonce)
  }

  predicate TxFieldsFit(tx: Tx)
  {
    && |tx.sender| <= MAX_TX_FIELD_LEN
    && |tx.receiver| <= MAX_TX_FIELD_LEN
    && |tx.pubKey| <= MAX_TX_FIELD_LEN * 4
    && |tx.signature| <= MAX_TX_FIELD_LEN * 4
  }

  function SenderNonceKey(tx: Tx): string
  {
    tx.sender + [':'] + FormatInt(tx.nonce)
  }

  /** The pending-pool key separates senders even when addresses contain colons. */
  lemma SenderNonceKeyInjective(t: Tx, u: Tx)
    ensures SenderNonceKey(t) == SenderNonceKey(u) <==> t.sender == u.sender && t.nonce == u.nonce
  {
    if SenderNonceKey(t) == SenderNonceKey(u) {
      SplitLastField(t.sender, FormatInt(t.nonce), u.sender, FormatInt(u.nonce), ':');
      FormatIntInjective(t.nonce, u.nonce);
    }
  }
}
