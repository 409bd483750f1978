/** The ledger state machine as functions: what every operation of the node does to its chain. */
module Ledger {
  import opened Wrappers
  import opened Accounts
  import opened Merkle
  import opened Blocks
  import opened Rewards
  import opened Execution
  import opened Mempool

  /** `disk` is the block directory, by height. */
  datatype Chain = Chain(
    height: int, tip: string, blocks: map<int, Block>, accounts: Accounts,
    mempool: seq<Tx>, ids: set<string>, keys: map<string, string>,
    pending: map<int, Block>, finalized: int, disk: map<int, Block>)

  const GENESIS := Chain(0, "", map[], map[], [], {}, map[], map[], 0, map[])

  /** What a call reads from outside: the clock, the node's own validator identity (empty without
      a daemon), the answer of the peer quorum and whether writing a block to disk succeeds. */
  datatype Env = Env(now: int, localId: string, quorum: bool, store: Block -> bool)

  datatype Verdict = Applied | Buffered | Refused(why: Refusal)

  // ----- applying a block

  /** The first pass over the transactions of a block. */
  function ScanTxs(c: Crypto, txs: seq<Tx>, ids: set<string>, keys: set<string>): Option<Refusal>
    decreases |txs|
  {
    if txs == [] then None
    else
      var tx := txs[0];
      if !VerifyTx(c, tx) then Some(BadTxSignature)
      else if !TxFieldsFit(tx) then Some(FieldTooLarge)
      else if c.txId(tx) in ids then Some(DuplicateTx)
      else if SenderNonceKey(tx) in keys then Some(DuplicateSenderNonce)
      else ScanTxs(c, txs[1..], ids + {c.txId(tx)}, keys + {SenderNonceKey(tx)})
  }

  /** Transactions with different identifiers and different pairs of sender and nonce. */
  predicate DistinctTxs(c: Crypto, t: Tx, u: Tx)
  {
    c.txId(t) != c.txId(u) && (t.sender != u.sender || t.nonce != u.nonce)
  }

  /** All verify and fit, and no two share an identifier or sender and nonce. */
  ghost predicate Scannable(c: Crypto, txs: seq<Tx>)
  {
    && (forall i :: 0 <= i < |txs| ==> VerifyTx(c, txs[i]) && TxFieldsFit(txs[i]))
    && (forall i, j :: 0 <= i < j < |txs| ==> DistinctTxs(c, txs[i], txs[j]))
  }

  lemma {:induction false} ScanFrom(c: Crypto, txs: seq<Tx>, ids: set<string>, keys: set<string>)
    ensures ScanTxs(c, txs, ids, keys).None? <==>
      Scannable(c, txs) && forall i :: 0 <= i < |txs| ==> c.txId(txs[i]) !in ids && SenderNonceKey(txs[i]) !in keys
    decreases |txs|
  {
    if txs != [] {
      hide VerifyTx, TxFieldsFit, SenderNonceKey;
      var tx, rest := txs[0], txs[1..];
      ScanFrom(c, rest, ids + {c.txId(tx)}, keys + {SenderNonceKey(tx)});
      assert forall i :: 1 <= i < |txs| ==> txs[i] == rest[i - 1];
      assert forall i :: 0 <= i < |rest| ==> rest[i] == txs[i + 1];
      forall i | 0 <= i < |rest| {
        SenderNonceKeyInjective(tx, rest[i]);
      }
    }
  }

  /** The first pass lets exactly those lists through. */
  lemma ScanExact(c: Crypto, txs: seq<Tx>)
    ensures ScanTxs(c, txs, {}, {}).None? <==> Scannable(c, txs)
  {
    ScanFrom(c, txs, {}, {});
  }

  /** The checks made before a block is written to disk, in order. */
  ghost function HeaderFault(c: Crypto, s: Chain, b: Block): Option<Refusal>
  {
    if b.reward < 0 then Some(NegativeReward)
    else if |b.txs| > MAX_BLOCK_TXS then Some(TooManyTxs)
    else if ScanTxs(c, b.txs, {}, {}).Some? then ScanTxs(c, b.txs, {}, {})
    else if b.height != s.height + 1 then Some(BadHeight)
    else if b.prevHash != s.tip then Some(BadPrevHash)
    else if b.time == 0 then Some(MissingTime)
    else if b.hash == "" || b.hash != BlockHash(c, b) then Some(BadHash)
    else if !BlockSignatureOk(c, b) then Some(BadBlockSignature)
    else if b.reward != ExpectedReward(b.height, FeeSum(b.txs)) then Some(BadReward)
    else if b.balancesRoot == None then Some(MissingRoot)
    else if b.balancesRoot != Some(Root(Predict(s.accounts, b))) then Some(BadRoot)
    else None
  }

  ghost function ApplyFault(c: Crypto, s: Chain, b: Block, stored: bool): Option<Refusal>
  {
    if HeaderFault(c, s, b).Some? then HeaderFault(c, s, b)
    else if !stored then Some(PersistFailed)
    else ExecFault(Execute(s.accounts, b.txs))
  }

  function ExecFault(e: Exec): Option<Refusal>
  {
    match e
    case Failed(why, _) => Some(why)
    case Done(_) => None
  }

  function CompactPool(c: Crypto, s: Chain): Chain
  {
    WithPool(c, s, Compact(c, s.accounts, s.mempool))
  }

  /** A pool with its indexes rebuilt. */
  function WithPool(c: Crypto, s: Chain, pool: seq<Tx>): Chain
  {
    s.(mempool := pool, ids := IdsOf(c, pool), keys := KeysOf(c, pool))
  }

  function FinalityTarget(s: Chain): int
  {
    if s.height - FINALITY_DEPTH < 0 then 0 else s.height - FINALITY_DEPTH
  }

  function Flagged(blocks: map<int, Block>, above: int, upTo: int): map<int, Block>
  {
    map h | h in blocks :: if above < h <= upTo then blocks[h].(isFinalized := true) else blocks[h]
  }

  function AdvanceFinality(s: Chain): Chain
  {
    if FinalityTarget(s) <= s.finalized then s
    else s.(blocks := Flagged(s.blocks, s.finalized, FinalityTarget(s)), finalized := FinalityTarget(s))
  }

  function Commit(c: Crypto, s: Chain, b: Block, after: Accounts): Chain
  {
    var s1 := s.(accounts := after, blocks := s.blocks[b.height := b], height := b.height, tip := b.hash);
    AdvanceFinality(CompactPool(c, s1))
  }

  function Persist(s: Chain, b: Block): Chain
  {
    s.(disk := s.disk[b.height := b])
  }

  /** What follows the write to disk. A block that fails now stays on disk, and the accounts its
      transactions named stay created. */
  function Finish(c: Crypto, s: Chain, b: Block): Chain
  {
    match Execute(s.accounts, b.txs)
    case Failed(_, touched) => Persist(s, b).(accounts := WithZeros(s.accounts, touched))
    case Done(a) => Commit(c, Persist(s, b), b, Settle(a, b))
  }

  ghost function ApplyBlock(c: Crypto, s: Chain, b: Block, stored: bool): Chain
  {
    if HeaderFault(c, s, b).Some? || !stored then s else Finish(c, s, b)
  }

  // ----- proposals from the network

  /** The checks made before a proposal is applied or buffered, in order. */
  function ProposalFault(c: Crypto, s: Chain, b: Block, e: Env): Option<Refusal>
  {
    if s.finalized > 0 && b.height <= s.finalized && b.height in s.blocks && s.blocks[b.height].hash != b.hash
    then Some(ReorgBlocked)
    else if e.localId != "" && e.localId != NO_VALIDATOR && b.producer != e.localId && !e.quorum
    then Some(NoQuorum)
    else if b.height <= 0 then Some(InvalidHeight)
    else if b.height <= s.height then
      if b.height in s.blocks then
        if s.blocks[b.height].hash == b.hash && b.hash != "" then Some(DuplicateCommitted)
        else Some(ConflictingCommitted)
      else Some(StaleHeight)
    else if b.time == 0 then Some(MissingTime)
    else if b.time > e.now + MAX_FUTURE_SKEW then Some(FutureTime)
    else if s.height in s.blocks && b.height == s.height + 1 && b.time <= s.blocks[s.height].time
    then Some(StaleTime)
    else if b.hash == "" || b.hash != BlockHash(c, b) then Some(BadHash)
    else if !BlockSignatureOk(c, b) then Some(BadBlockSignature)
    else if exists i :: 0 <= i < |b.txs| && Malformed(b.txs[i]) then Some(MalformedTx)
    else None
  }

  /** Applies buffered successors until none fits. */
  ghost function Drain(c: Crypto, s: Chain, store: Block -> bool): Chain
    decreases s.pending.Keys
  {
    var next := s.height + 1;
    if next !in s.pending then s
    else
      var b := s.pending[next];
      var popped := s.(pending := s.pending - {next});
      if b.prevHash != s.tip || (s.height in s.blocks && b.time <= s.blocks[s.height].time)
      then Drain(c, popped, store)
      else Drain(c, ApplyBlock(c, popped, b, store(b)), store)
  }

  ghost function Deliver(c: Crypto, s: Chain, b: Block, e: Env): Chain
  {
    if ProposalFault(c, s, b, e).Some? then s
    else if b.height == s.height + 1 then
      if ApplyFault(c, s, b, e.store(b)).Some? then ApplyBlock(c, s, b, e.store(b))
      else Drain(c, ApplyBlock(c, s, b, e.store(b)), e.store)
    else if b.height > s.height + MAX_BUFFER_DISTANCE || b.height in s.pending then s
    else s.(pending := s.pending[b.height := b])
  }

  ghost function DeliverVerdict(c: Crypto, s: Chain, b: Block, e: Env): Verdict
  {
    var fault := ProposalFault(c, s, b, e);
    if fault.Some? then Refused(fault.value)
    else if b.height == s.height + 1 then
      var why := ApplyFault(c, s, b, e.store(b));
      if why.Some? then Refused(why.value) else Applied
    else if b.height > s.height + MAX_BUFFER_DISTANCE then Refused(TooFarAhead)
    else if b.height in s.pending then
      if s.pending[b.height].hash == b.hash && b.hash != "" then Refused(DuplicatePending)
      else Refused(ConflictingPending)
    else Buffered
  }

  // ----- transactions from clients

  function SubmitFault(c: Crypto, s: Chain, tx: Tx): Option<Refusal>
  {
    if TxFault(c, s.accounts, |s.mempool|, tx).Some? then TxFault(c, s.accounts, |s.mempool|, tx)
    else if |s.mempool| >= MAX_MEMPOOL_TXS then Some(MempoolFull)
    else if c.txId(tx) in s.ids then Some(DuplicateTx)
    else if SenderNonceKey(tx) in s.keys && s.keys[SenderNonceKey(tx)] != c.txId(tx)
    then Some(ConflictingSenderNonce)
    else None
  }

  function Submit(c: Crypto, s: Chain, tx: Tx): Chain
  {
    if SubmitFault(c, s, tx).Some? then s
    else s.(mempool := s.mempool + [tx], ids := s.ids + {c.txId(tx)},
            keys := s.keys[SenderNonceKey(tx) := c.txId(tx)])
  }

  // ----- proposing

  /** What the proposer reads: the payout wallet, its key pair, whether the private key decodes
      and the clock when the block is built. */
  datatype Proposer = Proposer(wallet: string, pub: string, priv: string, keyHexOk: bool, stamp: int)

  function SafetyFault(s: Chain, pub: string): Option<Refusal>
  {
    if s.height + 1 in s.pending then Some(SuccessorBuffered)
    else if exists h :: h in s.pending && h > s.height && s.pending[h].producer != "" && s.pending[h].producer != pub
    then Some(OtherValidatorBuffered)
    else None
  }

  function ProposerFault(s: Chain, p: Proposer): Option<Refusal>
  {
    if p.wallet == "" then Some(NoPayoutAddress)
    else if p.pub == "" || p.priv == "" || p.pub == NO_VALIDATOR then Some(NoValidatorKeys)
    else SafetyFault(s, p.pub)
  }

  function TakeCount(pool: seq<Tx>): nat
  {
    if |pool| > MAX_BLOCK_TXS then MAX_BLOCK_TXS else |pool|
  }

  ghost function BuildBlock(c: Crypto, s: Chain, txs: seq<Tx>, p: Proposer): Block
  {
    var draft := Block(p.pub, p.wallet, ExpectedReward(s.height + 1, FeeSum(txs)), "", "", None, false,
                       p.pub, s.height + 1, s.tip, "", p.stamp, txs);
    var rooted := draft.(balancesRoot := Some(Root(Predict(s.accounts, draft))));
    var hashed := rooted.(hash := BlockHash(c, rooted));
    hashed.(signature := c.sign(p.priv, BlockHash(c, hashed)))
  }

  /** The pool after compaction, split into what the block takes and what stays. */
  ghost function Offer(c: Crypto, s: Chain, p: Proposer): (Chain, Block)
  {
    var pool := Compact(c, s.accounts, s.mempool);
    var n := TakeCount(pool);
    (WithPool(c, s, pool[n..]), BuildBlock(c, s, pool[..n], p))
  }

  ghost function Propose(c: Crypto, s: Chain, p: Proposer, e: Env): Chain
  {
    if ProposerFault(s, p).Some? then s
    else if !p.keyHexOk then CompactPool(c, s)
    else
      var (open, b) := Offer(c, s, p);
      var mine := e.(localId := p.pub);
      var after := Deliver(c, open, b, mine);
      if DeliverVerdict(c, open, b, mine).Refused? then WithPool(c, after, b.txs + after.mempool)
      else after
  }

  ghost function ProposeVerdict(c: Crypto, s: Chain, p: Proposer, e: Env): Verdict
  {
    var fault := ProposerFault(s, p);
    if fault.Some? then Refused(fault.value)
    else if !p.keyHexOk then Refused(BadKeyHex)
    else
      var (open, b) := Offer(c, s, p);
      DeliverVerdict(c, open, b, e.(localId := p.pub))
  }

  // ----- what acceptance means

  ghost predicate Accepts(c: Crypto, s: Chain, b: Block)
  {
    ApplyFault(c, s, b, true).None?
  }

  /** Everything a committed block is known to satisfy. */
  lemma AcceptedFacts(c: Crypto, s: Chain, b: Block)
    requires Accepts(c, s, b)
    ensures HeaderFault(c, s, b).None?
    ensures b.height == s.height + 1 && b.prevHash == s.tip && b.time != 0
    ensures b.hash == BlockHash(c, b) && b.hash != "" && b.producer != "" && Recipient(b) != ""
    ensures b.reward >= 0 && b.reward == ExpectedReward(b.height, FeeSum(b.txs))
    ensures b.balancesRoot == Some(Root(Predict(s.accounts, b)))
    ensures Execute(s.accounts, b.txs).Done?
    ensures ApplyBlock(c, s, b, true) ==
      Commit(c, Persist(s, b), b, Settle(Execute(s.accounts, b.txs).accounts, b))
  {
  }

  lemma CommitFacts(c: Crypto, s: Chain, b: Block, after: Accounts)
    ensures var t := Commit(c, s, b, after);
      && t.height == b.height && t.tip == b.hash && t.accounts == after
      && t.pending == s.pending && t.disk == s.disk
      && t.mempool == Compact(c, after, s.mempool)
      && t.ids == IdsOf(c, t.mempool) && t.keys == KeysOf(c, t.mempool)
  {
  }

  /** `t` is `s` with `b` appended and finality advanced. */
  ghost predicate Appended(s: Chain, b: Block, t: Chain)
  {
    var target := if b.height - FINALITY_DEPTH < 0 then 0 else b.height - FINALITY_DEPTH;
    && t.height == b.height
    && t.tip == b.hash
    && t.finalized == (if target <= s.finalized then s.finalized else target)
    && t.blocks == Flagged(s.blocks[b.height := b], s.finalized, t.finalized)
  }

  lemma CommitAppends(c: Crypto, s: Chain, b: Block, after: Accounts)
    ensures Appended(s, b, Commit(c, s, b, after))
  {
  }

  /** The state an accepted block leaves. */
  lemma AcceptedState(c: Crypto, s: Chain, b: Block, t: Chain)
    requires Accepts(c, s, b) && t == ApplyBlock(c, s, b, true)
    ensures Appended(s, b, t)
    ensures t.accounts == Settle(Execute(s.accounts, b.txs).accounts, b)
    ensures t.pending == s.pending && t.disk == s.disk[b.height := b]
    ensures t.mempool == Compact(c, t.accounts, s.mempool)
    ensures t.ids == IdsOf(c, t.mempool) && t.keys == KeysOf(c, t.mempool)
  {
    AcceptedFacts(c, s, b);
    CommitFacts(c, Persist(s, b), b, t.accounts);
    CommitAppends(c, Persist(s, b), b, t.accounts);
  }

  lemma AcceptedAppends(c: Crypto, s: Chain, b: Block, t: Chain)
    requires Accepts(c, s, b) && t == ApplyBlock(c, s, b, true)
    ensures Appended(s, b, t) && b.height == s.height + 1
  {
    hide Appended, ApplyBlock, Accepts;
    AcceptedFacts(c, s, b);
    AcceptedState(c, s, b, t);
  }

  /** A refused block leaves the chain as it was, up to zero accounts and the disk. */
  lemma RefusedFacts(c: Crypto, s: Chain, b: Block, stored: bool)
    requires ApplyFault(c, s, b, stored).Some?
    ensures var t := ApplyBlock(c, s, b, stored);
      && t == s.(accounts := t.accounts, disk := t.disk) && Same(s.accounts, t.accounts)
      && (t.disk == s.disk || (t.disk == s.disk[b.height := b] && b.height == s.height + 1 && !Accepts(c, s, b)))
  {
  }

  /** A block refused after its header checks and its write stays on disk, and the accounts of the
      transfers up to the one that failed stay created; nothing else changes. */
  lemma LateRefusal(c: Crypto, s: Chain, b: Block) returns (k: nat)
    requires HeaderFault(c, s, b).None? && ApplyFault(c, s, b, true).Some?
    ensures k < |b.txs| && Execute(s.accounts, b.txs[..k]).Done?
    ensures TransferFault(Execute(s.accounts, b.txs[..k]).accounts, b.txs[k]) == ApplyFault(c, s, b, true)
    ensures var t := ApplyBlock(c, s, b, true);
      && t == s.(accounts := t.accounts, disk := s.disk[b.height := b])
      && Same(s.accounts, t.accounts)
      && t.accounts.Keys == s.accounts.Keys + Parties(b.txs[..k])
           + if Malformed(b.txs[k]) then {} else {b.txs[k].sender, b.txs[k].receiver}
  {
    hide HeaderFault, Execute, TransferFault, Malformed, Parties;
    k := FailureExact(s.accounts, b.txs);
  }

  // ----- one block, two executions

  /** For every accepted block of height at least 1 the accounts it leaves are those its header
      commits to, exactly when the fee split is inactive or the fees are at most 5. */
  lemma PredictionRefinesExecution(c: Crypto, s: Chain, b: Block)
    requires s.height >= 0 && Accepts(c, s, b)
    ensures Same(ApplyBlock(c, s, b, true).accounts, Predict(s.accounts, b)) <==>
      b.height < 1279 || FeeSum(b.txs) <= 5
  {
    AcceptedFacts(c, s, b);
    CommitFacts(c, Persist(s, b), b, Settle(Execute(s.accounts, b.txs).accounts, b));
    ExecutionMeetsPrediction(s.accounts, b);
  }

  /** Where they differ, they differ at the treasury only, by ceil(F/5) - ceil(F/10). */
  lemma PredictionOffByTreasury(c: Crypto, s: Chain, b: Block, k: string)
    requires s.height >= 0 && Accepts(c, s, b)
    ensures FeeSum(b.txs) >= 0
    ensures var after := Get(ApplyBlock(c, s, b, true).accounts, k);
      var predicted := Get(Predict(s.accounts, b), k);
      && after.nonce == predicted.nonce
      && after.balance - predicted.balance ==
           if k == TREASURY_ADDR && b.height >= 1279
           then (FeeSum(b.txs) + 4) / 5 - (FeeSum(b.txs) + 9) / 10 else 0
  {
    hide Accepts, Commit, Settle, Predict, Execute, Get, BlockRewardForHeight, Root;
    AcceptedFacts(c, s, b);
    CommitFacts(c, Persist(s, b), b, Settle(Execute(s.accounts, b.txs).accounts, b));
    ExecutionAgainstPrediction(s.accounts, b, k);
  }

  /** A block is accepted exactly when it extends the tip, is dated, hashes to its hash, is signed by
      the validator it names, holds at most 64 transactions that are signed, fit, do not repeat and
      can be made one after another, claims the reward and the producer's share of the fees, and
      commits to the predicted ledger. */
  lemma AcceptsExact(c: Crypto, s: Chain, b: Block)
    ensures Accepts(c, s, b) <==>
      var f := FeeSum(b.txs);
      && b.height == s.height + 1 && b.prevHash == s.tip && b.time != 0
      && b.hash == BlockHash(c, b) && b.validatorId == b.producer != ""
      && (b.producerPubKey == "" || b.producerPubKey == b.validatorId)
      && c.blockAuth(b.validatorId, b.hash, b.signature)
      && |b.txs| <= 64 && Scannable(c, b.txs)
      && (forall i :: 0 <= i < |b.txs| ==> Affordable(s.accounts, b.txs, i))
      && b.reward == BlockRewardForHeight(b.height) + (if b.height < 1279 then f else f - (f + 9) / 10)
      && b.balancesRoot == Some(Root(Predict(s.accounts, b)))
  {
    hide Scannable, Affordable, ScanTxs, Execute, Predict, Root, FeeSum, BlockRewardForHeight, ProducerFees, TreasuryFees;
    ScanExact(c, b.txs);
    ExecuteExact(s.accounts, b.txs);
    SplitFeesExact(FeeSum(b.txs));
    if Execute(s.accounts, b.txs).Done? {
      ExecutedFees(s.accounts, b.txs);
    }
    assert BlockRewardForHeight(b.height) >= 0;
  }

  /** What an accepted block does to each account: the transfers, the reward and the producer's
      share of the fees for the payout address, the treasury's share from the fork on, and one nonce
      per transaction sent. */
  lemma BlockEffect(c: Crypto, s: Chain, b: Block, k: string)
    requires s.height >= 0 && Accepts(c, s, b)
    ensures var f := FeeSum(b.txs);
      var payout := if b.producerAddr != "" then b.producerAddr else b.producer;
      var before, after := Get(s.accounts, k), Get(ApplyBlock(c, s, b, true).accounts, k);
      && f >= 0
      && after.nonce == before.nonce + |SenderNonces(b.txs, k)|
      && after.balance == before.balance + NetTransfers(b.txs, k)
           + (if k == payout
              then BlockRewardForHeight(b.height) + (if b.height < 1279 then f else f - (f + 9) / 10) else 0)
           + (if k == "TREASURY_BLACKCHAIN" && b.height >= 1279 then (f + 4) / 5 else 0)
  {
    hide Accepts, Commit, Predict, Execute, Get, Pay, BlockRewardForHeight, ProducerFees, TreasuryFees, SenderNonces,
      NetTransfers, FeeSum, Root;
    AcceptedFacts(c, s, b);
    CommitFacts(c, Persist(s, b), b, Settle(Execute(s.accounts, b.txs).accounts, b));
    var mid := Execute(s.accounts, b.txs).accounts;
    ExecuteNet(s.accounts, b.txs, k);
    ExecuteNonces(s.accounts, b.txs, k);
    ExecutedFees(s.accounts, b.txs);
    SplitFeesExact(FeeSum(b.txs));
    NoFeesNoTreasury();
    PayAt(mid, Recipient(b), b.reward, k);
    PayAt(Pay(mid, Recipient(b), b.reward), TREASURY_ADDR, TreasuryFees(2 * FeeSum(b.txs)), k);
  }

  lemma SettleOnlyPays(a: Accounts, b: Block, k: string)
    requires b.reward >= 0
    ensures Get(Settle(a, b), k).nonce == Get(a, k).nonce && Get(Settle(a, b), k).balance >= Get(a, k).balance
  {
  }

  /** An account that sends nothing in an accepted block keeps its nonce and loses nothing. */
  lemma BystanderKeeps(c: Crypto, s: Chain, b: Block, k: string)
    requires Accepts(c, s, b) && forall i :: 0 <= i < |b.txs| ==> b.txs[i].sender != k
    ensures var before, after := Get(s.accounts, k), Get(ApplyBlock(c, s, b, true).accounts, k);
      after.nonce == before.nonce && after.balance >= before.balance
  {
    hide Accepts, Settle, Execute, Get, Appended;
    AcceptedFacts(c, s, b);
    AcceptedState(c, s, b, ApplyBlock(c, s, b, true));
    ExecuteBystander(s.accounts, b.txs, k);
    SettleOnlyPays(Execute(s.accounts, b.txs).accounts, b, k);
  }

  /** The commitment leaves no room for silent divergence: if two nodes accept the same block, their
      ledgers were equal, zero accounts aside, before it. */
  lemma AcceptanceMeansAgreement(c: Crypto, s: Chain, t: Chain, b: Block)
    requires Accepts(c, s, b) && Accepts(c, t, b)
    ensures s.height == t.height && s.tip == t.tip && Same(s.accounts, t.accounts)
    ensures Same(ApplyBlock(c, s, b, true).accounts, ApplyBlock(c, t, b, true).accounts)
  {
    AcceptedFacts(c, s, b);
    AcceptedFacts(c, t, b);
    RootExact(Predict(s.accounts, b), Predict(t.accounts, b));
    PredictReflectsSame(s.accounts, t.accounts, b);
    ExecuteSame(s.accounts, t.accounts, b.txs);
    SettleSame(Execute(s.accounts, b.txs).accounts, Execute(t.accounts, b.txs).accounts, b);
    CommitFacts(c, Persist(s, b), b, Settle(Execute(s.accounts, b.txs).accounts, b));
    CommitFacts(c, Persist(t, b), b, Settle(Execute(t.accounts, b.txs).accounts, b));
  }
}
