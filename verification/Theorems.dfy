/** The main results, over every run of a node from an empty chain. */
module Theorems {
  import opened Wrappers
  import opened Accounts
  import opened Merkle
  import opened Blocks
  import opened Rewards
  import opened Execution
  import opened Mempool
  import opened Ledger
  import opened History
  import opened Replay
  import opened Runs
  import opened Proposing
  import opened DeliveryOrder
  import opened Agreement

  ghost function Reached(c: Crypto, es: seq<Event>): Chain
  {
    Run(c, GENESIS, es)
  }

  lemma ReachedGood(c: Crypto, es: seq<Event>)
    ensures Good(c, Reached(c, es))
  {
    GenesisGood(c);
    RunKeepsGood(c, GENESIS, es);
  }

  // ----- history

  /** Blocks are exactly those of heights 1 to the tip, each under its height, hashing to its hash and
      naming its predecessor, with rising timestamps; all but the last two are final; and nothing that
      happens later changes any of them but for raising its finality flag. */
  lemma AppendOnlyHistory(c: Crypto, es: seq<Event>, later: seq<Event>, g: int, h: int)
    ensures var s := Reached(c, es);
      && s.height >= 0 && (forall k :: k in s.blocks <==> 1 <= k <= s.height)
      && s.tip == (if s.height == 0 then "" else s.blocks[s.height].hash)
      && s.finalized == (if s.height <= 2 then 0 else s.height - 2)
    ensures var s := Reached(c, es);
      1 <= h <= s.height ==>
        && s.blocks[h].height == h && s.blocks[h].hash == BlockHash(c, s.blocks[h])
        && s.blocks[h].prevHash == (if h == 1 then "" else s.blocks[h - 1].hash)
        && (h <= s.height - 2 ==> s.blocks[h].isFinalized)
        && (1 <= g < h ==> s.blocks[g].time < s.blocks[h].time)
    ensures Extends(Reached(c, es), Run(c, Reached(c, es), later))
  {
    hide Run, DiskOk, PoolInv, NoncesOk, SupplyOk, BlocksOk, BlockHash;
    ReachedGood(c, es);
    RunKeepsGood(c, Reached(c, es), later);
    var s := Reached(c, es);
    if 1 <= h <= s.height {
      assert Linked(c, s, h);
      if 1 <= g < h {
        TimesRise(c, s, g, h);
      }
    }
  }

  /** Every committed block is signed by the validator it names and has at most 64 transactions; every
      committed transaction is signed for its sender, recipient, amount and nonce, moves a positive
      amount between two parties, pays no negative fee and fits the size limits; no two of a block share
      an identifier or sender and nonce. */
  lemma CommittedIsSigned(c: Crypto, es: seq<Event>, h: int, i: nat, j: nat)
    requires 1 <= h <= Reached(c, es).height
    ensures h in Reached(c, es).blocks
    ensures var b := Reached(c, es).blocks[h];
      && b.validatorId == b.producer != "" && c.blockAuth(b.validatorId, b.hash, b.signature)
      && (b.producerPubKey == "" || b.producerPubKey == b.validatorId)
      && b.time != 0 && |b.txs| <= 64
    ensures var txs := Reached(c, es).blocks[h].txs;
      i < |txs| ==>
        var t := txs[i];
        && c.txAuth(t.pubKey, t.signature, t.sender, t.receiver, t.amount, t.nonce)
        && t.pubKey != "" && t.signature != ""
        && t.sender != "" && t.receiver !in {"", t.sender} && t.amount > 0 && t.nonce >= 0 && t.fee >= 0
        && |t.sender| <= 256 && |t.receiver| <= 256 && |t.pubKey| <= 1024 && |t.signature| <= 1024
        && (i < j < |txs| ==> c.txId(t) != c.txId(txs[j]) && (t.sender != txs[j].sender || t.nonce != txs[j].nonce))
  {
    hide Run, DiskOk, PoolInv, NoncesOk, SupplyOk;
    ReachedGood(c, es);
    var s := Reached(c, es);
    assert Linked(c, s, h) && Sealed(c, s.blocks[h]);
    if i < j < |s.blocks[h].txs| {
      assert DistinctTxs(c, s.blocks[h].txs[i], s.blocks[h].txs[j]);
    }
  }

  // ----- supply

  lemma {:induction false} NoSurplusBeforeFork(log: seq<Block>)
    requires |log| < FEE_SPLIT_FORK_HEIGHT
    ensures SurplusSum(log) == 0
    decreases |log|
  {
    if log != [] {
      NoSurplusBeforeFork(log[..|log| - 1]);
    }
  }

  /** No balance is ever negative. All coins are block rewards, plus the treasury surplus of blocks
      after the fee fork; before the fork, at most 9,100,000 plus the height. */
  lemma SupplyAccounting(c: Crypto, es: seq<Event>)
    ensures var s := Reached(c, es);
      && Complete(s) && NonNegative(s.accounts)
      && Total(s.accounts) == RewardSum(s.height) + SurplusSum(Log(s))
      && Total(s.accounts) <= 9_100_000 + s.height + SurplusSum(Log(s))
      && (s.height < 1279 ==> SurplusSum(Log(s)) == 0)
  {
    hide Run, Total;
    ReachedGood(c, es);
    var s := Reached(c, es);
    IssuanceBound(s.height);
    if s.height < 1279 {
      NoSurplusBeforeFork(Log(s));
    }
  }

  /** What an accepted block does to each account of a reachable state. */
  lemma AcceptedBlockPays(c: Crypto, es: seq<Event>, b: Block, k: string)
    requires Accepts(c, Reached(c, es), b)
    ensures var s := Reached(c, es); var f := FeeSum(b.txs);
      var payout := if b.producerAddr != "" then b.producerAddr else b.producer;
      var before, after := Get(s.accounts, k), Get(ApplyBlock(c, s, b, true).accounts, k);
      && b.height == s.height + 1 && f >= 0
      && after.nonce == before.nonce + |SenderNonces(b.txs, k)|
      && after.balance == before.balance + NetTransfers(b.txs, k)
           + (if k == payout
              then BlockRewardForHeight(b.height) + (if b.height < 1279 then f else f - (f + 9) / 10) else 0)
           + (if k == "TREASURY_BLACKCHAIN" && b.height >= 1279 then (f + 4) / 5 else 0)
  {
    hide Run, Accepts, ApplyBlock, Get, NetTransfers, SenderNonces, FeeSum, BlockRewardForHeight, PoolInv, DiskOk;
    ReachedGood(c, es);
    AcceptedFacts(c, Reached(c, es), b);
    BlockEffect(c, Reached(c, es), b, k);
  }

  // ----- transactions

  /** An account's nonce is the number of its committed transactions, whose nonces read 0, 1, 2, ...;
      no two committed transactions share sender and nonce. */
  lemma NoTransactionReplay(c: Crypto, es: seq<Event>, k: string, i: nat, j: nat)
    ensures Complete(Reached(c, es))
    ensures var s := Reached(c, es); var txs := Transactions(Log(s));
      && Get(s.accounts, k).nonce == |SenderNonces(txs, k)|
      && (forall n :: 0 <= n < |SenderNonces(txs, k)| ==> SenderNonces(txs, k)[n] == n)
      && (i < j < |txs| ==> txs[i].sender != txs[j].sender || txs[i].nonce != txs[j].nonce)
  {
    hide Run;
    ReachedGood(c, es);
    var s := Reached(c, es);
    assert NoncesOf(s, k);
    if i < j < |Transactions(Log(s))| {
      NoReplay(s, i, j);
    }
  }

  // ----- mempool

  /** The pool of every reachable state, and what compacting it does. */
  lemma MempoolInvariant(c: Crypto, es: seq<Event>, i: nat, j: nat)
    ensures var s := Reached(c, es);
      && |s.mempool| <= 256
      && s.ids == IdsOf(c, s.mempool) && s.keys == KeysOf(c, s.mempool)
      && (i < j < |s.mempool| ==> s.mempool[i].sender != s.mempool[j].sender)
      && (i < |s.mempool| ==>
            && VerifyTx(c, s.mempool[i])
            && s.mempool[i].nonce == Get(s.accounts, s.mempool[i].sender).nonce
            && s.mempool[i].amount + s.mempool[i].fee <= Get(s.accounts, s.mempool[i].sender).balance)
      && (|s.mempool| < 256 ==> CompactPool(c, s).mempool == s.mempool)
      && (|s.mempool| == 256 ==> CompactPool(c, s).mempool == FeeFilter(s.mempool, 2))
  {
    hide Run, Compact, IdsOf, KeysOf, FeeFilter, HistoryOk, SupplyOk, NoncesOk, DiskOk;
    ReachedGood(c, es);
    var s := Reached(c, es);
    CompactPrecise(c, s.accounts, s.mempool);
    if i < |s.mempool| {
      assert TxFault(c, s.accounts, 0, s.mempool[i]).None?;
    }
    if i < j < |s.mempool| {
      assert Apart(c, s.mempool[i], s.mempool[j]);
    }
  }

  /** In every reachable state a transaction is admitted exactly when it is signed and well formed,
      spends its sender's next nonce from a sufficient balance, pays at least 1, and there is room and
      no pending transaction of that sender or with that identifier. It goes to the end of the pool. */
  lemma AdmissionIsExact(c: Crypto, es: seq<Event>, tx: Tx)
    ensures var s := Reached(c, es); var ac := Get(s.accounts, tx.sender);
      var admissible :=
        && c.txAuth(tx.pubKey, tx.signature, tx.sender, tx.receiver, tx.amount, tx.nonce)
        && tx.pubKey != "" && tx.signature != ""
        && tx.sender != "" && tx.receiver !in {"", tx.sender} && tx.amount > 0 && tx.nonce >= 0 && tx.fee >= 1
        && |tx.sender| <= 256 && |tx.receiver| <= 256 && |tx.pubKey| <= 1024 && |tx.signature| <= 1024
        && ac.nonce == tx.nonce && ac.balance >= tx.amount + tx.fee
        && |s.mempool| < 256
        && (forall i :: 0 <= i < |s.mempool| ==>
              s.mempool[i].sender != tx.sender && c.txId(s.mempool[i]) != c.txId(tx));
      && (SubmitFault(c, s, tx).None? <==> admissible)
      && Submit(c, s, tx).mempool == s.mempool + if admissible then [tx] else []
  {
    hide Run, PoolOk, IdsOf, KeysOf, HistoryOk, BlocksOk, SupplyOk, NoncesOk, DiskOk, SubmitFault, Submit;
    ReachedGood(c, es);
    AdmissionExact(c, Reached(c, es), tx);
  }

  /** A block accepted in a reachable state drops a pending transaction exactly when its nonce is no
      longer the next of its sender, its sender can no longer pay, or the pool was full and it pays
      less than 2; what stays keeps its order. A transaction of a sender the block does not move goes
      for the fee only. */
  lemma AcceptedBlockKeepsPending(c: Crypto, es: seq<Event>, b: Block, tx: Tx)
    requires var s := Reached(c, es); Accepts(c, s, b) && tx in s.mempool
    ensures var s := Reached(c, es); var t := ApplyBlock(c, s, b, true); var ac := Get(t.accounts, tx.sender);
      && t.mempool == StillValid(c, t.accounts, |s.mempool|, s.mempool)
      && (tx in t.mempool <==>
           ac.nonce == tx.nonce && ac.balance >= tx.amount + tx.fee && (|s.mempool| < 256 || tx.fee >= 2))
      && ((forall i :: 0 <= i < |b.txs| ==> b.txs[i].sender != tx.sender) ==>
           (tx in t.mempool <==> |s.mempool| < 256 || tx.fee >= 2))
  {
    hide Run, Accepts, ApplyBlock, StillValid, PoolInv, HistoryOk, BlocksOk, SupplyOk, NoncesOk, DiskOk, Get;
    ReachedGood(c, es);
    var s := Reached(c, es);
    BlockKeepsPending(c, s, b, tx);
    if (forall i :: 0 <= i < |b.txs| ==> b.txs[i].sender != tx.sender) && (|s.mempool| < 256 || tx.fee >= 2) {
      BystanderStaysPending(c, s, b, tx);
    }
  }

  // ----- proposing

  /** In every reachable state a proposer with matching keys, a wallet, a write that succeeds and a clock
      past the last block extends the chain, unless a buffered block is in its way. */
  lemma ProposerCompleteness(c: Crypto, es: seq<Event>, p: Proposer, e: Env)
    requires var s := Reached(c, es);
      && ProposerFault(s, p).None? && p.keyHexOk && KeysMatch(c, p)
      && p.stamp != 0 && p.stamp <= e.now + 120_000_000_000
      && (s.height in s.blocks ==> s.blocks[s.height].time < p.stamp)
    requires e.store(Offer(c, Reached(c, es), p).1)
    ensures ProposeVerdict(c, Reached(c, es), p, e) == Applied
    ensures Propose(c, Reached(c, es), p, e).height > Reached(c, es).height
  {
    ReachedGood(c, es);
    ProposerCompletes(c, Reached(c, es), p, e);
  }

  // ----- delivery order

  /** Blocks of one valid chain, delivered in any order with any repetition, whatever clock, quorum
      and disk answer, mixed with any transactions and restarts: the node is always at a prefix of the
      chain, and one in-order pass they let through then takes it to the end. */
  lemma DeliveryOrderSafetyAndProgress(c: Crypto, bs: seq<Block>, es: seq<Event>, envs: seq<Env>) returns (k: nat)
    requires ValidChain(c, bs) && |envs| == |bs|
    requires forall i :: 0 <= i < |es| ==> OnChain(bs, es[i])
    ensures k <= |bs| && Alike(Fold(c, bs, k), Reached(c, es))
    ensures forall h :: h in Reached(c, es).pending ==> h == k + 2 && k + 1 < |bs| && Reached(c, es).pending[h] == bs[k + 1]
    ensures (forall i :: 0 <= i < |bs| ==> Fair(bs, i, envs[i])) ==>
      Alike(Fold(c, bs, |bs|), Run(c, Reached(c, es), Pass(bs, envs, 0)))
  {
    hide ValidChain, Good, Run, OnChain, Fair, Pass, Fold;
    GenesisOnChain(c, bs);
    GenesisGood(c);
    k := AnyOrderIsSafe(c, bs, GENESIS, 0, es);
    if forall i :: 0 <= i < |bs| ==> Fair(bs, i, envs[i]) {
      InOrderPassCompletes(c, bs, envs, Reached(c, es), k, 0);
    }
  }

  /** Blocks of a valid chain that arrive with any disjoint pairs of neighbours swapped, after whatever
      went before, take the node to the end of the chain, under fair clock, quorum and disk. */
  lemma SwappedNeighboursComplete(c: Crypto, bs: seq<Block>, es: seq<Event>, order: seq<nat>, envs: seq<Env>)
    requires ValidChain(c, bs) && |envs| == |bs| && NearOrder(order, |bs|)
    requires forall i :: 0 <= i < |es| ==> OnChain(bs, es[i])
    requires forall q :: 0 <= q < |bs| ==> Heard(bs, order[q], envs[q]) && Stores(envs[q].store, bs)
    ensures Alike(Fold(c, bs, |bs|), Run(c, Reached(c, es), Arrivals(bs, order, envs, 0)))
  {
    hide ValidChain, Good, Run, OnChain, Heard, Arrivals, Fold;
    GenesisOnChain(c, bs);
    GenesisGood(c);
    var k := AnyOrderIsSafe(c, bs, GENESIS, 0, es);
    NearOrderCompletes(c, bs, order, envs, Reached(c, es), k, 0);
  }

  /** What a delivery does in a reachable state. It passes the first checks exactly when the quorum, if
      it is asked, says yes, the block is above the tip, dated, at most two minutes ahead of the clock
      and, as direct successor, younger than the tip, hashes to its hash, is signed by the validator it
      names and holds no malformed transaction. Otherwise nothing changes. If it passes, it is applied
      exactly when it is the next block, can be written and is accepted, and buffered exactly when it
      is the one after and none is. */
  lemma DeliveryIsExact(c: Crypto, es: seq<Event>, b: Block, e: Env)
    ensures var s := Reached(c, es);
      var passes :=
        && (e.quorum || e.localId in {"", "ERR_NO_VALIDATOR", b.producer})
        && b.height > s.height && b.time != 0 && b.time <= e.now + 120_000_000_000
        && (b.height == s.height + 1 && s.height in s.blocks ==> s.blocks[s.height].time < b.time)
        && b.hash == BlockHash(c, b) && b.validatorId == b.producer != ""
        && (b.producerPubKey == "" || b.producerPubKey == b.validatorId)
        && c.blockAuth(b.validatorId, b.hash, b.signature)
        && (forall i :: 0 <= i < |b.txs| ==>
              b.txs[i].sender != "" && b.txs[i].receiver !in {"", b.txs[i].sender} && b.txs[i].amount > 0);
      && (!passes ==> Deliver(c, s, b, e) == s && DeliverVerdict(c, s, b, e).Refused?)
      && (DeliverVerdict(c, s, b, e).Applied? <==>
            passes && b.height == s.height + 1 && e.store(b) && Accepts(c, s, b))
      && (DeliverVerdict(c, s, b, e).Buffered? <==> passes && b.height == s.height + 2 && b.height !in s.pending)
      && (DeliverVerdict(c, s, b, e).Buffered? ==> Deliver(c, s, b, e) == s.(pending := s.pending[b.height := b]))
  {
    hide Run, DiskOk, PoolInv, NoncesOk, SupplyOk, BlocksOk, Linked, Deliver, DeliverVerdict, ProposalFault;
    ReachedGood(c, es);
    ProposalExact(c, Reached(c, es), b, e);
    DeliverByChecks(c, Reached(c, es), b, e);
  }

  lemma ProposalExact(c: Crypto, s: Chain, b: Block, e: Env)
    requires 0 <= s.finalized <= s.height
    ensures ProposalFault(c, s, b, e).None? <==>
      && (e.quorum || e.localId in {"", "ERR_NO_VALIDATOR", b.producer})
      && b.height > s.height && b.time != 0 && b.time <= e.now + 120_000_000_000
      && (b.height == s.height + 1 && s.height in s.blocks ==> s.blocks[s.height].time < b.time)
      && b.hash == BlockHash(c, b) && b.validatorId == b.producer != ""
      && (b.producerPubKey == "" || b.producerPubKey == b.validatorId)
      && c.blockAuth(b.validatorId, b.hash, b.signature)
      && (forall i :: 0 <= i < |b.txs| ==>
            b.txs[i].sender != "" && b.txs[i].receiver !in {"", b.txs[i].sender} && b.txs[i].amount > 0)
  {
  }

  lemma DeliverByChecks(c: Crypto, s: Chain, b: Block, e: Env)
    ensures ProposalFault(c, s, b, e).Some? ==> Deliver(c, s, b, e) == s && DeliverVerdict(c, s, b, e).Refused?
    ensures DeliverVerdict(c, s, b, e).Applied? <==>
      ProposalFault(c, s, b, e).None? && b.height == s.height + 1 && e.store(b) && Accepts(c, s, b)
    ensures b.height > s.height ==> (DeliverVerdict(c, s, b, e).Buffered? <==>
      ProposalFault(c, s, b, e).None? && b.height == s.height + 2 && b.height !in s.pending)
    ensures DeliverVerdict(c, s, b, e).Buffered? ==> Deliver(c, s, b, e) == s.(pending := s.pending[b.height := b])
  {
    hide ProposalFault, HeaderFault, Execute, Drain;
  }

  /** What a node can rely on when a proposal was applied: it extends the tip, is younger than it and
      not from the future, is signed and hashes to its hash, was not outvoted, commits to the predicted
      accounts, and is in the chain afterwards. */
  lemma AppliedGuarantees(c: Crypto, es: seq<Event>, b: Block, e: Env)
    requires DeliverVerdict(c, Reached(c, es), b, e).Applied?
    ensures var s := Reached(c, es); var t := Deliver(c, s, b, e);
      && b.height == s.height + 1 && b.prevHash == HashAt(s, s.height) && b.hash == BlockHash(c, b)
      && b.validatorId == b.producer != "" && c.blockAuth(b.validatorId, b.hash, b.signature)
      && (s.height >= 1 ==> s.height in s.blocks && s.blocks[s.height].time < b.time)
      && b.time <= e.now + 120_000_000_000
      && (e.quorum || e.localId in {"", NO_VALIDATOR, b.producer})
      && b.balancesRoot == Some(Root(Predict(s.accounts, b)))
      && b.height in t.blocks && SameButFlag(b, t.blocks[b.height])
  {
    ReachedGood(c, es);
    AppliedChecks(c, Reached(c, es), b, e);
    AppliedIsCommitted(c, Reached(c, es), b, e);
  }

  lemma AppliedChecks(c: Crypto, s: Chain, b: Block, e: Env)
    requires HistoryOk(c, s) && DeliverVerdict(c, s, b, e).Applied?
    ensures Accepts(c, s, b) && Timely(s, b)
    ensures b.height == s.height + 1 && b.prevHash == HashAt(s, s.height) && b.hash == BlockHash(c, b)
    ensures BlockSignatureOk(c, b) && b.time <= e.now + MAX_FUTURE_SKEW
    ensures s.height >= 1 ==> s.height in s.blocks && s.blocks[s.height].time < b.time
    ensures e.quorum || e.localId in {"", NO_VALIDATOR, b.producer}
    ensures b.balancesRoot == Some(Root(Predict(s.accounts, b)))
  {
    hide Root, Predict, Linked, Execute, ScanTxs;
  }

  lemma AppliedIsCommitted(c: Crypto, s: Chain, b: Block, e: Env)
    requires Good(c, s) && DeliverVerdict(c, s, b, e).Applied?
    ensures var t := Deliver(c, s, b, e); b.height in t.blocks && SameButFlag(b, t.blocks[b.height])
  {
    hide Deliver, DeliverVerdict, Accepts, ApplyBlock, Drain, Inv, Execute;
    DeliverWasApplied(c, s, b, e);
    var t := ApplyBlock(c, s, b, true);
    AcceptedAppends(c, s, b, t);
    AcceptanceKeepsInv(c, s, b, t);
    DrainKeepsInv(c, t, e.store);
  }

  /** Valid chains of every length exist, for every validator whose keys match; its wallet earns the
      rewards. */
  lemma {:induction false} ValidChainsExist(c: Crypto, p: Proposer, n: nat) returns (bs: seq<Block>)
    requires KeysMatch(c, p) && p.pub != "" && p.wallet != ""
    ensures |bs| == n && ValidChain(c, bs)
    ensures forall i :: 0 <= i < n ==> bs[i].time == i + 1
    ensures Get(ReplayBlocks(c, GENESIS, bs, WORKS).chain.accounts, p.wallet) == Account(RewardSum(n), 0)
  {
    hide ReplayBlocks, Get;
    if n == 0 {
      bs := [];
      NothingReplays(c, p.wallet);
    } else {
      var front := ValidChainsExist(c, p, n - 1);
      var b := OneMoreBlock(c, p.(stamp := n), front);
      bs := front + [b];
    }
  }

  lemma OneMoreBlock(c: Crypto, p: Proposer, bs: seq<Block>) returns (b: Block)
    requires KeysMatch(c, p) && p.pub != "" && p.wallet != "" && p.stamp != 0
    requires ReplayBlocks(c, GENESIS, bs, WORKS).fault.None?
    ensures b.time == p.stamp && ReplayBlocks(c, GENESIS, bs + [b], WORKS).fault.None?
    ensures var before := Get(ReplayBlocks(c, GENESIS, bs, WORKS).chain.accounts, p.wallet);
      Get(ReplayBlocks(c, GENESIS, bs + [b], WORKS).chain.accounts, p.wallet) ==
        before.(balance := before.balance + BlockRewardForHeight(|bs| + 1))
  {
    hide ReplayBlocks, BuildBlock, Accepts, ApplyBlock, Get, KeysMatch, BlockRewardForHeight, Predict, Root, BlockSignatureOk;
    var s := ReplayBlocks(c, GENESIS, bs, WORKS).chain;
    b := BuildBlock(c, s, [], p);
    ReplayHead(c, bs);
    EmptyBlock(c, s, p);
    BuiltBlock(c, s, [], p);
    ReplayConcat(c, GENESIS, bs, [b], WORKS);
    ReplayOne(c, s, b);
    EmptyBlockPays(c, s, p);
  }

  lemma NothingReplays(c: Crypto, k: string)
    ensures ReplayBlocks(c, GENESIS, [], WORKS) == Loaded(GENESIS, None)
    ensures Get(GENESIS.accounts, k) == Account(0, 0)
  {
  }

  lemma EmptyBlockPays(c: Crypto, s: Chain, p: Proposer)
    requires Accepts(c, s, BuildBlock(c, s, [], p)) && p.wallet != "" && s.height >= 0
    ensures var before := Get(s.accounts, p.wallet);
      Get(ApplyBlock(c, s, BuildBlock(c, s, [], p), true).accounts, p.wallet) ==
        before.(balance := before.balance + BlockRewardForHeight(s.height + 1))
  {
    hide Accepts, ApplyBlock, BlockRewardForHeight, Root, Predict;
    var b := BuildBlock(c, s, [], p);
    AcceptedFacts(c, s, b);
    AcceptedState(c, s, b, ApplyBlock(c, s, b, true));
    assert Execute(s.accounts, []) == Done(s.accounts) && FeeSum([]) == 0;
  }

  lemma EmptyBlock(c: Crypto, s: Chain, p: Proposer)
    requires KeysMatch(c, p) && p.pub != "" && p.wallet != "" && p.stamp != 0 && s.height >= 0
    ensures Accepts(c, s, BuildBlock(c, s, [], p))
  {
    hide Accepts, BuildBlock;
    BuiltBlockApplies(c, s, s, [], p);
  }

  // ----- agreement between nodes

  /** Two nodes with the same tip, whatever runs brought them there, have the same height, the same
      block headers at every height and the same accounts modulo zero accounts, if block hashes do
      not collide. */
  lemma TipDeterminesLedger(c: Crypto, es: seq<Event>, fs: seq<Event>, h: int)
    requires CollisionFree(c) && Reached(c, es).tip == Reached(c, fs).tip
    ensures var s, t := Reached(c, es), Reached(c, fs);
      && s.height == t.height && Same(s.accounts, t.accounts)
      && (1 <= h <= s.height ==>
            && h in s.blocks && h in t.blocks
            && var x, y := s.blocks[h], t.blocks[h];
               && x.validatorId == y.validatorId && x.producer == y.producer && x.balancesRoot == y.balancesRoot
               && x.height == y.height && x.prevHash == y.prevHash && x.time == y.time && x.txs == y.txs)
  {
    hide Run, DiskOk, HistoryOk, Same;
    ReachedGood(c, es);
    ReachedGood(c, fs);
    var s, t := Reached(c, es), Reached(c, fs);
    TipPinsLedger(c, s, t);
    if 1 <= h <= s.height {
      TipPinsHeaders(c, s, t, h);
    }
  }

  // ----- restart and snapshots

  lemma StoresByHeight(s: Chain, k: nat, store: Block -> bool)
    requires k <= s.height && forall h :: 1 <= h <= s.height ==> h in s.disk
    ensures Stores(store, Committed(s)[k..]) <==> forall h :: k < h <= s.height ==> h in s.disk && store(s.disk[h])
  {
    var bs := Committed(s)[k..];
    if Stores(store, bs) {
      forall h | k < h <= s.height ensures store(s.disk[h]) {
        assert bs[h - k - 1] == s.disk[h];
      }
    }
  }

  /** Loading the directory after any run rebuilds the same chain exactly when every committed block
      can be written again, and halts, then, exactly when the last thing written was a block that was
      refused. With working storage a node always comes up again, at the latest on the second
      start. */
  lemma RestartAfterAnyRun(c: Crypto, es: seq<Event>, store: Block -> bool)
    ensures var s := Reached(c, es); var r := LoadFromDisk(c, GENESIS.(disk := s.disk), store);
      var rewritable := forall h :: 1 <= h <= s.height ==> h in s.disk && store(s.disk[h]);
      && (Alike(r.chain, s) <==> rewritable)
      && (r.fault.None? <==> rewritable && s.height + 1 !in s.disk)
    ensures Alike(Restart(c, Reached(c, es)), Reached(c, es))
  {
    hide Run, LoadFromDisk, Alike, HistoryOk, NoncesOk, SupplyOk, PoolInv, ReplayBlocks, Committed, Accepts, Restart;
    ReachedGood(c, es);
    var s := Reached(c, es);
    RestartRestores(c, s, store);
    StoresByHeight(s, 0, store);
    assert Committed(s)[0..] == Committed(s);
    RestartKeepsGood(c, s);
  }

  /** A snapshot of any reachable state is valid and restores height, tip and accounts; loaded later
      on top of the block files it gives the ledger of that later moment exactly when those files can
      be written again. */
  lemma SnapshotAfterAnyRun(c: Crypto, es: seq<Event>, later: seq<Event>, target: Chain, store: Block -> bool)
    requires target.disk == Run(c, Reached(c, es), later).disk
    ensures var s := Reached(c, es); var snap := Export(c, s); var u := Run(c, s, later);
      var rewritable := forall h :: s.height < h <= u.height ==> h in u.disk && store(u.disk[h]);
      && FaultOf(c, snap).None?
      && LoadSnapshot(c, target, snap).height == s.height && LoadSnapshot(c, target, snap).tip == s.tip
      && LoadSnapshot(c, target, snap).accounts == s.accounts
      && LoadSnapshot(c, target, snap).blocks == map[] && Idle(LoadSnapshot(c, target, snap))
      && var r := LoadSnapshotAndReplay(c, target, snap, store);
         (SameLedger(r.chain, u) <==> rewritable) && (r.fault.None? <==> rewritable && u.height + 1 !in u.disk)
  {
    hide Run, FaultOf, Export, LoadSnapshotAndReplay, HistoryOk, NoncesOk, PoolInv, ReplayBlocks, Committed, Accepts;
    var s, u := Reached(c, es), Run(c, Reached(c, es), later);
    ReachedGood(c, es);
    RunKeepsGood(c, s, later);
    SnapshotRoundTrip(c, s, target);
    SnapshotShortcut(c, s, u, target, store);
    StoresByHeight(u, s.height, store);
  }

  /** A snapshot that carries the hash of an export of a reachable state passes validation exactly when
      it is that export; any other leaves the node as it was. */
  lemma TamperedSnapshotIsRefused(c: Crypto, es: seq<Event>, snap: Snapshot, target: Chain)
    requires SnapshotHashesFree(c) && snap.snapshotHash == Export(c, Reached(c, es)).snapshotHash
    ensures FaultOf(c, snap).None? <==> snap == Export(c, Reached(c, es))
    ensures snap != Export(c, Reached(c, es)) ==> LoadSnapshot(c, target, snap) == target
  {
    hide Run, FaultOf, Export, LoadSnapshot, HistoryOk, BlocksOk, NoncesOk, PoolInv, DiskOk;
    ReachedGood(c, es);
    TamperedSnapshot(c, Reached(c, es), snap, target);
  }

  /** A node that starts with a snapshot of an earlier state beside its block files halts, unless
      there are no block files: the files are replayed from the first one on, over the chain the
      snapshot and the later files have already built. */
  lemma SnapshotHaltsStartup(c: Crypto, es: seq<Event>, later: seq<Event>, target: Chain, store: Block -> bool)
    requires target.disk == Run(c, Reached(c, es), later).disk
    ensures var snap := Export(c, Reached(c, es)); var u := Run(c, Reached(c, es), later);
      FaultOf(c, snap).None? && (Startup(c, target, snap, store).fault.None? <==> u.disk == map[])
  {
    hide Run, FaultOf, Export, Startup, HistoryOk, NoncesOk, PoolInv, DiskOk;
    ReachedGood(c, es);
    RunKeepsGood(c, Reached(c, es), later);
    SnapshotStartHalts(c, Reached(c, es), Run(c, Reached(c, es), later), target, store);
  }

  // ----- where the code falls short

  lemma ScanOne(c: Crypto, tx: Tx)
    requires VerifyTx(c, tx) && TxFieldsFit(tx)
    ensures ScanTxs(c, [tx], {}, {}).None? && FeeSum([tx]) == tx.fee
  {
  }

  lemma ExecuteOne(a: Accounts, tx: Tx)
    ensures TransferFault(a, tx).None? ==> Execute(a, [tx]) == Done(Transfer(a, tx))
    ensures TransferFault(a, tx).Some? ==> ExecFault(Execute(a, [tx])) == TransferFault(a, tx)
  {
  }

  lemma RefusedAfterWrite(c: Crypto, s: Chain, b: Block, e: Env)
    requires ProposalFault(c, s, b, e).None? && b.height == s.height + 1 && e.store(b)
    requires HeaderFault(c, s, b).None? && Execute(s.accounts, b.txs).Failed?
    ensures DeliverVerdict(c, s, b, e) == Refused(Execute(s.accounts, b.txs).why)
    ensures Deliver(c, s, b, e).height == s.height && Deliver(c, s, b, e).disk == s.disk[b.height := b]
  {
    hide ProposalFault, HeaderFault, Execute;
  }

  lemma LeftoverHalts(c: Crypto, s: Chain, store: Block -> bool)
    requires Good(c, s) && s.height + 1 in s.disk
    ensures LoadFromDisk(c, GENESIS.(disk := s.disk), store).fault.Some?
  {
    hide LoadFromDisk, DiskOk, HistoryOk, SupplyOk, NoncesOk, PoolInv;
    RestartRestores(c, s, store);
  }

  lemma HeadFacts(c: Crypto, s: Chain)
    requires Good(c, s)
    ensures 0 <= s.finalized <= s.height
  {
  }

  lemma UnpayableBlock(c: Crypto, s: Chain, p: Proposer, tx: Tx, e: Env)
    requires 0 <= s.finalized <= s.height && KeysMatch(c, p) && p.pub != "" && p.wallet != ""
    requires p.stamp != 0 && p.stamp <= e.now + 120_000_000_000
    requires s.height in s.blocks ==> s.blocks[s.height].time < p.stamp
    requires (e.quorum || e.localId in {"", NO_VALIDATOR, p.pub}) && e.store(BuildBlock(c, s, [tx], p))
    requires VerifyTx(c, tx) && TxFieldsFit(tx) && tx.sender != tx.receiver && tx.fee >= 0
    requires TransferFault(s.accounts, tx).Some?
    ensures var b := BuildBlock(c, s, [tx], p); var t := Deliver(c, s, b, e);
      && DeliverVerdict(c, s, b, e) == Refused(TransferFault(s.accounts, tx).value)
      && t.height == s.height && b.height == s.height + 1 && t.disk == s.disk[b.height := b]
  {
    hide BuildBlock, Deliver, DeliverVerdict, HeaderFault, ProposalFault, Execute, KeysMatch, TxFieldsFit,
      TransferFault, BlockSignatureOk, Root, Predict, ExpectedReward, ScanTxs;
    var b := BuildBlock(c, s, [tx], p);
    BuiltBlock(c, s, [tx], p);
    ScanOne(c, tx);
    BuiltHeader(c, s, s, [tx], p);
    BuiltBlockIsProposable(c, s, s, [tx], p, e);
    ExecuteOne(s.accounts, tx);
    RefusedAfterWrite(c, s, b, e);
  }

  /** A validator can wrap any well-formed, signed transaction that its sender cannot pay for, or
      whose nonce is off, into a block that every node in every reachable state refuses only after it
      has written it: the next start halts on it. */
  lemma RefusedBlockHaltsRestart(c: Crypto, es: seq<Event>, p: Proposer, tx: Tx, e: Env, store: Block -> bool)
    requires var s := Reached(c, es);
      && KeysMatch(c, p) && p.pub != "" && p.wallet != ""
      && p.stamp != 0 && p.stamp <= e.now + 120_000_000_000
      && (s.height in s.blocks ==> s.blocks[s.height].time < p.stamp)
      && (e.quorum || e.localId in {"", NO_VALIDATOR, p.pub}) && e.store(BuildBlock(c, s, [tx], p))
      && VerifyTx(c, tx) && TxFieldsFit(tx) && tx.sender != tx.receiver && tx.fee >= 0
      && TransferFault(s.accounts, tx).Some?
    ensures var s := Reached(c, es); var b := BuildBlock(c, s, [tx], p); var t := Deliver(c, s, b, e);
      && DeliverVerdict(c, s, b, e) == Refused(TransferFault(s.accounts, tx).value)
      && t.height == s.height && b.height == s.height + 1 && t.disk == s.disk[b.height := b]
      && LoadFromDisk(c, GENESIS.(disk := t.disk), store).fault.Some?
  {
    hide Run, BuildBlock, Deliver, DeliverVerdict, LoadFromDisk, KeysMatch, VerifyTx, TxFieldsFit, TransferFault, Good,
      Grows;
    ReachedGood(c, es);
    var s := Reached(c, es);
    var b := BuildBlock(c, s, [tx], p);
    HeadFacts(c, s);
    UnpayableBlock(c, s, p, tx, e);
    DeliverKeepsGood(c, s, b, e);
    LeftoverHalts(c, Deliver(c, s, b, e), store);
  }

  /** The commitment that fails: any validator with matching keys builds a chain of `n >= 1278` empty
      blocks and then spends its rewards with a fee of more than 5. The chain is valid, and its last
      block leaves accounts other than those its header commits to. */
  lemma ForkBlockMissesCommitment(c: Crypto, p: Proposer, tx: Tx, n: nat) returns (bs: seq<Block>, b: Block)
    requires KeysMatch(c, p) && p.pub != "" && n >= 1278
    requires VerifyTx(c, tx) && TxFieldsFit(tx) && tx.sender == p.wallet != tx.receiver && tx.nonce == 0
    requires tx.fee > 5 && tx.amount + tx.fee <= RewardSum(n)
    ensures |bs| == n && b.txs == [tx] && ValidChain(c, bs + [b])
    ensures b.balancesRoot.Some?
    ensures b.balancesRoot != Some(Root(ReplayBlocks(c, GENESIS, bs + [b], WORKS).chain.accounts))
  {
    hide ReplayBlocks, Accepts, Root, ApplyBlock, RewardSum, BuildBlock, TxFieldsFit;
    bs := ValidChainsExist(c, p, n);
    var s := ReplayBlocks(c, GENESIS, bs, WORKS).chain;
    ReplayHead(c, bs);
    b := LateFee(c, s, p.(stamp := n + 1), tx);
    ReplayConcat(c, GENESIS, bs, [b], WORKS);
    ReplayOne(c, s, b);
  }

  lemma LateFee(c: Crypto, s: Chain, p: Proposer, tx: Tx) returns (b: Block)
    requires KeysMatch(c, p) && p.pub != "" && p.stamp != 0 && s.height >= 1278
    requires VerifyTx(c, tx) && TxFieldsFit(tx) && tx.sender == p.wallet != tx.receiver && tx.nonce == 0
    requires tx.fee > 5 && tx.amount + tx.fee <= Get(s.accounts, p.wallet).balance && Get(s.accounts, p.wallet).nonce == 0
    ensures Accepts(c, s, b) && b.time == p.stamp && b.txs == [tx] && b.balancesRoot.Some?
    ensures b.balancesRoot != Some(Root(ApplyBlock(c, s, b, true).accounts))
  {
    hide HeaderFault, Accepts, Execute, Root, Predict, ApplyBlock, KeysMatch, BuildBlock, TxFieldsFit, BlockSignatureOk,
      ExpectedReward, ScanTxs;
    ScanOne(c, tx);
    ExecuteOne(s.accounts, tx);
    b := BuildBlock(c, s, [tx], p);
    BuiltBlock(c, s, [tx], p);
    BuiltBlockApplies(c, s, s, [tx], p);
    PredictionRefinesExecution(c, s, b);
    RootExact(ApplyBlock(c, s, b, true).accounts, Predict(s.accounts, b));
  }
}
