/** The proposer: its blocks pass every check, and no pending transaction is lost on the way. */
module Proposing {
  import opened Wrappers
  import opened Accounts
  import opened Merkle
  import opened Blocks
  import opened Rewards
  import opened Execution
  import opened Mempool
  import opened Ledger
  import opened History
  import opened Runs

  // ----- the pool passes the block checks

  lemma {:induction false} PoolScans(c: Crypto, a: Accounts, txs: seq<Tx>, ids: set<string>, keys: set<string>)
    requires PoolOk(c, a, txs)
    requires forall i :: 0 <= i < |txs| ==> c.txId(txs[i]) !in ids && SenderNonceKey(txs[i]) !in keys
    ensures ScanTxs(c, txs, ids, keys).None?
    decreases |txs|
  {
    if txs != [] {
      PoolTail(c, a, txs);
      assert TxFault(c, a, 0, txs[0]).None?;
      PoolScans(c, a, txs[1..], ids + {c.txId(txs[0])}, keys + {SenderNonceKey(txs[0])});
    }
  }

  lemma PoolPrefix(c: Crypto, a: Accounts, pool: seq<Tx>, n: nat)
    requires PoolOk(c, a, pool) && n <= |pool|
    ensures PoolOk(c, a, pool[..n])
  {
  }

  lemma PoolWellFormed(c: Crypto, a: Accounts, txs: seq<Tx>)
    requires PoolOk(c, a, txs)
    ensures forall i :: 0 <= i < |txs| ==> !Malformed(txs[i])
  {
  }

  // ----- the block

  /** The validator's key pair signs what it verifies. */
  ghost predicate KeysMatch(c: Crypto, p: Proposer)
  {
    forall m :: c.blockAuth(p.pub, m, c.sign(p.priv, m))
  }

  lemma BuiltBlock(c: Crypto, s: Chain, txs: seq<Tx>, p: Proposer)
    requires KeysMatch(c, p) && p.pub != "" && p.wallet != ""
    ensures var b := BuildBlock(c, s, txs, p);
      && b.hash == BlockHash(c, b) && b.hash != "" && BlockSignatureOk(c, b)
      && b.balancesRoot == Some(Root(Predict(s.accounts, b)))
      && b.height == s.height + 1 && b.prevHash == s.tip && b.time == p.stamp && b.txs == txs
      && b.producer == p.pub && b.producerAddr == p.wallet && b.reward == ExpectedReward(s.height + 1, FeeSum(txs))
  {
    hide PredictTxs, PredictFees, Root, Pay, ExpectedReward, FeeSum;
    var b := BuildBlock(c, s, txs, p);
    var draft := b.(balancesRoot := None, hash := "", signature := "");
    assert Predict(s.accounts, draft) == Predict(s.accounts, b);
  }

  /** The block passes every check made before it is written. */
  lemma BuiltHeader(c: Crypto, s: Chain, open: Chain, txs: seq<Tx>, p: Proposer)
    requires KeysMatch(c, p) && p.pub != "" && p.wallet != "" && p.stamp != 0
    requires open.height == s.height >= 0 && open.tip == s.tip && open.accounts == s.accounts
    requires |txs| <= MAX_BLOCK_TXS && ScanTxs(c, txs, {}, {}).None? && FeeSum(txs) >= 0
    ensures HeaderFault(c, open, BuildBlock(c, s, txs, p)).None?
  {
    hide BuildBlock, Predict, ScanTxs, FeeSum, Root, BlockHash, BlockSignatureOk, ExpectedReward;
    BuiltBlock(c, s, txs, p);
    RewardNonNegative(s.height + 1, FeeSum(txs));
  }

  lemma BuiltBlockApplies(c: Crypto, s: Chain, open: Chain, txs: seq<Tx>, p: Proposer)
    requires KeysMatch(c, p) && p.pub != "" && p.wallet != "" && p.stamp != 0
    requires open.height == s.height >= 0 && open.tip == s.tip && open.accounts == s.accounts
    requires |txs| <= MAX_BLOCK_TXS && ScanTxs(c, txs, {}, {}).None? && Execute(s.accounts, txs).Done?
    ensures Accepts(c, open, BuildBlock(c, s, txs, p))
  {
    hide BuildBlock, HeaderFault, Execute, ScanTxs, FeeSum;
    BuiltBlock(c, s, txs, p);
    ExecutedFees(s.accounts, txs);
    BuiltHeader(c, s, open, txs, p);
  }

  lemma RewardNonNegative(h: int, fees: nat)
    ensures ExpectedReward(h, fees) >= 0
  {
    hide BlockRewardForHeight;
    SplitFeesExact(fees);
  }

  lemma BuiltBlockIsProposable(c: Crypto, s: Chain, open: Chain, txs: seq<Tx>, p: Proposer, e: Env)
    requires KeysMatch(c, p) && p.pub != "" && p.wallet != "" && p.stamp != 0
    requires open.height == s.height >= 0 && open.tip == s.tip && open.accounts == s.accounts
    requires open.finalized <= open.height && forall i :: 0 <= i < |txs| ==> !Malformed(txs[i])
    requires p.stamp <= e.now + MAX_FUTURE_SKEW && (e.quorum || e.localId in {"", NO_VALIDATOR, p.pub})
    requires open.height in open.blocks ==> open.blocks[open.height].time < p.stamp
    ensures ProposalFault(c, open, BuildBlock(c, s, txs, p), e).None?
  {
    hide BuildBlock, Malformed, Predict, Root, BlockSignatureOk;
    BuiltBlock(c, s, txs, p);
  }

  // ----- completeness

  lemma DeliverApplied(c: Crypto, s: Chain, b: Block, e: Env)
    requires ProposalFault(c, s, b, e).None? && b.height == s.height + 1 && e.store(b)
    requires Accepts(c, s, b)
    ensures DeliverVerdict(c, s, b, e) == Applied
    ensures Deliver(c, s, b, e) == Drain(c, ApplyBlock(c, s, b, true), e.store)
  {
  }

  lemma OfferApplies(c: Crypto, s: Chain, p: Proposer, e: Env)
    requires 0 <= s.height && s.finalized <= s.height
    requires p.pub != "" && p.wallet != "" && KeysMatch(c, p)
    requires p.stamp != 0 && p.stamp <= e.now + MAX_FUTURE_SKEW
    requires s.height in s.blocks ==> s.blocks[s.height].time < p.stamp
    requires e.localId == p.pub && e.store(Offer(c, s, p).1)
    ensures DeliverVerdict(c, Offer(c, s, p).0, Offer(c, s, p).1, e) == Applied
  {
    var pool := Compact(c, s.accounts, s.mempool);
    var n := TakeCount(pool);
    var (open, b) := Offer(c, s, p);
    CompactRuns(c, s.accounts, s.mempool, n);
    PoolPrefix(c, s.accounts, pool, n);
    PoolScans(c, s.accounts, pool[..n], {}, {});
    PoolWellFormed(c, s.accounts, pool[..n]);
    BuiltBlock(c, s, pool[..n], p);
    BuiltBlockApplies(c, s, open, pool[..n], p);
    BuiltBlockIsProposable(c, s, open, pool[..n], p, e);
    DeliverApplied(c, open, b, e);
  }

  lemma AppliedProposalRaises(c: Crypto, s: Chain, p: Proposer, e: Env)
    requires Good(c, s) && ProposeVerdict(c, s, p, e).Applied?
    ensures Propose(c, s, p, e).height > s.height
  {
    hide Deliver, DeliverVerdict, Offer, Inv, Extends;
    ProposeOpens(c, s, p);
    var (open, b) := Offer(c, s, p);
    DeliverKeepsGood(c, open, b, e.(localId := p.pub));
  }

  /** In every reachable state, with matching keys, a bound wallet, no buffered block in the way, a
      write that succeeds and a clock past the previous block, a proposal is applied and raises the
      height; before the fee fork and after it. */
  lemma ProposerCompletes(c: Crypto, s: Chain, p: Proposer, e: Env)
    requires Good(c, s)
    requires ProposerFault(s, p).None? && p.keyHexOk && KeysMatch(c, p)
    requires p.stamp != 0 && p.stamp <= e.now + MAX_FUTURE_SKEW
    requires s.height in s.blocks ==> s.blocks[s.height].time < p.stamp
    requires e.store(Offer(c, s, p).1)
    ensures ProposeVerdict(c, s, p, e) == Applied
    ensures Propose(c, s, p, e).height > s.height
  {
    OfferApplies(c, s, p, e.(localId := p.pub));
    AppliedProposalRaises(c, s, p, e);
  }

  /** A proposer holds back, changing nothing, exactly when it lacks a wallet or keys or a block of
      another validator waits in the buffer. */
  lemma ProposerYields(c: Crypto, s: Chain, p: Proposer, e: Env)
    requires Good(c, s)
    ensures var waits := s.height + 2 in s.pending && s.pending[s.height + 2].producer !in {"", p.pub};
      && (ProposerFault(s, p).None? <==>
            p.wallet != "" && p.pub !in {"", "ERR_NO_VALIDATOR"} && p.priv != "" && !waits)
      && (ProposerFault(s, p).Some? ==> Propose(c, s, p, e) == s && ProposeVerdict(c, s, p, e).Refused?)
  {
    hide Inv, Offer, Deliver, DeliverVerdict;
  }

  // ----- conservation of the pool

  /** A proposal that fails after its checks leaves exactly the compacted pool, indexes rebuilt. */
  lemma FailedProposalKeepsPool(c: Crypto, s: Chain, p: Proposer, e: Env)
    requires ProposerFault(s, p).None? && ProposeVerdict(c, s, p, e).Refused?
    ensures var t := Propose(c, s, p, e);
      && t.mempool == Compact(c, s.accounts, s.mempool)
      && t.ids == IdsOf(c, t.mempool) && t.keys == KeysOf(c, t.mempool)
      && t.height == s.height && t.blocks == s.blocks && t.pending == s.pending
      && Same(s.accounts, t.accounts)
  {
    if p.keyHexOk {
      RefusedOffer(c, s, p, e.(localId := p.pub));
    }
  }

  lemma OfferFacts(c: Crypto, s: Chain, p: Proposer)
    ensures var (open, b) := Offer(c, s, p);
      && b.txs + open.mempool == Compact(c, s.accounts, s.mempool)
      && open == s.(mempool := open.mempool, ids := open.ids, keys := open.keys)
  {
    hide Compact, IdsOf, KeysOf, Predict, Root;
    var pool := Compact(c, s.accounts, s.mempool);
    assert pool == pool[..TakeCount(pool)] + pool[TakeCount(pool)..];
  }

  lemma RefusedOffer(c: Crypto, s: Chain, p: Proposer, e: Env)
    requires DeliverVerdict(c, Offer(c, s, p).0, Offer(c, s, p).1, e).Refused?
    ensures var (open, b) := Offer(c, s, p); var t := Deliver(c, open, b, e);
      && b.txs + t.mempool == Compact(c, s.accounts, s.mempool)
      && t.height == s.height && t.blocks == s.blocks && t.pending == s.pending
      && Same(s.accounts, t.accounts)
  {
    hide Deliver, DeliverVerdict, Offer, Compact, Same;
    var (open, b) := Offer(c, s, p);
    RefusedDelivery(c, open, b, e);
    OfferFacts(c, s, p);
  }

  /** Compaction inside block application drops none of what the block left behind. */
  lemma RemainderSurvives(c: Crypto, open: Chain, b: Block, t: Chain)
    requires PoolOk(c, open.accounts, b.txs + open.mempool) && |open.mempool| < MAX_MEMPOOL_TXS
    requires Accepts(c, open, b) && t == ApplyBlock(c, open, b, true)
    ensures t.mempool == open.mempool
  {
    AcceptedFacts(c, open, b);
    AcceptedState(c, open, b, t);
    PoolSurvives(c, open.accounts, b.txs, open.mempool, b);
    CompactPrecise(c, t.accounts, open.mempool);
  }

  /** Draining one buffered block either applies it or leaves the pool alone. */
  lemma DrainPool(c: Crypto, s: Chain, store: Block -> bool)
    requires BufferedAt(s, s.height + 1)
    ensures var t := Drain(c, s, store); t.height == s.height ==> t.mempool == s.mempool
  {
    hide ApplyBlock, ApplyFault;
    var next := s.height + 1;
    if next in s.pending {
      var b := s.pending[next];
      var popped := s.(pending := s.pending - {next});
      assert Drain(c, popped, store) == popped;
      DrainedBlock(c, popped, b, store(b));
      var t := ApplyBlock(c, popped, b, store(b));
      assert Drain(c, t, store) == t;
    }
  }

  lemma DrainedBlock(c: Crypto, s: Chain, b: Block, stored: bool)
    ensures var t := ApplyBlock(c, s, b, stored);
      t.pending == s.pending && (t.height == s.height ==> t.mempool == s.mempool)
  {
    if ApplyFault(c, s, b, stored).Some? {
      RefusedFacts(c, s, b, stored);
    } else {
      AcceptedFacts(c, s, b);
      AcceptedState(c, s, b, ApplyBlock(c, s, b, true));
    }
  }

  /** After a proposal that went through, with no buffered successor applied behind it, the pool is
      the compacted pool without the at most 64 transactions the block took. */
  lemma SuccessfulProposalKeepsRest(c: Crypto, s: Chain, p: Proposer, e: Env)
    requires Good(c, s) && ProposeVerdict(c, s, p, e).Applied?
    requires Propose(c, s, p, e).height == s.height + 1
    ensures var pool := Compact(c, s.accounts, s.mempool);
      Propose(c, s, p, e).mempool == pool[if |pool| < 64 then |pool| else 64..]
  {
    var pool := Compact(c, s.accounts, s.mempool);
    CompactKeepsPool(c, s.accounts, s.mempool);
    ProposeOpens(c, s, p);
    var (open, b) := Offer(c, s, p);
    AppliedPool(c, open, b, e.(localId := p.pub));
  }

  lemma DeliverWasApplied(c: Crypto, s: Chain, b: Block, e: Env)
    requires DeliverVerdict(c, s, b, e).Applied?
    ensures Accepts(c, s, b) && Timely(s, b)
    ensures Deliver(c, s, b, e) == Drain(c, ApplyBlock(c, s, b, true), e.store)
  {
  }

  lemma AcceptedHead(c: Crypto, s: Chain, b: Block, t: Chain)
    requires Accepts(c, s, b) && t == ApplyBlock(c, s, b, true)
    ensures t.height == b.height && t.pending == s.pending
  {
    hide ApplyBlock, Accepts;
    AcceptedState(c, s, b, t);
  }

  lemma AppliedPool(c: Crypto, open: Chain, b: Block, e: Env)
    requires Good(c, open) && DeliverVerdict(c, open, b, e).Applied?
    requires PoolOk(c, open.accounts, b.txs + open.mempool) && |open.mempool| < MAX_MEMPOOL_TXS
    requires Deliver(c, open, b, e).height == open.height + 1
    ensures Deliver(c, open, b, e).mempool == open.mempool
  {
    hide Deliver, DeliverVerdict, ApplyBlock, Accepts, Inv, PoolOk, Drain, Appended;
    DeliverWasApplied(c, open, b, e);
    var t := ApplyBlock(c, open, b, true);
    RemainderSurvives(c, open, b, t);
    AcceptedFacts(c, open, b);
    AcceptedHead(c, open, b, t);
    DrainPool(c, t, e.store);
  }
}
