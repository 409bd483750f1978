/** What the tip of a chain pins down. A block hash does not cover the payout address of the producer
    or the reward; the balances root does, so that equal tips still mean equal ledgers. */
module Agreement {
  import opened Accounts
  import opened Merkle
  import opened Blocks
  import opened Rewards
  import opened Execution
  import opened Ledger
  import opened History
  import opened Replay

  ghost predicate CollisionFree(c: Crypto)
  {
    forall x, y :: c.blockHash(x) == c.blockHash(y) ==> x == y
  }

  // ----- headers

  /** Equal tips mean equal heights and equal headers all the way down. */
  lemma TipPinsHeight(c: Crypto, s: Chain, t: Chain)
    requires CollisionFree(c) && HistoryOk(c, s) && HistoryOk(c, t) && s.tip == t.tip
    ensures s.height == t.height
  {
    if s.height > 0 {
      assert Linked(c, s, s.height);
    }
    if t.height > 0 {
      assert Linked(c, t, t.height);
    }
  }

  lemma {:induction false} TipPinsHeaders(c: Crypto, s: Chain, t: Chain, h: int)
    requires CollisionFree(c) && HistoryOk(c, s) && HistoryOk(c, t) && s.tip == t.tip
    requires 1 <= h <= s.height
    ensures h in s.blocks && h in t.blocks && HeaderOf(s.blocks[h]) == HeaderOf(t.blocks[h])
    decreases s.height - h
  {
    TipPinsHeight(c, s, t);
    assert Linked(c, s, h) && Linked(c, t, h);
    if h < s.height {
      TipPinsHeaders(c, s, t, h + 1);
      assert Linked(c, s, h + 1) && Linked(c, t, h + 1);
    }
  }

  // ----- ledgers

  /** Two blocks that differ in payout address predict different ledgers. */
  lemma RootPinsRecipient(a: Accounts, b: Block, d: Block)
    requires b.txs == d.txs && b.height == d.height >= 1 && PredictFees(b.txs) >= 0
    requires Recipient(b) != "" && Recipient(d) != ""
    requires Same(Predict(a, b), Predict(a, d))
    ensures Recipient(b) == Recipient(d)
  {
    hide PredictTxs, PredictFees, BlockRewardForHeight;
    SplitFeesExact(PredictFees(b.txs));
    var p, q := Predict(a, b), Predict(a, d);
    assert Get(p, Recipient(b)) == Get(q, Recipient(b));
  }

  lemma HeaderPinsSettlement(c: Crypto, s: Chain, t: Chain, b: Block, d: Block)
    requires SameLedger(s, t) && s.height >= 0 && Accepts(c, s, b) && Accepts(c, t, d)
    requires HeaderOf(b) == HeaderOf(d)
    ensures Recipient(b) == Recipient(d) && b.reward == d.reward
  {
    hide Accepts, Predict, Root, Execute, ApplyBlock, Commit, Same;
    AcceptedFacts(c, s, b);
    AcceptedFacts(c, t, d);
    RootExact(Predict(s.accounts, b), Predict(t.accounts, d));
    PredictReflectsSame(s.accounts, t.accounts, d);
    SameIsEquivalence(Predict(s.accounts, d), Predict(t.accounts, d), Predict(s.accounts, d));
    SameIsEquivalence(Predict(s.accounts, b), Predict(t.accounts, d), Predict(s.accounts, d));
    ExecutedFees(s.accounts, b.txs);
    RootPinsRecipient(s.accounts, b, d);
  }

  /** Blocks with one header, accepted on equal ledgers, leave equal ledgers. */
  lemma HeaderPinsEffect(c: Crypto, s: Chain, t: Chain, b: Block, d: Block)
    requires SameLedger(s, t) && s.height >= 0 && Accepts(c, s, b) && Accepts(c, t, d)
    requires HeaderOf(b) == HeaderOf(d)
    ensures Same(ApplyBlock(c, s, b, true).accounts, ApplyBlock(c, t, d, true).accounts)
  {
    hide Accepts, Predict, Root, Execute, ApplyBlock, Commit, Same, SameExec;
    HeaderPinsSettlement(c, s, t, b, d);
    AcceptedFacts(c, s, b);
    AcceptedFacts(c, t, d);
    AcceptedState(c, s, b, ApplyBlock(c, s, b, true));
    AcceptedState(c, t, d, ApplyBlock(c, t, d, true));
    var x, y := Execute(s.accounts, b.txs).accounts, Execute(t.accounts, d.txs).accounts;
    assert Same(x, y) by { ExecutedSame(s.accounts, t.accounts, b.txs); }
    SettleSame(x, y, b);
    assert Settle(y, b) == Settle(y, d);
  }

  lemma ExecutedSame(a: Accounts, b: Accounts, txs: seq<Tx>)
    requires Same(a, b) && Execute(a, txs).Done? && Execute(b, txs).Done?
    ensures Same(Execute(a, txs).accounts, Execute(b, txs).accounts)
  {
    hide Same, Execute;
    ExecuteSame(a, b, txs);
  }

  /** The last step of a replay that ends without error. */
  lemma ReplayEnds(c: Crypto, bs: seq<Block>)
    requires bs != [] && ReplayBlocks(c, GENESIS, bs, WORKS).fault.None?
    ensures var n := |bs| - 1; var s := ReplayBlocks(c, GENESIS, bs[..n], WORKS);
      && s.fault.None? && Accepts(c, s.chain, bs[n])
      && ReplayBlocks(c, GENESIS, bs, WORKS).chain == ApplyBlock(c, s.chain, bs[n], true)
  {
    hide ReplayBlocks, Accepts, ApplyBlock;
    var n := |bs| - 1;
    assert bs == bs[..n] + [bs[n]];
    ReplayPrefix(c, GENESIS, bs[..n], [bs[n]]);
    ReplayConcat(c, GENESIS, bs[..n], [bs[n]], WORKS);
    ReplayOne(c, ReplayBlocks(c, GENESIS, bs[..n], WORKS).chain, bs[n]);
  }

  lemma {:induction false} ReplayHead(c: Crypto, bs: seq<Block>)
    requires ReplayBlocks(c, GENESIS, bs, WORKS).fault.None?
    ensures var s := ReplayBlocks(c, GENESIS, bs, WORKS).chain;
      && s.height == |bs|
      && (bs == [] ==> s == GENESIS)
      && (bs != [] ==> s.tip == bs[|bs| - 1].hash != "" && s.tip == BlockHash(c, bs[|bs| - 1])
                       && bs[|bs| - 1].prevHash == ReplayBlocks(c, GENESIS, bs[..|bs| - 1], WORKS).chain.tip)
    decreases |bs|
  {
    if bs != [] {
      hide ReplayBlocks, Accepts, ApplyBlock, Execute;
      ReplayEnds(c, bs);
      var n := |bs| - 1;
      var s := ReplayBlocks(c, GENESIS, bs[..n], WORKS).chain;
      ReplayHead(c, bs[..n]);
      AcceptedFacts(c, s, bs[n]);
      AcceptedAppends(c, s, bs[n], ApplyBlock(c, s, bs[n], true));
    }
  }

  /** Two chains that replay without error to the same tip leave the same ledger. */
  lemma {:induction false} ReplayAgrees(c: Crypto, xs: seq<Block>, ys: seq<Block>)
    requires CollisionFree(c)
    requires ReplayBlocks(c, GENESIS, xs, WORKS).fault.None? && ReplayBlocks(c, GENESIS, ys, WORKS).fault.None?
    requires ReplayBlocks(c, GENESIS, xs, WORKS).chain.tip == ReplayBlocks(c, GENESIS, ys, WORKS).chain.tip
    ensures SameLedger(ReplayBlocks(c, GENESIS, xs, WORKS).chain, ReplayBlocks(c, GENESIS, ys, WORKS).chain)
    decreases |xs|
  {
    hide ReplayBlocks, Accepts, ApplyBlock, HeaderOf, Same;
    ReplayHead(c, xs);
    ReplayHead(c, ys);
    if xs == [] || ys == [] {
      SameIsEquivalence(GENESIS.accounts, GENESIS.accounts, GENESIS.accounts);
    } else {
      var n, m := |xs| - 1, |ys| - 1;
      assert HeaderOf(xs[n]) == HeaderOf(ys[m]);
      HeaderFields(xs[n], ys[m]);
      ReplayEnds(c, xs);
      ReplayEnds(c, ys);
      ReplayHead(c, xs[..n]);
      ReplayAgrees(c, xs[..n], ys[..m]);
      HeaderPinsEffect(c, ReplayBlocks(c, GENESIS, xs[..n], WORKS).chain,
                       ReplayBlocks(c, GENESIS, ys[..m], WORKS).chain, xs[n], ys[m]);
      ReplayHead(c, ys[..m]);
    }
  }

  lemma HeaderFields(b: Block, d: Block)
    requires HeaderOf(b) == HeaderOf(d)
    ensures b.prevHash == d.prevHash && b.height == d.height
  {
  }

  /** The tip determines the ledger. */
  lemma TipPinsLedger(c: Crypto, s: Chain, t: Chain)
    requires CollisionFree(c) && DiskOk(c, s) && DiskOk(c, t) && s.tip == t.tip
    ensures SameLedger(s, t)
  {
    hide ReplayBlocks, Accepts, Same;
    var x, y := ReplayBlocks(c, GENESIS, Committed(s), WORKS).chain, ReplayBlocks(c, GENESIS, Committed(t), WORKS).chain;
    ReplayAgrees(c, Committed(s), Committed(t));
    SameLedgerEuclidean(x, s, y);
    SameLedgerSymmetric(s, y);
    SameLedgerEuclidean(y, s, t);
  }

  lemma SameLedgerSymmetric(s: Chain, t: Chain)
    requires SameLedger(s, t)
    ensures SameLedger(t, s)
  {
  }
}
