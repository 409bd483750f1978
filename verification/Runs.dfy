/** Whole runs of a node: what every reachable state satisfies, whatever blocks, transactions,
    proposals, restarts, clock readings, quorum answers and storage failures it meets. */
module Runs {
  import opened Accounts
  import opened Blocks
  import opened Execution
  import opened Mempool
  import opened Ledger
  import opened History
  import opened Replay

  datatype Event =
    | Delivery(block: Block, env: Env)
    | Submission(tx: Tx)
    | Proposal(proposer: Proposer, env: Env)
    | Reboot

  ghost function Step(c: Crypto, s: Chain, e: Event): Chain
  {
    match e
    case Delivery(b, env) => Deliver(c, s, b, env)
    case Submission(tx) => Submit(c, s, tx)
    case Proposal(p, env) => Propose(c, s, p, env)
    case Reboot => Restart(c, s)
  }

  ghost function Run(c: Crypto, s: Chain, es: seq<Event>): Chain
    decreases |es|
  {
    if es == [] then s else Run(c, Step(c, s, es[0]), es[1..])
  }

  // ----- the invariant

  /** At most 256 pending transactions, each spending its sender's committed nonce from its
      committed balance, one per sender, and both indexes exact. */
  ghost predicate PoolInv(c: Crypto, s: Chain)
  {
    && |s.mempool| <= MAX_MEMPOOL_TXS
    && PoolOk(c, s.accounts, s.mempool)
    && s.ids == IdsOf(c, s.mempool)
    && s.keys == KeysOf(c, s.mempool)
  }

  ghost predicate Inv(c: Crypto, s: Chain)
  {
    HistoryOk(c, s) && BlocksOk(c, s) && SupplyOk(s) && NoncesOk(s) && PoolInv(c, s) && DiskOk(c, s)
  }

  /** Only a block two above the tip is ever buffered. */
  ghost predicate BufferedAt(s: Chain, n: int)
  {
    forall h :: h in s.pending ==> h == n && s.pending[h].height == h
  }

  ghost predicate Good(c: Crypto, s: Chain)
  {
    Inv(c, s) && BufferedAt(s, s.height + 2)
  }

  ghost predicate Grows(s: Chain, t: Chain)
  {
    Extends(s, t) && DiskGrows(s, t)
  }

  lemma GrowsTransitive(s: Chain, t: Chain, u: Chain)
    requires Grows(s, t) && Grows(t, u)
    ensures Grows(s, u)
  {
  }

  // ----- applying a block

  lemma RefusedAccounts(c: Crypto, s: Chain, b: Block, stored: bool)
    requires ApplyFault(c, s, b, stored).Some?
    ensures var t := ApplyBlock(c, s, b, stored);
      Total(t.accounts) == Total(s.accounts) && (NonNegative(s.accounts) ==> NonNegative(t.accounts))
  {
    if HeaderFault(c, s, b).None? && stored {
      var touched := Execute(s.accounts, b.txs).touched;
      TotalWithZeros(s.accounts, touched);
    }
  }

  ghost predicate SameSpine(s: Chain, t: Chain)
  {
    t.height == s.height && t.tip == s.tip && t.blocks == s.blocks && t.finalized == s.finalized
  }

  lemma SpineKeepsHistory(c: Crypto, s: Chain, t: Chain)
    requires HistoryOk(c, s) && SameSpine(s, t)
    ensures HistoryOk(c, t) && Extends(s, t)
  {
    forall h | h in t.blocks ensures Linked(c, t, h) { assert Linked(c, s, h); }
  }

  lemma SpineKeepsLog(s: Chain, t: Chain)
    requires Complete(s) && SameSpine(s, t)
    ensures Complete(t) && Log(s) == Log(t)
  {
  }

  lemma SpineKeepsNonces(s: Chain, t: Chain)
    requires Complete(s) && NoncesOk(s) && SameSpine(s, t) && Same(s.accounts, t.accounts)
    ensures Complete(t) && NoncesOk(t)
  {
    SpineKeepsLog(s, t);
    forall k ensures NoncesOf(t, k) {
      assert NoncesOf(s, k);
      assert Get(s.accounts, k) == Get(t.accounts, k);
    }
  }

  /** History, supply and nonces survive a change of anything but the spine and the value of
      accounts. */
  lemma SameHistory(c: Crypto, s: Chain, t: Chain)
    requires HistoryOk(c, s) && SupplyOk(s) && NoncesOk(s) && SameSpine(s, t)
    requires Same(s.accounts, t.accounts) && Total(t.accounts) == Total(s.accounts) && NonNegative(t.accounts)
    ensures HistoryOk(c, t) && SupplyOk(t) && NoncesOk(t) && Extends(s, t)
  {
    SpineKeepsNonces(s, t);
    SpineKeepsLog(s, t);
    SpineKeepsHistory(c, s, t);
  }

  lemma RefusalKeepsInv(c: Crypto, s: Chain, b: Block, stored: bool, t: Chain)
    requires Inv(c, s) && ApplyFault(c, s, b, stored).Some? && t == ApplyBlock(c, s, b, stored)
    ensures Inv(c, t) && Grows(s, t) && t.pending == s.pending && t.mempool == s.mempool
  {
    RefusalKeepsDisk(c, s, b, stored);
    RefusedAccounts(c, s, b, stored);
    RefusedFacts(c, s, b, stored);
    PoolOkSame(c, s.accounts, t.accounts, s.mempool);
    SameHistory(c, s, t);
  }

  lemma CompactKeepsPool(c: Crypto, a: Accounts, pool: seq<Tx>)
    ensures PoolOk(c, a, Compact(c, a, pool)) && |Compact(c, a, pool)| <= |pool|
  {
    KeepSound(c, a, |pool|, a, {}, {}, pool);
    KeepFresh(c, a, |pool|, a, {}, {}, pool);
  }

  lemma AcceptanceKeepsInv(c: Crypto, s: Chain, b: Block, t: Chain)
    requires Inv(c, s) && Timely(s, b) && Accepts(c, s, b) && t == ApplyBlock(c, s, b, true)
    ensures Inv(c, t) && Grows(s, t) && t.pending == s.pending && t.height == s.height + 1
  {
    AcceptanceKeepsDisk(c, s, b, t);
    AcceptedFacts(c, s, b);
    AcceptedState(c, s, b, t);
    AppendKeepsHistory(c, s, b, t);
    AcceptedIsSealed(c, s, b);
    AppendKeepsSealed(c, s, b, t);
    AppendKeepsSupply(c, s, b, t);
    AppendKeepsNonces(s, b, t);
    CompactKeepsPool(c, t.accounts, s.mempool);
  }

  lemma ApplyKeepsInv(c: Crypto, s: Chain, b: Block, stored: bool)
    requires Inv(c, s) && Timely(s, b)
    ensures var t := ApplyBlock(c, s, b, stored);
      && Inv(c, t) && Grows(s, t) && t.pending == s.pending
      && t.height == if ApplyFault(c, s, b, stored).None? then s.height + 1 else s.height
  {
    if ApplyFault(c, s, b, stored).Some? {
      RefusedFacts(c, s, b, stored);
      RefusalKeepsInv(c, s, b, stored, ApplyBlock(c, s, b, stored));
    } else {
      AcceptanceKeepsInv(c, s, b, ApplyBlock(c, s, b, true));
    }
  }

  // ----- the other steps

  /** A change of pool and buffer only. */
  lemma PoolChangeKeepsInv(c: Crypto, s: Chain, t: Chain)
    requires Inv(c, s) && PoolInv(c, t)
    requires t == s.(mempool := t.mempool, ids := t.ids, keys := t.keys, pending := t.pending)
    ensures Inv(c, t) && Grows(s, t)
  {
    DiskIgnoresPool(c, s, t);
    SameHistory(c, s, t);
  }

  lemma BufferChangeKeepsInv(c: Crypto, s: Chain, t: Chain)
    requires Inv(c, s) && t == s.(pending := t.pending)
    ensures Inv(c, t) && Grows(s, t)
  {
    PoolChangeKeepsInv(c, s, t);
  }

  lemma DrainKeepsInv(c: Crypto, s: Chain, store: Block -> bool)
    requires Inv(c, s) && BufferedAt(s, s.height + 1)
    ensures var t := Drain(c, s, store); Inv(c, t) && Grows(s, t) && forall h :: h !in t.pending
  {
    hide ApplyBlock, ApplyFault, Inv, Grows;
    var next := s.height + 1;
    GrowsReflexive(s);
    if next in s.pending {
      var b := s.pending[next];
      var popped := s.(pending := s.pending - {next});
      assert forall h :: h !in popped.pending;
      BufferChangeKeepsInv(c, s, popped);
      if b.prevHash != s.tip || (s.height in s.blocks && b.time <= s.blocks[s.height].time) {
        assert Drain(c, popped, store) == popped;
      } else {
        ApplyKeepsInv(c, popped, b, store(b));
        var t := ApplyBlock(c, popped, b, store(b));
        assert Drain(c, t, store) == t;
        GrowsTransitive(s, popped, t);
      }
    }
  }

  lemma AppliedKeepsGood(c: Crypto, s: Chain, b: Block, e: Env)
    requires Good(c, s) && Timely(s, b) && ApplyFault(c, s, b, e.store(b)).None?
    ensures var t := Drain(c, ApplyBlock(c, s, b, e.store(b)), e.store);
      Good(c, t) && Grows(s, t) && t.height > s.height
  {
    hide ApplyBlock, ApplyFault, Inv, Drain;
    var t := ApplyBlock(c, s, b, e.store(b));
    ApplyKeepsInv(c, s, b, e.store(b));
    DrainKeepsInv(c, t, e.store);
    GrowsTransitive(s, t, Drain(c, t, e.store));
  }

  lemma RefusalKeepsGood(c: Crypto, s: Chain, b: Block, stored: bool)
    requires Good(c, s) && ApplyFault(c, s, b, stored).Some?
    ensures var t := ApplyBlock(c, s, b, stored); Good(c, t) && Grows(s, t)
  {
    RefusalKeepsInv(c, s, b, stored, ApplyBlock(c, s, b, stored));
    RefusedFacts(c, s, b, stored);
  }

  lemma BufferingKeepsGood(c: Crypto, s: Chain, b: Block)
    requires Good(c, s) && b.height == s.height + 2
    ensures var t := s.(pending := s.pending[b.height := b]); Good(c, t) && Grows(s, t)
  {
    hide Inv, Grows;
    BufferChangeKeepsInv(c, s, s.(pending := s.pending[b.height := b]));
  }

  lemma GrowsReflexive(s: Chain)
    ensures Grows(s, s)
  {
  }

  lemma DeliverKeepsGood(c: Crypto, s: Chain, b: Block, e: Env)
    requires Good(c, s)
    ensures var t := Deliver(c, s, b, e); Good(c, t) && Grows(s, t)
    ensures DeliverVerdict(c, s, b, e).Applied? ==> Deliver(c, s, b, e).height > s.height
  {
    hide ApplyBlock, ApplyFault, Inv, Grows, Drain;
    GrowsReflexive(s);
    if ProposalFault(c, s, b, e).None? {
      if b.height == s.height + 1 {
        assert Timely(s, b);
        if ApplyFault(c, s, b, e.store(b)).None? {
          AppliedKeepsGood(c, s, b, e);
        } else {
          RefusalKeepsGood(c, s, b, e.store(b));
        }
      } else if b.height == s.height + 2 && b.height !in s.pending {
        BufferingKeepsGood(c, s, b);
      }
    }
  }

  /** A refused delivery changes nothing but the disk and zero accounts. */
  lemma RefusedDelivery(c: Crypto, s: Chain, b: Block, e: Env)
    requires DeliverVerdict(c, s, b, e).Refused?
    ensures var t := Deliver(c, s, b, e);
      t == s.(accounts := t.accounts, disk := t.disk) && Same(s.accounts, t.accounts)
  {
  }

  lemma {:induction false} KeysOfAppend(c: Crypto, pool: seq<Tx>, tx: Tx)
    ensures KeysOf(c, pool + [tx]) == KeysOf(c, pool)[SenderNonceKey(tx) := c.txId(tx)]
    decreases |pool|
  {
    if pool == [] {
      assert pool + [tx] == [tx] && [tx][1..] == [];
    } else {
      assert (pool + [tx])[1..] == pool[1..] + [tx];
      KeysOfAppend(c, pool[1..], tx);
    }
  }

  lemma GrownIds(c: Crypto, pool: seq<Tx>, tx: Tx)
    ensures IdsOf(c, pool + [tx]) == IdsOf(c, pool) + {c.txId(tx)}
  {
    var more := pool + [tx];
    assert forall i :: 0 <= i < |pool| ==> more[i] == pool[i];
    assert more[|pool|] == tx;
  }

  lemma NewcomerApart(c: Crypto, s: Chain, tx: Tx, u: Tx)
    requires PoolInv(c, s) && SubmitFault(c, s, tx).None? && u in s.mempool
    ensures Apart(c, u, tx)
  {
    var i :| 0 <= i < |s.mempool| && s.mempool[i] == u;
    assert c.txId(u) in s.ids;
    KeysExact(c, s.accounts, s.mempool, SenderNonceKey(tx));
    SenderNonceKeyInjective(u, tx);
    assert TxFault(c, s.accounts, 0, s.mempool[i]).None?;
  }

  lemma PoolAppend(c: Crypto, a: Accounts, pool: seq<Tx>, tx: Tx)
    requires PoolOk(c, a, pool) && TxFault(c, a, 0, tx).None?
    requires forall i :: 0 <= i < |pool| ==> Apart(c, pool[i], tx)
    ensures PoolOk(c, a, pool + [tx])
  {
  }

  lemma SubmitKeepsPool(c: Crypto, s: Chain, tx: Tx)
    requires PoolInv(c, s) && SubmitFault(c, s, tx).None?
    ensures PoolInv(c, Submit(c, s, tx))
  {
    hide IdsOf, KeysOf, PoolOk, Apart;
    GrownIds(c, s.mempool, tx);
    KeysOfAppend(c, s.mempool, tx);
    forall i | 0 <= i < |s.mempool| ensures Apart(c, s.mempool[i], tx) {
      NewcomerApart(c, s, tx, s.mempool[i]);
    }
    assert RequiredFee(|s.mempool|) >= RequiredFee(0);
    PoolAppend(c, s.accounts, s.mempool, tx);
  }

  /** Exactly the transactions that pass validation are admitted while there is room and no pending
      one shares sender or identifier; they go to the end of the pool. */
  lemma AdmissionExact(c: Crypto, s: Chain, tx: Tx)
    requires PoolInv(c, s)
    ensures SubmitFault(c, s, tx).None? <==>
      && TxFault(c, s.accounts, 0, tx).None? && |s.mempool| < 256
      && forall i :: 0 <= i < |s.mempool| ==> Apart(c, s.mempool[i], tx)
    ensures Submit(c, s, tx).mempool == s.mempool + if SubmitFault(c, s, tx).None? then [tx] else []
  {
    hide IdsOf, KeysOf, PoolOk, Apart, VerifyTx, TxFieldsFit;
    if SubmitFault(c, s, tx).None? {
      forall i | 0 <= i < |s.mempool| ensures Apart(c, s.mempool[i], tx) {
        NewcomerApart(c, s, tx, s.mempool[i]);
      }
    } else if forall i :: 0 <= i < |s.mempool| ==> Apart(c, s.mempool[i], tx) {
      TakenKeys(c, s, tx);
    }
  }

  lemma TakenKeys(c: Crypto, s: Chain, tx: Tx)
    requires PoolInv(c, s) && forall i :: 0 <= i < |s.mempool| ==> Apart(c, s.mempool[i], tx)
    ensures c.txId(tx) !in s.ids && SenderNonceKey(tx) !in s.keys
  {
    hide KeysOf, PoolOk;
    var k := SenderNonceKey(tx);
    KeysExact(c, s.accounts, s.mempool, k);
    if k in s.keys {
      var t :| t in s.mempool && SenderNonceKey(t) == k;
      SenderNonceKeyInjective(t, tx);
    }
  }

  /** An accepted block drops from the pool exactly what no longer validates after it: a pending
      transaction stays if its nonce is still the next, its sender can still pay, and, in a full
      pool, it pays at least 2. */
  lemma BlockKeepsPending(c: Crypto, s: Chain, b: Block, tx: Tx)
    requires PoolInv(c, s) && Accepts(c, s, b) && tx in s.mempool
    ensures var t := ApplyBlock(c, s, b, true); var ac := Get(t.accounts, tx.sender);
      && t.mempool == StillValid(c, t.accounts, |s.mempool|, s.mempool)
      && (tx in t.mempool <==>
           ac.nonce == tx.nonce && ac.balance >= tx.amount + tx.fee && (|s.mempool| < 256 || tx.fee >= 2))
  {
    hide Accepts, ApplyBlock, Appended, Compact, StillValid, TxFault, AllApart;
    var t := ApplyBlock(c, s, b, true);
    AcceptedState(c, s, b, t);
    CompactExact(c, t.accounts, s.mempool, tx);
    var i :| 0 <= i < |s.mempool| && s.mempool[i] == tx;
    assert TxFault(c, s.accounts, 0, s.mempool[i]).None?;
    ValidAgain(c, s.accounts, t.accounts, |s.mempool|, tx);
  }

  lemma ValidAgain(c: Crypto, a: Accounts, a': Accounts, n: nat, tx: Tx)
    requires TxFault(c, a, 0, tx).None? && n <= MAX_MEMPOOL_TXS
    ensures TxFault(c, a', n, tx).None? <==>
      var ac := Get(a', tx.sender); ac.nonce == tx.nonce && ac.balance >= tx.amount + tx.fee && (n < 256 || tx.fee >= 2)
  {
  }

  /** In particular a block drops no transaction of a sender it does not move, but for the fee. */
  lemma BystanderStaysPending(c: Crypto, s: Chain, b: Block, tx: Tx)
    requires PoolInv(c, s) && Accepts(c, s, b) && tx in s.mempool
    requires forall i :: 0 <= i < |b.txs| ==> b.txs[i].sender != tx.sender
    requires |s.mempool| < 256 || tx.fee >= 2
    ensures tx in ApplyBlock(c, s, b, true).mempool
  {
    hide Accepts, ApplyBlock, PoolOk, TxFault, IdsOf, KeysOf;
    BlockKeepsPending(c, s, b, tx);
    BystanderKeeps(c, s, b, tx.sender);
    PendingIsFunded(c, s, tx);
  }

  lemma PendingIsFunded(c: Crypto, s: Chain, tx: Tx)
    requires PoolInv(c, s) && tx in s.mempool
    ensures var ac := Get(s.accounts, tx.sender); ac.nonce == tx.nonce && ac.balance >= tx.amount + tx.fee
  {
    var i :| 0 <= i < |s.mempool| && s.mempool[i] == tx;
    assert TxFault(c, s.accounts, 0, s.mempool[i]).None?;
  }

  lemma SubmissionKeepsInv(c: Crypto, s: Chain, tx: Tx)
    requires Inv(c, s) && SubmitFault(c, s, tx).None?
    ensures Inv(c, Submit(c, s, tx)) && Grows(s, Submit(c, s, tx))
  {
    SubmitKeepsPool(c, s, tx);
    PoolChangeKeepsInv(c, s, Submit(c, s, tx));
  }

  lemma ProposeOpens(c: Crypto, s: Chain, p: Proposer)
    requires Good(c, s)
    ensures var (open, b) := Offer(c, s, p);
      && Good(c, open) && Grows(s, open)
      && b.txs + open.mempool == Compact(c, s.accounts, s.mempool)
  {
    var pool := Compact(c, s.accounts, s.mempool);
    var n := TakeCount(pool);
    CompactKeepsPool(c, s.accounts, s.mempool);
    assert pool == pool[..n] + pool[n..];
    PoolSuffix(c, s.accounts, pool[..n], pool[n..]);
    PoolChangeKeepsInv(c, s, WithPool(c, s, pool[n..]));
  }

  lemma RestoreKeepsGood(c: Crypto, t: Chain, pool: seq<Tx>)
    requires Good(c, t) && PoolOk(c, t.accounts, pool) && |pool| <= MAX_MEMPOOL_TXS
    ensures Good(c, WithPool(c, t, pool)) && Grows(t, WithPool(c, t, pool))
  {
    PoolChangeKeepsInv(c, t, WithPool(c, t, pool));
  }

  lemma ProposeKeepsGood(c: Crypto, s: Chain, p: Proposer, e: Env)
    requires Good(c, s)
    ensures var t := Propose(c, s, p, e); Good(c, t) && Grows(s, t)
  {
    var pool := Compact(c, s.accounts, s.mempool);
    CompactKeepsPool(c, s.accounts, s.mempool);
    if ProposerFault(s, p).None? {
      if !p.keyHexOk {
        RestoreKeepsGood(c, s, pool);
      } else {
        ProposeOpens(c, s, p);
        var (open, b) := Offer(c, s, p);
        var mine := e.(localId := p.pub);
        var after := Deliver(c, open, b, mine);
        DeliverKeepsGood(c, open, b, mine);
        GrowsTransitive(s, open, after);
        if DeliverVerdict(c, open, b, mine).Refused? {
          RefusedDelivery(c, open, b, mine);
          PoolOkSame(c, s.accounts, after.accounts, pool);
          RestoreKeepsGood(c, after, pool);
          GrowsTransitive(s, after, WithPool(c, after, pool));
        }
      }
    }
  }

  lemma SameNonNegative(a: Accounts, b: Accounts)
    requires Same(a, b) && NonNegative(a)
    ensures NonNegative(b)
  {
    forall k | k in b ensures b[k].balance >= 0 && b[k].nonce >= 0 {
      assert Get(b, k) == Get(a, k);
    }
  }

  lemma RestartedKeepsGood(c: Crypto, s: Chain, t: Chain)
    requires Good(c, s) && Restarted(s, s.disk - {s.height + 1}, t)
    ensures Good(c, t) && Grows(s, t)
  {
    hide DiskOk, DiskGrows, HistoryOk, Extends, Same, NonNegative;
    RestartedDisk(c, s, t);
    SameIsEquivalence(t.accounts, s.accounts, s.accounts);
    TotalSame(s.accounts, t.accounts);
    SameNonNegative(s.accounts, t.accounts);
    SameHistory(c, s, t);
    IdlePool(c, t);
  }

  lemma IdlePool(c: Crypto, s: Chain)
    requires Idle(s)
    ensures PoolInv(c, s)
  {
  }

  /** A restart, after whatever refusals, brings back the chain it stopped with. */
  lemma RestartKeepsGood(c: Crypto, s: Chain)
    requires Good(c, s)
    ensures Good(c, Restart(c, s)) && Grows(s, Restart(c, s))
    ensures Alike(Restart(c, s), s) && Idle(Restart(c, s))
  {
    hide Grows, Restart, Alike, Idle, DiskOk, HistoryOk, SupplyOk, NoncesOk, PoolInv;
    RestartComesUp(c, s);
    RestartedKeepsGood(c, s, Restart(c, s));
  }

  lemma StepKeepsGood(c: Crypto, s: Chain, e: Event)
    requires Good(c, s)
    ensures Good(c, Step(c, s, e)) && Grows(s, Step(c, s, e))
  {
    hide Inv, Grows, Deliver, Propose, Restart;
    GrowsReflexive(s);
    match e
    case Delivery(b, env) => DeliverKeepsGood(c, s, b, env);
    case Submission(tx) =>
      if SubmitFault(c, s, tx).None? {
        SubmissionKeepsInv(c, s, tx);
      }
    case Proposal(p, env) => ProposeKeepsGood(c, s, p, env);
    case Reboot => RestartKeepsGood(c, s);
  }

  // ----- all runs

  lemma GenesisGood(c: Crypto)
    ensures Good(c, GENESIS)
  {
    hide HistoryOk, SupplyOk, NoncesOk, PoolInv, DiskOk;
    GenesisLedger(c);
    GenesisDisk(c);
    GenesisPool(c);
  }

  lemma GenesisLedger(c: Crypto)
    ensures HistoryOk(c, GENESIS) && SupplyOk(GENESIS) && NoncesOk(GENESIS)
  {
  }

  lemma GenesisDisk(c: Crypto)
    ensures DiskOk(c, GENESIS)
  {
  }

  lemma GenesisPool(c: Crypto)
    ensures PoolInv(c, GENESIS)
  {
  }

  lemma {:induction false} RunKeepsGood(c: Crypto, s: Chain, es: seq<Event>)
    requires Good(c, s)
    ensures Good(c, Run(c, s, es)) && Grows(s, Run(c, s, es))
    decreases |es|
  {
    if es != [] {
      StepKeepsGood(c, s, es[0]);
      RunKeepsGood(c, Step(c, s, es[0]), es[1..]);
      GrowsTransitive(s, Step(c, s, es[0]), Run(c, s, es));
    }
  }
}
