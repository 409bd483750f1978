/** The ledger object of the node: its methods, with their loops and in-place updates, compute the
    functions of `Ledger` and `Replay`. */
module Node {
  import opened Wrappers
  import opened Heights
  import opened Accounts
  import opened Merkle
  import opened Blocks
  import opened Rewards
  import opened Execution
  import opened Mempool
  import opened Ledger
  import opened Replay

  class ProductionChain {
    const crypto: Crypto

    var height: int
    var tip: string
    var blocks: map<int, Block>
    var accounts: Accounts
    var mempool: seq<Tx>
    var mempoolIds: set<string>
    var mempoolSenderNonce: map<string, string>
    var pending: map<int, Block>
    var finalizedHeight: int
    var disk: map<int, Block>

    ghost function View(): Chain
      reads this
    {
      Chain(height, tip, blocks, accounts, mempool, mempoolIds, mempoolSenderNonce, pending,
            finalizedHeight, disk)
    }

    constructor (c: Crypto)
      ensures crypto == c && View() == GENESIS
    {
      crypto := c;
      height, tip, blocks, accounts := 0, "", map[], map[];
      mempool, mempoolIds, mempoolSenderNonce := [], {}, map[];
      pending, finalizedHeight, disk := map[], 0, map[];
    }

    // ----- mempool

    method RebuildMempoolIndex()
      modifies this`mempoolIds, this`mempoolSenderNonce
      ensures View() == WithPool(crypto, old(View()), mempool)
    {
      mempoolIds, mempoolSenderNonce := IndexPool(crypto, mempool);
    }

    static method IndexPool(c: Crypto, pool: seq<Tx>) returns (ids: set<string>, keys: map<string, string>)
      ensures ids == IdsOf(c, pool) && keys == KeysOf(c, pool)
    {
      ids, keys := {}, map[];
      assert pool[0..] == pool;
      for i := 0 to |pool|
        invariant ids == set j | 0 <= j < i :: c.txId(pool[j])
        invariant keys + KeysOf(c, pool[i..]) == KeysOf(c, pool)
      {
        var id, sn := c.txId(pool[i]), SenderNonceKey(pool[i]);
        assert pool[i..][1..] == pool[i + 1..];
        MapShift(keys, sn, id, KeysOf(c, pool[i + 1..]));
        ids := ids + {id};
        keys := keys[sn := id];
      }
      assert pool[|pool|..] == [];
    }

    static lemma MapShift(m: map<string, string>, k: string, v: string, r: map<string, string>)
      ensures m[k := v] + r == m + (map[k := v] + r)
    {
    }

    method AddTxToMempool(tx: Tx) returns (fault: Option<Refusal>)
      modifies this`mempool, this`mempoolIds, this`mempoolSenderNonce
      ensures fault == SubmitFault(crypto, old(View()), tx)
      ensures View() == Submit(crypto, old(View()), tx)
    {
      fault := TxFault(crypto, accounts, |mempool|, tx);
      if fault.Some? {
        return;
      }
      if |mempool| >= MAX_MEMPOOL_TXS {
        return Some(MempoolFull);
      }
      var id := crypto.txId(tx);
      if id in mempoolIds {
        return Some(DuplicateTx);
      }
      var sn := SenderNonceKey(tx);
      if sn in mempoolSenderNonce && mempoolSenderNonce[sn] != id {
        return Some(ConflictingSenderNonce);
      }
      mempool := mempool + [tx];
      mempoolIds := mempoolIds + {id};
      mempoolSenderNonce := mempoolSenderNonce[sn := id];
    }

    /** The shadow map holds only the accounts touched so far; the rest is read from the ledger. */
    static ghost predicate Shadows(a: Accounts, shadows: map<string, Account>, shadow: Accounts)
    {
      forall k :: Get(shadow, k) == if k in shadows then shadows[k] else Get(a, k)
    }

    static method MoveShadow(a: Accounts, shadows: map<string, Account>, tx: Tx, ghost shadow: Accounts)
        returns (after: map<string, Account>)
      requires Shadows(a, shadows, shadow) && tx.sender != tx.receiver
      ensures Shadows(a, after, Transfer(shadow, tx))
    {
      var f := if tx.sender in shadows then shadows[tx.sender] else Get(a, tx.sender);
      assert f == Get(shadow, tx.sender);
      after := shadows[tx.sender := Account(f.balance - (tx.amount + tx.fee), f.nonce + 1)];
      var t := if tx.receiver in after then after[tx.receiver] else Get(a, tx.receiver);
      assert t == Get(shadow, tx.receiver);
      after := after[tx.receiver := t.(balance := t.balance + tx.amount)];
    }

    method CompactMempool() returns (dropped: int)
      modifies this`mempool, this`mempoolIds, this`mempoolSenderNonce
      ensures View() == CompactPool(crypto, old(View()))
      ensures dropped == |old(mempool)| - |mempool|
    {
      hide Shadows, Transfer, IdsOf, KeysOf;
      var kept: seq<Tx> := [];
      var ids: set<string>, keys: set<string> := {}, {};
      var shadows: map<string, Account> := map[];
      dropped := 0;
      ghost var n := |mempool|;
      ghost var shadow := accounts;
      assert mempool[0..] == mempool;
      NoShadows(accounts);
      for i := 0 to |mempool|
        invariant mempool == old(mempool)
        invariant Shadows(accounts, shadows, shadow)
        invariant kept + Keep(crypto, accounts, n, shadow, ids, keys, mempool[i..]) ==
          Compact(crypto, accounts, mempool)
        invariant dropped == i - |kept|
      {
        var tx := mempool[i];
        assert mempool[i..][0] == tx && mempool[i..][1..] == mempool[i + 1..];
        var fault := TxFault(crypto, accounts, |mempool|, tx);
        var id, sn := crypto.txId(tx), SenderNonceKey(tx);
        if fault.Some? || id in ids || sn in keys {
          dropped := dropped + 1;
        } else {
          var f := if tx.sender in shadows then shadows[tx.sender] else Get(accounts, tx.sender);
          ShadowOf(accounts, shadows, shadow, tx.sender);
          if tx.nonce != f.nonce || f.balance < tx.amount + tx.fee {
            dropped := dropped + 1;
          } else {
            shadows := MoveShadow(accounts, shadows, tx, shadow);
            ghost var rest := Keep(crypto, accounts, n, Transfer(shadow, tx), ids + {id}, keys + {sn}, mempool[i + 1..]);
            assert kept + ([tx] + rest) == (kept + [tx]) + rest;
            shadow := Transfer(shadow, tx);
            kept, ids, keys := kept + [tx], ids + {id}, keys + {sn};
          }
        }
      }
      assert mempool[|mempool|..] == [];
      assert kept == Compact(crypto, accounts, mempool);
      mempool := kept;
      RebuildMempoolIndex();
    }

    static lemma NoShadows(a: Accounts)
      ensures Shadows(a, map[], a)
    {
    }

    static lemma ShadowOf(a: Accounts, shadows: map<string, Account>, shadow: Accounts, k: string)
      requires Shadows(a, shadows, shadow)
      ensures Get(shadow, k) == if k in shadows then shadows[k] else Get(a, k)
    {
    }

    // ----- applying a block

    /** The transfers of a block on a copy of the accounts, without checks. */
    static method PredictTransfers(a: Accounts, txs: seq<Tx>) returns (tmp: Accounts, fees: int)
      ensures tmp == PredictTxs(a, txs) && fees == PredictFees(txs)
    {
      tmp, fees := a, 0;
      assert txs[0..] == txs;
      for i := 0 to |txs|
        invariant PredictTxs(tmp, txs[i..]) == PredictTxs(a, txs)
        invariant fees + PredictFees(txs[i..]) == PredictFees(txs)
      {
        var tx := txs[i];
        assert txs[i..][1..] == txs[i + 1..];
        if tx.sender == "" || tx.receiver == "" || tx.sender == tx.receiver || tx.amount <= 0 {
          continue;
        }
        tmp := MoveUnchecked(tmp, tx);
        fees := fees + tx.fee;
      }
      assert txs[|txs|..] == [];
    }

    static method MoveUnchecked(a: Accounts, tx: Tx) returns (tmp: Accounts)
      requires tx.sender != tx.receiver
      ensures tmp == Transfer(a, tx)
    {
      var f := Get(a, tx.sender);
      var t := Get(a, tx.receiver);
      tmp := a[tx.sender := Account(f.balance - (tx.amount + tx.fee), f.nonce + 1)];
      tmp := tmp[tx.receiver := t.(balance := t.balance + tx.amount)];
    }

    /** The commitment to the ledger after the block, predicted on a copy of the accounts. */
    method CalcStateHashWithBlock(b: Block) returns (root: Digest)
      ensures root == Root(Predict(accounts, b))
    {
      var tmp, fees := PredictTransfers(accounts, b.txs);
      var reward := BlockRewardForHeight(b.height) + fees;
      if FeeSplitActive(b.height) {
        reward := BlockRewardForHeight(b.height) + ProducerFees(fees);
        if TreasuryFees(fees) > 0 {
          tmp := Pay(tmp, TREASURY_ADDR, TreasuryFees(fees));
        }
      }
      if reward > 0 {
        var recipient := Recipient(b);
        if recipient != "" {
          tmp := Pay(tmp, recipient, reward);
        }
      }
      assert tmp == Predict(accounts, b);
      root := MerkleBalancesRoot(tmp);
    }

    /** First pass over the transactions: signatures, sizes, duplicates, and the fee total. */
    method ScanBlock(b: Block) returns (fault: Option<Refusal>, totalFees: int)
      ensures fault == ScanTxs(crypto, b.txs, {}, {})
      ensures fault.None? ==> totalFees == FeeSum(b.txs)
    {
      totalFees := 0;
      var ids: set<string>, keys: set<string> := {}, {};
      assert b.txs[0..] == b.txs;
      for i := 0 to |b.txs|
        invariant ScanTxs(crypto, b.txs[i..], ids, keys) == ScanTxs(crypto, b.txs, {}, {})
        invariant totalFees + FeeSum(b.txs[i..]) == FeeSum(b.txs)
      {
        var tx := b.txs[i];
        assert b.txs[i..][1..] == b.txs[i + 1..];
        if !VerifyTx(crypto, tx) {
          return Some(BadTxSignature), totalFees;
        }
        if !TxFieldsFit(tx) {
          return Some(FieldTooLarge), totalFees;
        }
        var id := crypto.txId(tx);
        if id in ids {
          return Some(DuplicateTx), totalFees;
        }
        ids := ids + {id};
        var sn := SenderNonceKey(tx);
        if sn in keys {
          return Some(DuplicateSenderNonce), totalFees;
        }
        keys := keys + {sn};
        totalFees := totalFees + tx.fee;
      }
      assert b.txs[|b.txs|..] == [];
      fault := None;
    }

    /** Everything checked before the block is written. */
    method CheckHeader(b: Block) returns (fault: Option<Refusal>, totalFees: int)
      ensures fault == HeaderFault(crypto, View(), b)
      ensures fault.None? ==> totalFees == FeeSum(b.txs)
    {
      totalFees := 0;
      if b.reward < 0 {
        return Some(NegativeReward), totalFees;
      }
      if |b.txs| > MAX_BLOCK_TXS {
        return Some(TooManyTxs), totalFees;
      }
      fault, totalFees := ScanBlock(b);
      if fault.Some? {
        return;
      }
      if b.height != height + 1 {
        return Some(BadHeight), totalFees;
      }
      if b.prevHash != tip {
        return Some(BadPrevHash), totalFees;
      }
      if b.time == 0 {
        return Some(MissingTime), totalFees;
      }
      if b.hash == "" || b.hash != BlockHash(crypto, b) {
        return Some(BadHash), totalFees;
      }
      if !BlockSignatureOk(crypto, b) {
        return Some(BadBlockSignature), totalFees;
      }
      if b.reward != ExpectedReward(b.height, totalFees) {
        return Some(BadReward), totalFees;
      }
      var expectedRoot := CalcStateHashWithBlock(b);
      if b.balancesRoot == None {
        return Some(MissingRoot), totalFees;
      }
      if b.balancesRoot != Some(expectedRoot) {
        return Some(BadRoot), totalFees;
      }
    }

    /** Second pass: transfers on a scratch copy of the accounts they touch. Looking an account up
        creates it in the ledger. */
    method RunTransfers(txs: seq<Tx>) returns (fault: Option<Refusal>, scratch: map<string, Account>, fees: int)
      modifies this`accounts
      ensures fault == ExecFault(Execute(old(accounts), txs))
      ensures Execute(old(accounts), txs).Failed? ==>
        accounts == WithZeros(old(accounts), Execute(old(accounts), txs).touched)
      ensures Execute(old(accounts), txs).Done? ==>
        accounts + scratch == Execute(old(accounts), txs).accounts && fees == FeeSum(txs)
    {
      scratch, fees := map[], 0;
      ghost var base := accounts;
      assert txs[0..] == txs && base + scratch == base;
      for i := 0 to |txs|
        invariant accounts == WithZeros(base, scratch.Keys)
        invariant Execute(base, txs) == Touch(Execute(base + scratch, txs[i..]), scratch.Keys)
        invariant fees + FeeSum(txs[i..]) == FeeSum(txs)
      {
        var tx := txs[i];
        assert txs[i..][0] == tx && txs[i..][1..] == txs[i + 1..];
        ghost var keys := scratch.Keys;
        ghost var next := Transfer(base + scratch, tx);
        fault, scratch := RunTransfer(scratch, tx, base);
        if fault.Some? {
          return;
        }
        fees := fees + tx.fee;
        TouchTwice(Execute(next, txs[i + 1..]), {tx.sender, tx.receiver}, keys);
      }
      assert txs[|txs|..] == [];
      assert accounts + scratch == base + scratch;
      fault := None;
    }

    /** One transfer on the scratch map, which stands for the ledger `base + scratch`. */
    method RunTransfer(scratch: map<string, Account>, tx: Tx, ghost base: Accounts)
        returns (fault: Option<Refusal>, after: map<string, Account>)
      requires accounts == WithZeros(base, scratch.Keys)
      modifies this`accounts
      ensures fault == TransferFault(base + scratch, tx)
      ensures after.Keys == (if Malformed(tx) then {} else {tx.sender, tx.receiver}) + scratch.Keys
      ensures accounts == WithZeros(base, after.Keys)
      ensures fault.None? ==> base + after == Transfer(base + scratch, tx)
    {
      hide Transfer, WithZeros;
      after := scratch;
      if tx.sender == "" || tx.receiver == "" {
        return Some(MissingParty), after;
      }
      if tx.sender == tx.receiver {
        return Some(SelfTransfer), after;
      }
      if tx.amount <= 0 {
        return Some(BadAmount), after;
      }
      var f := TouchAccount(after, tx.sender, base);
      after := after[tx.sender := f];
      assert after.Keys == scratch.Keys + {tx.sender};
      var t := TouchAccount(after, tx.receiver, base);
      after := after[tx.receiver := t];
      assert after.Keys == scratch.Keys + {tx.sender} + {tx.receiver} == {tx.sender, tx.receiver} + scratch.Keys;
      if tx.fee < 0 {
        return Some(NegativeFee), after;
      }
      if tx.nonce != f.nonce {
        return Some(BadNonce), after;
      }
      if f.balance < tx.amount + tx.fee {
        return Some(InsufficientBalance), after;
      }
      ghost var touched := after;
      after := after[tx.sender := Account(f.balance - (tx.amount + tx.fee), f.nonce + 1)];
      after := after[tx.receiver := t.(balance := t.balance + tx.amount)];
      assert after.Keys == touched.Keys;
      OverlayTransfer(base, scratch, tx, after);
      fault := None;
    }

    static lemma OverlayTransfer(base: Accounts, m: Accounts, tx: Tx, after: Accounts)
      requires tx.sender != tx.receiver
      requires var f := Get(base + m, tx.sender); var t := Get(base + m, tx.receiver);
        after == m[tx.sender := Account(f.balance - (tx.amount + tx.fee), f.nonce + 1)]
                  [tx.receiver := t.(balance := t.balance + tx.amount)]
      ensures base + after == Transfer(base + m, tx)
    {
    }

    static lemma TouchTwice(e: Exec, x: set<string>, y: set<string>)
      ensures Touch(Touch(e, x), y) == Touch(e, x + y)
    {
    }

    /** The scratch value of an account, or the ledger's, which is created if missing. */
    method TouchAccount(scratch: map<string, Account>, addr: string, ghost base: Accounts) returns (v: Account)
      requires accounts == WithZeros(base, scratch.Keys)
      modifies this`accounts
      ensures v == if addr in scratch then scratch[addr] else Get(base, addr)
      ensures accounts == WithZeros(base, scratch.Keys + {addr})
    {
      if addr in scratch {
        assert scratch.Keys + {addr} == scratch.Keys;
        return scratch[addr];
      }
      if addr !in accounts {
        accounts := accounts[addr := ZERO];
      }
      assert accounts == WithZeros(base, scratch.Keys + {addr});
      v := accounts[addr];
    }

    /** Writes the scratch values back, in whatever order the map yields them. */
    method WriteBack(scratch: map<string, Account>)
      modifies this`accounts
      ensures accounts == old(accounts) + scratch
    {
      var todo := scratch.Keys;
      while todo != {}
        invariant todo <= scratch.Keys
        invariant accounts == old(accounts) + (map k | k in scratch && k !in todo :: scratch[k])
        decreases todo
      {
        var addr :| addr in todo;
        accounts := accounts[addr := scratch[addr]];
        todo := todo - {addr};
      }
      assert (map k | k in scratch && k !in todo :: scratch[k]) == scratch;
    }

    method AdvanceFinality()
      modifies this`blocks, this`finalizedHeight
      ensures View() == Ledger.AdvanceFinality(old(View()))
    {
      var target := height - FINALITY_DEPTH;
      if target < 0 {
        target := 0;
      }
      if target <= finalizedHeight {
        return;
      }
      for h := finalizedHeight + 1 to target + 1
        invariant blocks == Flagged(old(blocks), finalizedHeight, h - 1)
        invariant finalizedHeight == old(finalizedHeight)
      {
        if h in blocks && !blocks[h].isFinalized {
          blocks := blocks[h := blocks[h].(isFinalized := true)];
        }
      }
      finalizedHeight := target;
    }

    /** Reward, treasury, the new head, compaction and finality. */
    method CommitBlock(b: Block, totalFees: int)
      requires totalFees == 2 * FeeSum(b.txs)
      modifies this
      ensures View() == Commit(crypto, old(View()), b, Settle(old(accounts), b))
    {
      hide Compact, IdsOf, KeysOf, Flagged;
      accounts := Pay(accounts, Recipient(b), b.reward);
      if FeeSplitActive(b.height) {
        var treasuryFees := TreasuryFees(totalFees);
        if treasuryFees > 0 {
          accounts := Pay(accounts, TREASURY_ADDR, treasuryFees);
        }
      }
      blocks := blocks[b.height := b];
      height := b.height;
      tip := b.hash;
      var _ := CompactMempool();
      AdvanceFinality();
      tip := b.hash;
    }

    /** Writes the block, runs its transfers and commits it, or leaves it on disk. */
    method FinishBlock(b: Block, feesSoFar: int) returns (fault: Option<Refusal>)
      requires feesSoFar == FeeSum(b.txs)
      modifies this
      ensures fault == ExecFault(Execute(old(accounts), b.txs))
      ensures View() == Finish(crypto, old(View()), b)
    {
      disk := disk[b.height := b];
      var scratch, fees;
      fault, scratch, fees := RunTransfers(b.txs);
      if fault.None? {
        var totalFees := feesSoFar + fees;
        WriteBack(scratch);
        CommitBlock(b, totalFees);
      }
    }

    method ApplyBlock(b: Block, stored: bool) returns (fault: Option<Refusal>)
      modifies this
      ensures fault == ApplyFault(crypto, old(View()), b, stored)
      ensures View() == Ledger.ApplyBlock(crypto, old(View()), b, stored)
    {
      var totalFees;
      fault, totalFees := CheckHeader(b);
      if fault.None? {
        if !stored {
          return Some(PersistFailed);
        }
        fault := FinishBlock(b, totalFees);
      }
    }

    // ----- proposals

    method DrainPending(store: Block -> bool) returns (applied: int)
      modifies this
      ensures View() == Drain(crypto, old(View()), store)
    {
      hide Ledger.ApplyBlock, ApplyFault;
      applied := 0;
      while height + 1 in pending
        invariant Drain(crypto, View(), store) == Drain(crypto, old(View()), store)
        decreases pending.Keys
      {
        var next := height + 1;
        var b := pending[next];
        ghost var before := View();
        pending := pending - {next};
        if b.prevHash != tip {
          continue;
        }
        if height in blocks && b.time <= blocks[height].time {
          continue;
        }
        var fault := ApplyBlock(b, store(b));
        DrainStep(crypto, before, store);
        if fault.None? {
          applied := applied + 1;
        }
      }
    }

    static lemma KeepsPending(c: Crypto, s: Chain, b: Block, stored: bool)
      ensures Ledger.ApplyBlock(c, s, b, stored).pending == s.pending
    {
      if ApplyFault(c, s, b, stored).Some? {
        RefusedFacts(c, s, b, stored);
      } else {
        AcceptedState(c, s, b, Ledger.ApplyBlock(c, s, b, true));
      }
    }

    static lemma DrainStep(c: Crypto, s: Chain, store: Block -> bool)
      requires s.height + 1 in s.pending
      ensures var b := s.pending[s.height + 1]; var popped := s.(pending := s.pending - {s.height + 1});
        && Ledger.ApplyBlock(c, popped, b, store(b)).pending == popped.pending
        && (b.prevHash == s.tip && !(s.height in s.blocks && b.time <= s.blocks[s.height].time) ==>
             Drain(c, s, store) == Drain(c, Ledger.ApplyBlock(c, popped, b, store(b)), store))
    {
      hide Ledger.ApplyBlock;
      KeepsPending(c, s.(pending := s.pending - {s.height + 1}), s.pending[s.height + 1],
                   store(s.pending[s.height + 1]));
    }

    method CheckProposal(b: Block, e: Env) returns (fault: Option<Refusal>)
      ensures fault == ProposalFault(crypto, View(), b, e)
    {
      if finalizedHeight > 0 && b.height <= finalizedHeight && b.height in blocks && blocks[b.height].hash != b.hash {
        return Some(ReorgBlocked);
      }
      if e.localId != "" && e.localId != NO_VALIDATOR && b.producer != e.localId && !e.quorum {
        return Some(NoQuorum);
      }
      if b.height <= 0 {
        return Some(InvalidHeight);
      }
      if b.height <= height {
        if b.height in blocks {
          if blocks[b.height].hash == b.hash && b.hash != "" {
            return Some(DuplicateCommitted);
          }
          return Some(ConflictingCommitted);
        }
        return Some(StaleHeight);
      }
      if b.time == 0 {
        return Some(MissingTime);
      }
      if b.time > e.now + MAX_FUTURE_SKEW {
        return Some(FutureTime);
      }
      if height in blocks && b.height == height + 1 && b.time <= blocks[height].time {
        return Some(StaleTime);
      }
      if b.hash == "" || b.hash != BlockHash(crypto, b) {
        return Some(BadHash);
      }
      if !BlockSignatureOk(crypto, b) {
        return Some(BadBlockSignature);
      }
      for i := 0 to |b.txs|
        invariant forall j :: 0 <= j < i ==> !Malformed(b.txs[j])
      {
        var tx := b.txs[i];
        if tx.sender == "" || tx.receiver == "" || tx.sender == tx.receiver || tx.amount <= 0 {
          assert Malformed(b.txs[i]);
          return Some(MalformedTx);
        }
      }
      fault := None;
    }

    method ApplyBlockOrBuffer(b: Block, e: Env) returns (verdict: Verdict)
      modifies this
      ensures verdict == DeliverVerdict(crypto, old(View()), b, e)
      ensures View() == Deliver(crypto, old(View()), b, e)
    {
      var fault := CheckProposal(b, e);
      if fault.Some? {
        return Refused(fault.value);
      }
      if b.height == height + 1 {
        fault := ApplyBlock(b, e.store(b));
        if fault.Some? {
          return Refused(fault.value);
        }
        var _ := DrainPending(e.store);
        return Applied;
      }
      if b.height > height + MAX_BUFFER_DISTANCE {
        return Refused(TooFarAhead);
      }
      if b.height in pending {
        var existing := pending[b.height];
        if existing.hash == b.hash && b.hash != "" {
          return Refused(DuplicatePending);
        }
        return Refused(ConflictingPending);
      }
      pending := pending[b.height := b];
      return Buffered;
    }

    // ----- proposing

    method ProposalSafetyCheck(pub: string) returns (fault: Option<Refusal>)
      ensures fault == SafetyFault(View(), pub)
    {
      if height + 1 in pending {
        return Some(SuccessorBuffered);
      }
      var todo := pending.Keys;
      while todo != {}
        invariant todo <= pending.Keys
        invariant forall h :: h in pending && h !in todo ==>
          h <= height || pending[h].producer == "" || pending[h].producer == pub
        decreases todo
      {
        EmptyOrInhabited(todo);
        var h :| h in todo;
        todo := todo - {h};
        if h > height && pending[h].producer != "" && pending[h].producer != pub {
          return Some(OtherValidatorBuffered);
        }
      }
      fault := None;
    }

    static method SumFees(txs: seq<Tx>) returns (totalFees: int)
      ensures totalFees == FeeSum(txs)
    {
      totalFees := 0;
      assert txs[0..] == txs;
      for i := 0 to |txs|
        invariant totalFees + FeeSum(txs[i..]) == FeeSum(txs)
      {
        assert txs[i..][1..] == txs[i + 1..];
        totalFees := totalFees + txs[i].fee;
      }
      assert txs[|txs|..] == [];
    }

    /** A signed block over `txs` on top of the current head. */
    method MakeBlock(txs: seq<Tx>, p: Proposer) returns (b: Block)
      ensures b == BuildBlock(crypto, View(), txs, p)
    {
      hide Predict, Root, FeeSum, ExpectedReward;
      var totalFees := SumFees(txs);
      b := Block(p.pub, p.wallet, ExpectedReward(height + 1, totalFees), "", "", None, false,
                 p.pub, height + 1, tip, "", p.stamp, txs);
      var root := CalcStateHashWithBlock(b);
      b := b.(balancesRoot := Some(root));
      b := b.(hash := BlockHash(crypto, b));
      b := b.(signature := crypto.sign(p.priv, BlockHash(crypto, b)));
    }

    /** Takes at most 64 transactions off the head of the pool. */
    method TakeTransactions() returns (txs: seq<Tx>)
      modifies this`mempool, this`mempoolIds, this`mempoolSenderNonce
      ensures txs == old(mempool)[..TakeCount(old(mempool))]
      ensures View() == WithPool(crypto, old(View()), old(mempool)[TakeCount(old(mempool))..])
    {
      var take := |mempool|;
      if take > MAX_BLOCK_TXS {
        take := MAX_BLOCK_TXS;
      }
      txs := mempool[..take];
      mempool := mempool[take..];
      RebuildMempoolIndex();
    }

    method ProposeBlock(p: Proposer, e: Env) returns (verdict: Verdict)
      modifies this
      ensures verdict == ProposeVerdict(crypto, old(View()), p, e)
      ensures View() == Propose(crypto, old(View()), p, e)
    {
      hide Deliver, DeliverVerdict, BuildBlock, Compact, Offer;
      if p.wallet == "" {
        return Refused(NoPayoutAddress);
      }
      if p.pub == "" || p.priv == "" || p.pub == NO_VALIDATOR {
        return Refused(NoValidatorKeys);
      }
      var fault := ProposalSafetyCheck(p.pub);
      if fault.Some? {
        return Refused(fault.value);
      }
      var _ := CompactMempool();
      if !p.keyHexOk {
        return Refused(BadKeyHex);
      }
      ghost var ready := View();
      var txs := TakeTransactions();
      var b := MakeBlock(txs, p);
      OfferedBlock(crypto, old(View()), ready, View(), txs, p);
      verdict := ApplyBlockOrBuffer(b, e.(localId := p.pub));
      if verdict.Refused? {
        mempool := b.txs + mempool;
        RebuildMempoolIndex();
      }
    }

    static lemma OfferedBlock(c: Crypto, s: Chain, ready: Chain, open: Chain, txs: seq<Tx>, p: Proposer)
      requires ready == CompactPool(c, s)
      requires txs == ready.mempool[..TakeCount(ready.mempool)]
      requires open == WithPool(c, ready, ready.mempool[TakeCount(ready.mempool)..])
      ensures (open, BuildBlock(c, open, txs, p)) == Offer(c, s, p)
    {
      hide Compact, BuildBlock, IdsOf, KeysOf;
      BuildBlockDepends(c, s, open, txs, p);
    }

    static lemma BuildBlockDepends(c: Crypto, s: Chain, t: Chain, txs: seq<Tx>, p: Proposer)
      requires s.height == t.height && s.tip == t.tip && s.accounts == t.accounts
      ensures BuildBlock(c, s, txs, p) == BuildBlock(c, t, txs, p)
    {
      hide Predict, BlockHash;
    }

    // ----- loading

    /** Replays block files in ascending height, halting at the first refusal, whose file it moves
        away. */
    method ReplayFiles(above: int, store: Block -> bool) returns (fault: Option<Refusal>)
      modifies this
      ensures Loaded(View(), fault) == ReplayBlocks(crypto, old(View()), Files(old(disk), above), store)
    {
      var files := disk;
      var hs := SortHeights(set h | h in files && h > above && h >= 0);
      assert hs == AscendingHeights(Above(files, above));
      ghost var all := Files(old(disk), above);
      assert all[0..] == all;
      for i := 0 to |hs|
        invariant ReplayBlocks(crypto, View(), all[i..], store) == ReplayBlocks(crypto, old(View()), all, store)
      {
        var b := files[hs[i]];
        assert all[i..][0] == b && all[i..][1..] == all[i + 1..];
        fault := ApplyBlock(b, store(b));
        if fault.Some? {
          disk := disk - {b.height};
          return;
        }
      }
      assert all[|hs|..] == [];
      fault := None;
    }

    method LoadFromDisk(store: Block -> bool) returns (fault: Option<Refusal>)
      modifies this
      ensures Loaded(View(), fault) == Replay.LoadFromDisk(crypto, old(View()), store)
    {
      fault := ReplayFiles(-1, store);
    }

    // ----- snapshots

    static method HashAccounts(c: Crypto, a: Accounts) returns (h: string)
      ensures h == c.accountsHash(Listing(a))
    {
      var raw := CollectEntries(a, false);
      var lst := SortByAddress(raw, a);
      h := c.accountsHash(lst);
    }

    method ExportSnapshot() returns (snap: Snapshot)
      ensures snap == Export(crypto, View())
    {
      var h := HashAccounts(crypto, accounts);
      snap := Snapshot(height, tip, accounts, h, crypto.snapshotHash(SnapshotText(height, tip, h)));
    }

    static method ValidateSnapshot(c: Crypto, snap: Snapshot) returns (fault: Option<SnapshotFault>)
      ensures fault == FaultOf(c, snap)
    {
      hide Listing;
      var todo := snap.accounts.Keys;
      while todo != {}
        invariant todo <= snap.accounts.Keys
        invariant forall k :: k in snap.accounts && k !in todo ==>
          snap.accounts[k].balance >= 0 && snap.accounts[k].nonce >= 0
        decreases todo
      {
        var k :| k in todo;
        todo := todo - {k};
        if snap.accounts[k].balance < 0 || snap.accounts[k].nonce < 0 {
          return Some(NegativeAccount);
        }
      }
      if snap.accountsHash == "" {
        return Some(MissingAccountsHash);
      }
      var h := HashAccounts(c, snap.accounts);
      if h != snap.accountsHash {
        return Some(AccountsHashMismatch);
      }
      if snap.snapshotHash == "" {
        return Some(MissingSnapshotHash);
      }
      if c.snapshotHash(SnapshotText(snap.height, snap.tip, snap.accountsHash)) != snap.snapshotHash {
        return Some(SnapshotHashMismatch);
      }
      fault := None;
    }

    method LoadSnapshotFromBytes(snap: Snapshot) returns (fault: Option<SnapshotFault>)
      modifies this
      ensures fault == FaultOf(crypto, snap)
      ensures View() == LoadSnapshot(crypto, old(View()), snap)
    {
      fault := ValidateSnapshot(crypto, snap);
      if fault.Some? {
        return;
      }
      height, tip, accounts := snap.height, snap.tip, snap.accounts;
      blocks, pending := map[], map[];
      mempool, mempoolIds, mempoolSenderNonce := [], {}, map[];
    }

    method LoadSnapshotFromDisk(snap: Snapshot, store: Block -> bool)
        returns (invalid: Option<SnapshotFault>, fault: Option<Refusal>)
      modifies this
      ensures invalid == FaultOf(crypto, snap)
      ensures invalid.Some? ==> View() == old(View())
      ensures invalid.None? ==>
        Loaded(View(), fault) == LoadSnapshotAndReplay(crypto, old(View()), snap, store)
    {
      fault := None;
      invalid := LoadSnapshotFromBytes(snap);
      if invalid.None? {
        fault := ReplayFiles(snap.height, store);
      }
    }

    /** Startup: the snapshot file, if there is one, and then the block files. */
    method Start(snap: Option<Snapshot>, store: Block -> bool)
        returns (invalid: Option<SnapshotFault>, fault: Option<Refusal>)
      modifies this
      ensures invalid == if snap.Some? then FaultOf(crypto, snap.value) else None
      ensures invalid.Some? ==> View() == old(View())
      ensures snap.None? ==> Loaded(View(), fault) == Replay.LoadFromDisk(crypto, old(View()), store)
      ensures snap.Some? && invalid.None? ==>
        Loaded(View(), fault) == Startup(crypto, old(View()), snap.value, store)
    {
      hide ReplayBlocks, FaultOf;
      invalid, fault := None, None;
      if snap.Some? {
        invalid, fault := LoadSnapshotFromDisk(snap.value, store);
      }
      if invalid.None? && fault.None? {
        fault := LoadFromDisk(store);
      }
    }
  }
}
