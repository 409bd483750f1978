/** What a block does to the accounts: the checked execution that commits it and the unchecked
    prediction its header is judged by. */
module Execution {
  import opened Wrappers
  import opened Accounts
  import opened Blocks
  import opened Rewards

  // ----- one transfer

  function Transfer(a: Accounts, tx: Tx): Accounts
  {
    var f := Get(a, tx.sender);
    var a1 := a[tx.sender := Account(f.balance - (tx.amount + tx.fee), f.nonce + 1)];
    Pay(a1, tx.receiver, tx.amount)
  }

  predicate Malformed(tx: Tx)
  {
    tx.sender == "" || tx.receiver == "" || tx.sender == tx.receiver || tx.amount <= 0
  }

  /** The checks made before a transfer is executed, in order. */
  function TransferFault(a: Accounts, tx: Tx): Option<Refusal>
  {
    if tx.sender == "" || tx.receiver == "" then Some(MissingParty)
    else if tx.sender == tx.receiver then Some(SelfTransfer)
    else if tx.amount <= 0 then Some(BadAmount)
    else if tx.fee < 0 then Some(NegativeFee)
    else if tx.nonce != Get(a, tx.sender).nonce then Some(BadNonce)
    else if Get(a, tx.sender).balance < tx.amount + tx.fee then Some(InsufficientBalance)
    else None
  }

  // ----- checked execution

  /** On failure, `touched` are the addresses looked up so far; the code creates them. */
  datatype Exec = Done(accounts: Accounts) | Failed(why: Refusal, touched: set<string>)

  function Touch(e: Exec, more: set<string>): Exec
  {
    match e
    case Done(_) => e
    case Failed(why, t) => Failed(why, t + more)
  }

  function Execute(a: Accounts, txs: seq<Tx>): Exec
    decreases |txs|
  {
    if txs == [] then Done(a)
    else
      var tx := txs[0];
      match TransferFault(a, tx)
      case Some(why) => Failed(why, if Malformed(tx) then {} else {tx.sender, tx.receiver})
      case None => Touch(Execute(Transfer(a, tx), txs[1..]), {tx.sender, tx.receiver})
  }

  function FeeSum(txs: seq<Tx>): int
  {
    if txs == [] then 0 else txs[0].fee + FeeSum(txs[1..])
  }

  function Recipient(b: Block): string
  {
    if b.producerAddr != "" then b.producerAddr else b.producer
  }

  /** Reward and treasury credits after the transfers of `b`. The code has by then added every
      fee twice. */
  function Settle(a: Accounts, b: Block): Accounts
  {
    var paid := Pay(a, Recipient(b), b.reward);
    var treasury := TreasuryFees(2 * FeeSum(b.txs));
    if FeeSplitActive(b.height) && treasury > 0 then Pay(paid, TREASURY_ADDR, treasury) else paid
  }

  // ----- prediction

  function PredictTxs(a: Accounts, txs: seq<Tx>): Accounts
    decreases |txs|
  {
    if txs == [] then a
    else PredictTxs(if Malformed(txs[0]) then a else Transfer(a, txs[0]), txs[1..])
  }

  function PredictFees(txs: seq<Tx>): int
  {
    if txs == [] then 0 else (if Malformed(txs[0]) then 0 else txs[0].fee) + PredictFees(txs[1..])
  }

  function Predict(a: Accounts, b: Block): Accounts
  {
    var moved := PredictTxs(a, b.txs);
    var fees := PredictFees(b.txs);
    var withTreasury :=
      if FeeSplitActive(b.height) && TreasuryFees(fees) > 0
      then Pay(moved, TREASURY_ADDR, TreasuryFees(fees)) else moved;
    var reward := ExpectedReward(b.height, fees);
    if reward > 0 && Recipient(b) != "" then Pay(withTreasury, Recipient(b), reward) else withTreasury
  }

  // ----- execution on equal ledgers

  lemma PutSame(a: Accounts, b: Accounts, k: string, v: Account)
    requires Same(a, b)
    ensures Same(a[k := v], b[k := v])
  {
    var p, q := a[k := v], b[k := v];
    forall x ensures Get(p, x) == Get(q, x) {
      assert Get(a, x) == Get(b, x);
    }
  }

  lemma PaySame(a: Accounts, b: Accounts, addr: string, amount: int)
    requires Same(a, b)
    ensures Same(Pay(a, addr, amount), Pay(b, addr, amount))
  {
    assert Get(a, addr) == Get(b, addr);
    PutSame(a, b, addr, Pay(a, addr, amount)[addr]);
  }

  lemma TransferSame(a: Accounts, b: Accounts, tx: Tx)
    requires Same(a, b)
    ensures Same(Transfer(a, tx), Transfer(b, tx))
    ensures TransferFault(a, tx) == TransferFault(b, tx)
  {
    var f := Get(a, tx.sender);
    assert f == Get(b, tx.sender);
    var v := Account(f.balance - (tx.amount + tx.fee), f.nonce + 1);
    PutSame(a, b, tx.sender, v);
    PaySame(a[tx.sender := v], b[tx.sender := v], tx.receiver, tx.amount);
  }

  ghost predicate SameExec(d: Exec, e: Exec)
  {
    match (d, e)
    case (Done(a), Done(b)) => Same(a, b)
    case (Failed(v, s), Failed(w, t)) => v == w && s == t
    case _ => false
  }

  /** Zero accounts never change what a list of transfers does. */
  lemma {:induction false} ExecuteSame(a: Accounts, b: Accounts, txs: seq<Tx>)
    requires Same(a, b)
    ensures SameExec(Execute(a, txs), Execute(b, txs))
    decreases |txs|
  {
    if txs != [] {
      TransferSame(a, b, txs[0]);
      if TransferFault(a, txs[0]).None? {
        ExecuteSame(Transfer(a, txs[0]), Transfer(b, txs[0]), txs[1..]);
      }
    }
  }

  lemma SettleSame(a: Accounts, a': Accounts, b: Block)
    requires Same(a, a')
    ensures Same(Settle(a, b), Settle(a', b))
  {
    PaySame(a, a', Recipient(b), b.reward);
    PaySame(Pay(a, Recipient(b), b.reward), Pay(a', Recipient(b), b.reward), TREASURY_ADDR,
            TreasuryFees(2 * FeeSum(b.txs)));
  }

  /** Execution splits anywhere. */
  lemma {:induction false} ExecuteSplit(a: Accounts, xs: seq<Tx>, ys: seq<Tx>)
    ensures Execute(a, xs + ys).Done? ==> Execute(a, xs).Done?
    ensures Execute(a, xs).Done? ==>
      (Execute(a, xs + ys).Done? <==> Execute(Execute(a, xs).accounts, ys).Done?)
    ensures Execute(a, xs + ys).Done? ==>
      Execute(a, xs + ys) == Execute(Execute(a, xs).accounts, ys)
    decreases |xs|
  {
    if xs == [] {
      assert xs + ys == ys;
    } else {
      assert (xs + ys)[0] == xs[0] && (xs + ys)[1..] == xs[1..] + ys;
      if TransferFault(a, xs[0]).None? {
        ExecuteSplit(Transfer(a, xs[0]), xs[1..], ys);
      }
    }
  }

  /** The two sides of the transfers of a list. */
  function Parties(txs: seq<Tx>): set<string>
  {
    if txs == [] then {} else {txs[0].sender, txs[0].receiver} + Parties(txs[1..])
  }

  /** A list fails at its first transfer that fails after those before it, for its reason. Looked up,
      and so created, are the parties of the transfers before it, and its own if it is well formed. */
  lemma {:induction false} FailureExact(a: Accounts, txs: seq<Tx>) returns (k: nat)
    requires Execute(a, txs).Failed?
    ensures k < |txs| && Execute(a, txs[..k]).Done?
    ensures TransferFault(Execute(a, txs[..k]).accounts, txs[k]) == Some(Execute(a, txs).why)
    ensures Execute(a, txs).touched ==
      Parties(txs[..k]) + if Malformed(txs[k]) then {} else {txs[k].sender, txs[k].receiver}
    decreases |txs|
  {
    hide TransferFault, Transfer, Malformed;
    if TransferFault(a, txs[0]).Some? {
      k := 0;
    } else {
      var j := FailureExact(Transfer(a, txs[0]), txs[1..]);
      k := j + 1;
      assert txs[..k][0] == txs[0] && txs[..k][1..] == txs[1..][..j];
    }
  }

  // ----- what executed transfers guarantee

  lemma {:induction false} ExecutedFees(a: Accounts, txs: seq<Tx>)
    requires Execute(a, txs).Done?
    ensures Execute(a, txs).accounts == PredictTxs(a, txs)
    ensures FeeSum(txs) == PredictFees(txs) >= 0
    decreases |txs|
  {
    if txs != [] {
      ExecutedFees(Transfer(a, txs[0]), txs[1..]);
    }
  }

  lemma {:induction false} ExecutedWellFormed(a: Accounts, txs: seq<Tx>)
    requires Execute(a, txs).Done?
    ensures forall i :: 0 <= i < |txs| ==> !Malformed(txs[i]) && txs[i].fee >= 0
    decreases |txs|
  {
    if txs != [] {
      ExecutedWellFormed(Transfer(a, txs[0]), txs[1..]);
      assert forall i :: 1 <= i < |txs| ==> txs[i] == txs[1..][i - 1];
    }
  }

  ghost predicate NonNegative(a: Accounts)
  {
    forall k :: k in a ==> a[k].balance >= 0 && a[k].nonce >= 0
  }

  lemma {:induction false} ExecuteNonNegative(a: Accounts, txs: seq<Tx>)
    requires NonNegative(a) && Execute(a, txs).Done?
    ensures NonNegative(Execute(a, txs).accounts)
    decreases |txs|
  {
    if txs != [] {
      ExecuteNonNegative(Transfer(a, txs[0]), txs[1..]);
    }
  }

  lemma PayTotal(a: Accounts, addr: string, amount: int)
    ensures Total(Pay(a, addr, amount)) == Total(a) + amount
  {
    TotalPut(a, addr, Get(a, addr).(balance := Get(a, addr).balance + amount));
  }

  lemma TransferTotal(a: Accounts, tx: Tx)
    ensures Total(Transfer(a, tx)) == Total(a) - tx.fee
  {
    var f := Get(a, tx.sender);
    var v := Account(f.balance - (tx.amount + tx.fee), f.nonce + 1);
    TotalPut(a, tx.sender, v);
    PayTotal(a[tx.sender := v], tx.receiver, tx.amount);
  }

  /** Transfers destroy exactly the fees. */
  lemma {:induction false} PredictTxsTotal(a: Accounts, txs: seq<Tx>)
    ensures Total(PredictTxs(a, txs)) == Total(a) - PredictFees(txs)
    decreases |txs|
  {
    if txs != [] {
      var next := if Malformed(txs[0]) then a else Transfer(a, txs[0]);
      TransferTotal(a, txs[0]);
      PredictTxsTotal(next, txs[1..]);
    }
  }

  /** The predicted ledger grows by exactly the block reward, at every height. */
  lemma PredictTotal(a: Accounts, b: Block)
    requires b.height >= 1 && Recipient(b) != ""
    requires forall i :: 0 <= i < |b.txs| ==> !Malformed(b.txs[i]) && b.txs[i].fee >= 0
    ensures Total(Predict(a, b)) == Total(a) + BlockRewardForHeight(b.height)
  {
    var fees := PredictFees(b.txs);
    var moved := PredictTxs(a, b.txs);
    PredictTxsTotal(a, b.txs);
    FeesNonNegative(b.txs);
    SplitFeesExact(fees);
    var reward := ExpectedReward(b.height, fees);
    if FeeSplitActive(b.height) && TreasuryFees(fees) > 0 {
      PayTotal(moved, TREASURY_ADDR, TreasuryFees(fees));
      PayTotal(Pay(moved, TREASURY_ADDR, TreasuryFees(fees)), Recipient(b), reward);
    } else {
      PayTotal(moved, Recipient(b), reward);
    }
  }

  lemma {:induction false} FeesNonNegative(txs: seq<Tx>)
    requires forall i :: 0 <= i < |txs| ==> txs[i].fee >= 0
    ensures PredictFees(txs) >= 0
  {
    if txs != [] {
      FeesNonNegative(txs[1..]);
    }
  }

  /** An account that sends nothing keeps its nonce and loses nothing. */
  lemma {:induction false} ExecuteBystander(a: Accounts, txs: seq<Tx>, k: string)
    requires Execute(a, txs).Done?
    requires forall i :: 0 <= i < |txs| ==> txs[i].sender != k
    ensures Get(Execute(a, txs).accounts, k).nonce == Get(a, k).nonce
    ensures Get(Execute(a, txs).accounts, k).balance >= Get(a, k).balance
    decreases |txs|
  {
    if txs != [] {
      ExecuteBystander(Transfer(a, txs[0]), txs[1..], k);
    }
  }

  /** What an account gains from transfers, net of what it pays. */
  function NetTransfers(txs: seq<Tx>, k: string): int
  {
    if txs == [] then 0
    else
      (if txs[0].receiver == k then txs[0].amount else 0)
      - (if txs[0].sender == k then txs[0].amount + txs[0].fee else 0)
      + NetTransfers(txs[1..], k)
  }

  lemma {:induction false} ExecuteNet(a: Accounts, txs: seq<Tx>, k: string)
    requires Execute(a, txs).Done?
    ensures Get(Execute(a, txs).accounts, k).balance == Get(a, k).balance + NetTransfers(txs, k)
    decreases |txs|
  {
    if txs != [] {
      ExecuteNet(Transfer(a, txs[0]), txs[1..], k);
    }
  }

  // ----- nonces

  function SenderNonces(txs: seq<Tx>, k: string): seq<int>
  {
    if txs == [] then []
    else (if txs[0].sender == k then [txs[0].nonce] else []) + SenderNonces(txs[1..], k)
  }

  function Range(lo: int, hi: int): (r: seq<int>)
    requires lo <= hi
    ensures |r| == hi - lo && forall i :: 0 <= i < |r| ==> r[i] == lo + i
  {
    seq(hi - lo, i => lo + i)
  }

  lemma RangeConcat(x: int, y: int, z: int)
    requires x <= y <= z
    ensures Range(x, y) + Range(y, z) == Range(x, z)
  {
  }

  /** The nonces an account spends are consecutive, starting at its old nonce and ending just
      before its new one. */
  lemma {:induction false} ExecuteNonces(a: Accounts, txs: seq<Tx>, k: string)
    requires Execute(a, txs).Done?
    ensures Get(a, k).nonce <= Get(Execute(a, txs).accounts, k).nonce
    ensures SenderNonces(txs, k) == Range(Get(a, k).nonce, Get(Execute(a, txs).accounts, k).nonce)
    decreases |txs|
  {
    if txs != [] {
      ExecuteNonces(Transfer(a, txs[0]), txs[1..], k);
      var n, m := Get(a, k).nonce, Get(Execute(a, txs).accounts, k).nonce;
      if txs[0].sender == k {
        RangeConcat(n, n + 1, m);
        assert Range(n, n + 1) == [n];
      }
    }
  }

  lemma {:induction false} SenderNoncesConcat(xs: seq<Tx>, ys: seq<Tx>, k: string)
    ensures SenderNonces(xs + ys, k) == SenderNonces(xs, k) + SenderNonces(ys, k)
    decreases |xs|
  {
    if xs == [] {
      assert xs + ys == ys;
    } else {
      assert (xs + ys)[0] == xs[0] && (xs + ys)[1..] == xs[1..] + ys;
      SenderNoncesConcat(xs[1..], ys, k);
      var head := if xs[0].sender == k then [xs[0].nonce] else [];
      assert SenderNonces(xs, k) == head + SenderNonces(xs[1..], k);
      assert SenderNonces(xs + ys, k) == head + (SenderNonces(xs[1..], k) + SenderNonces(ys, k));
    }
  }

  // ----- what executes

  /** Transfer `i` of a list is between two parties, moves a positive amount for no negative fee,
      carries its sender's next nonce after the transfers before it, and is covered by what these
      have left its sender. */
  predicate Affordable(a: Accounts, txs: seq<Tx>, i: nat)
    requires i < |txs|
  {
    var t := txs[i];
    && t.sender != "" && t.receiver !in {"", t.sender} && t.amount > 0 && t.fee >= 0
    && t.nonce == Get(a, t.sender).nonce + |SenderNonces(txs[..i], t.sender)|
    && Get(a, t.sender).balance + NetTransfers(txs[..i], t.sender) >= t.amount + t.fee
  }

  /** A list executes exactly when each transfer can be made after those before it. */
  lemma {:induction false} ExecuteExact(a: Accounts, txs: seq<Tx>)
    ensures Execute(a, txs).Done? <==> forall i :: 0 <= i < |txs| ==> Affordable(a, txs, i)
    decreases |txs|
  {
    if txs != [] {
      hide Execute, SenderNonces, NetTransfers;
      var n := |txs| - 1;
      var front := txs[..n];
      assert txs == front + [txs[n]];
      ExecuteExact(a, front);
      ExecuteSplit(a, front, [txs[n]]);
      forall i | 0 <= i < n ensures Affordable(a, txs, i) <==> Affordable(a, front, i) {
        assert txs[..i] == front[..i];
      }
      if Execute(a, front).Done? {
        ExecuteNet(a, front, txs[n].sender);
        ExecuteNonces(a, front, txs[n].sender);
        ExecuteLast(Execute(a, front).accounts, txs[n]);
        assert txs[..n] == front;
        assert Affordable(a, txs, n) <==> Execute(Execute(a, front).accounts, [txs[n]]).Done?;
      }
    }
  }

  lemma ExecuteLast(a: Accounts, tx: Tx)
    ensures Execute(a, [tx]).Done? <==>
      && tx.sender != "" && tx.receiver !in {"", tx.sender} && tx.amount > 0 && tx.fee >= 0
      && tx.nonce == Get(a, tx.sender).nonce && Get(a, tx.sender).balance >= tx.amount + tx.fee
  {
  }

  // ----- prediction against execution

  lemma SettleTotal(a: Accounts, b: Block)
    requires FeeSum(b.txs) >= 0
    requires b.reward == ExpectedReward(b.height, FeeSum(b.txs))
    ensures Total(Settle(a, b)) ==
      Total(a) + FeeSum(b.txs) + BlockRewardForHeight(b.height) + Surplus(b.height, FeeSum(b.txs))
  {
    SplitFeesExact(FeeSum(b.txs));
    PayTotal(a, Recipient(b), b.reward);
    PayTotal(Pay(a, Recipient(b), b.reward), TREASURY_ADDR, TreasuryFees(2 * FeeSum(b.txs)));
  }

  /** Executing a block and predicting it agree everywhere but at the treasury account, where
      execution credits the surplus. */
  lemma ExecutionAgainstPrediction(a: Accounts, b: Block, k: string)
    requires Execute(a, b.txs).Done?
    requires b.height >= 1 && Recipient(b) != ""
    requires b.reward == ExpectedReward(b.height, FeeSum(b.txs))
    ensures FeeSum(b.txs) >= 0
    ensures var after := Get(Settle(Execute(a, b.txs).accounts, b), k);
      var predicted := Get(Predict(a, b), k);
      && after.nonce == predicted.nonce
      && after.balance == predicted.balance +
           (if k == TREASURY_ADDR then Surplus(b.height, FeeSum(b.txs)) else 0)
  {
    hide Pay, Get, Execute, PredictTxs, PredictFees, FeeSum, BlockRewardForHeight, ProducerFees, TreasuryFees;
    ExecutedFees(a, b.txs);
    var fees, moved := FeeSum(b.txs), PredictTxs(a, b.txs);
    SplitFeesExact(fees);
    NoFeesNoTreasury();
    var r, early, late := b.reward, TreasuryFees(fees), TreasuryFees(2 * fees);
    PayAt(moved, Recipient(b), r, k);
    PayAt(moved, TREASURY_ADDR, early, k);
    PayAt(Pay(moved, TREASURY_ADDR, early), Recipient(b), r, k);
    PayAt(Pay(moved, Recipient(b), r), TREASURY_ADDR, late, k);
  }

  lemma PayAt(a: Accounts, addr: string, amount: int, k: string)
    ensures var before := Get(a, k);
      Get(Pay(a, addr, amount), k) == if k == addr then before.(balance := before.balance + amount) else before
  {
  }

  lemma NoFeesNoTreasury()
    ensures TreasuryFees(0) == 0
  {
  }

  /** The ledger a committed block leaves is the one its header commits to exactly when the fee
      split is not yet active or the fees are at most 5. */
  lemma ExecutionMeetsPrediction(a: Accounts, b: Block)
    requires Execute(a, b.txs).Done?
    requires b.height >= 1 && Recipient(b) != ""
    requires b.reward == ExpectedReward(b.height, FeeSum(b.txs))
    ensures Same(Settle(Execute(a, b.txs).accounts, b), Predict(a, b)) <==>
      b.height < FEE_SPLIT_FORK_HEIGHT || FeeSum(b.txs) <= 5
  {
    forall k {
      ExecutionAgainstPrediction(a, b, k);
    }
    ExecutionAgainstPrediction(a, b, TREASURY_ADDR);
    SurplusZero(b.height, FeeSum(b.txs));
  }

  // ----- prediction as a translation of the ledger

  /** The change a block predicts at an account does not depend on the ledger it starts from. */
  ghost predicate SameShift(a: Accounts, a': Accounts, b: Accounts, b': Accounts)
  {
    forall k :: Get(a', k).balance - Get(a, k).balance == Get(b', k).balance - Get(b, k).balance
             && Get(a', k).nonce - Get(a, k).nonce == Get(b', k).nonce - Get(b, k).nonce
  }

  lemma {:induction false} PredictTxsShift(a: Accounts, b: Accounts, txs: seq<Tx>)
    ensures SameShift(a, PredictTxs(a, txs), b, PredictTxs(b, txs))
    decreases |txs|
  {
    if txs != [] {
      var tx := txs[0];
      var a1 := if Malformed(tx) then a else Transfer(a, tx);
      var b1 := if Malformed(tx) then b else Transfer(b, tx);
      assert SameShift(a, a1, b, b1);
      PredictTxsShift(a1, b1, txs[1..]);
    }
  }

  lemma PayShift(a0: Accounts, a: Accounts, b0: Accounts, b: Accounts, addr: string, amount: int)
    requires SameShift(a0, a, b0, b)
    ensures SameShift(a0, Pay(a, addr, amount), b0, Pay(b, addr, amount))
  {
  }

  lemma PredictShift(a: Accounts, a': Accounts, b: Block)
    ensures SameShift(a, Predict(a, b), a', Predict(a', b))
  {
    PredictTxsShift(a, a', b.txs);
    var fees := PredictFees(b.txs);
    var m, m' := PredictTxs(a, b.txs), PredictTxs(a', b.txs);
    PayShift(a, m, a', m', TREASURY_ADDR, TreasuryFees(fees));
    PayShift(a, m, a', m', Recipient(b), ExpectedReward(b.height, fees));
    PayShift(a, Pay(m, TREASURY_ADDR, TreasuryFees(fees)), a', Pay(m', TREASURY_ADDR, TreasuryFees(fees)),
             Recipient(b), ExpectedReward(b.height, fees));
  }

  /** Predictions agree exactly when the ledgers did. */
  lemma PredictReflectsSame(a: Accounts, a': Accounts, b: Block)
    ensures Same(a, a') <==> Same(Predict(a, b), Predict(a', b))
  {
    PredictShift(a, a', b);
    var p, p' := Predict(a, b), Predict(a', b);
    forall k ensures Get(a, k) == Get(a', k) <==> Get(p, k) == Get(p', k) {
      assert Get(p, k).balance - Get(a, k).balance == Get(p', k).balance - Get(a', k).balance;
    }
    if Same(a, a') {
      assert forall k :: Get(p, k) == Get(p', k) by {
        forall k ensures Get(p, k) == Get(p', k) { assert Get(a, k) == Get(a', k); }
      }
    }
  }
}
