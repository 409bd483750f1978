/** The committed history: an append-only, linked, finalized-at-depth-two sequence of blocks, and
    what it says about supply and nonces. */
module History {
  import opened Accounts
  import opened Blocks
  import opened Rewards
  import opened Execution
  import opened Ledger

  // ----- shape

  ghost predicate Complete(s: Chain)
  {
    s.height >= 0 && forall h :: h in s.blocks <==> 1 <= h <= s.height
  }

  function HashAt(s: Chain, h: int): string
  {
    if h in s.blocks then s.blocks[h].hash else ""
  }

  /** Block `h` is filed under its height, hashes to its hash, extends its predecessor and is
      strictly younger. */
  ghost predicate Linked(c: Crypto, s: Chain, h: int)
    requires h in s.blocks
  {
    var b := s.blocks[h];
    && b.height == h
    && b.hash == BlockHash(c, b)
    && b.prevHash == HashAt(s, h - 1)
    && (h - 1 in s.blocks ==> s.blocks[h - 1].time < b.time)
  }

  ghost predicate HistoryOk(c: Crypto, s: Chain)
  {
    && Complete(s)
    && s.tip == HashAt(s, s.height)
    && (forall h {:trigger Linked(c, s, h)} :: h in s.blocks ==> Linked(c, s, h))
    && s.finalized == FinalityTarget(s)
    && (forall h :: h in s.blocks && h <= s.finalized ==> s.blocks[h].isFinalized)
  }

  /** The only change a committed block ever sees is its finality flag being raised. */
  ghost predicate Extends(s: Chain, t: Chain)
  {
    && s.height <= t.height
    && s.finalized <= t.finalized
    && forall h :: h in s.blocks ==>
         h in t.blocks && (t.blocks[h] == s.blocks[h] || t.blocks[h] == s.blocks[h].(isFinalized := true))
  }

  /** `b` is strictly younger than the block it would extend. */
  ghost predicate Timely(s: Chain, b: Block)
  {
    s.height in s.blocks ==> s.blocks[s.height].time < b.time
  }

  /** Blocks agree on everything the links look at. */
  predicate SameButFlag(b: Block, b': Block)
  {
    b' == b || b' == b.(isFinalized := true)
  }

  lemma LinkCarries(c: Crypto, s: Chain, t: Chain, h: int)
    requires h in s.blocks && Linked(c, s, h) && h in t.blocks
    requires SameButFlag(s.blocks[h], t.blocks[h])
    requires h - 1 in s.blocks <==> h - 1 in t.blocks
    requires h - 1 in s.blocks ==> SameButFlag(s.blocks[h - 1], t.blocks[h - 1])
    ensures Linked(c, t, h)
  {
  }

  lemma AppendKeepsLinks(c: Crypto, s: Chain, b: Block, t: Chain, h: int)
    requires HistoryOk(c, s) && Timely(s, b) && Appended(s, b, t)
    requires b.height == s.height + 1 && b.prevHash == s.tip && b.hash == BlockHash(c, b)
    requires h in t.blocks
    ensures Linked(c, t, h)
  {
    if h <= s.height {
      assert Linked(c, s, h);
      LinkCarries(c, s, t, h);
    } else {
      assert h == b.height && SameButFlag(b, t.blocks[h]);
      assert HashAt(t, h - 1) == s.tip;
    }
  }

  lemma AppendExtends(s: Chain, b: Block, t: Chain)
    requires Complete(s) && Appended(s, b, t) && b.height == s.height + 1
    ensures Complete(t) && Extends(s, t)
  {
  }

  lemma AppendFinality(s: Chain, b: Block, t: Chain)
    requires Complete(s) && Appended(s, b, t) && b.height == s.height + 1
    requires s.finalized == FinalityTarget(s)
    requires forall h :: h in s.blocks && h <= s.finalized ==> s.blocks[h].isFinalized
    ensures t.finalized == FinalityTarget(t) && t.tip == HashAt(t, t.height)
    ensures forall h :: h in t.blocks && h <= t.finalized ==> t.blocks[h].isFinalized
  {
  }

  lemma AppendKeepsHistory(c: Crypto, s: Chain, b: Block, t: Chain)
    requires HistoryOk(c, s) && Timely(s, b) && Appended(s, b, t)
    requires b.height == s.height + 1 && b.prevHash == s.tip && b.hash == BlockHash(c, b)
    ensures HistoryOk(c, t) && Extends(s, t)
  {
    AppendExtends(s, b, t);
    AppendFinality(s, b, t);
    forall h | h in t.blocks ensures Linked(c, t, h) {
      AppendKeepsLinks(c, s, b, t, h);
    }
  }

  /** Timestamps rise over the whole chain. */
  lemma {:induction false} TimesRise(c: Crypto, s: Chain, g: int, h: int)
    requires HistoryOk(c, s) && 1 <= g < h <= s.height
    ensures g in s.blocks && h in s.blocks && s.blocks[g].time < s.blocks[h].time
    decreases h - g
  {
    assert h in s.blocks && Linked(c, s, h);
    if g < h - 1 {
      TimesRise(c, s, g, h - 1);
    }
  }

  // ----- what is in a block

  /** Signed by its validator over its hash, at most 64 transactions, all signed, well formed and
      paying no negative fee, and no two with one identifier or one sender and nonce. */
  ghost predicate Sealed(c: Crypto, b: Block)
  {
    && BlockSignatureOk(c, b) && b.time != 0 && |b.txs| <= 64 && Scannable(c, b.txs)
    && forall i :: 0 <= i < |b.txs| ==> !Malformed(b.txs[i]) && b.txs[i].fee >= 0
  }

  ghost predicate BlocksOk(c: Crypto, s: Chain)
  {
    forall h :: h in s.blocks ==> Sealed(c, s.blocks[h])
  }

  lemma AcceptedIsSealed(c: Crypto, s: Chain, b: Block)
    requires Accepts(c, s, b)
    ensures Sealed(c, b)
  {
    hide VerifyTx, TxFieldsFit, Predict, ScanTxs, Execute, Malformed;
    ScanExact(c, b.txs);
    AcceptedFacts(c, s, b);
    ExecutedWellFormed(s.accounts, b.txs);
  }

  lemma FlagKeepsSealed(c: Crypto, b: Block, d: Block)
    requires Sealed(c, b) && SameButFlag(b, d)
    ensures Sealed(c, d)
  {
    hide Scannable, Malformed;
  }

  lemma AppendKeepsSealed(c: Crypto, s: Chain, b: Block, t: Chain)
    requires BlocksOk(c, s) && Sealed(c, b) && Appended(s, b, t)
    ensures BlocksOk(c, t)
  {
    hide Sealed;
    forall h | h in t.blocks ensures Sealed(c, t.blocks[h]) {
      FlagKeepsSealed(c, if h == b.height then b else s.blocks[h], t.blocks[h]);
    }
  }

  // ----- the log

  /** The committed blocks in order, finality flags aside. */
  ghost function Log(s: Chain): (l: seq<Block>)
    requires Complete(s)
    ensures |l| == s.height
  {
    seq(s.height, i requires 0 <= i < s.height => s.blocks[i + 1].(isFinalized := false))
  }

  lemma AppendGrowsLog(s: Chain, b: Block, t: Chain)
    requires Complete(s) && b.height == s.height + 1 && Appended(s, b, t)
    ensures Complete(t)
    ensures Log(t) == Log(s) + [b.(isFinalized := false)]
  {
    assert forall h :: h in t.blocks <==> h in s.blocks || h == b.height;
  }

  // ----- supply

  function SurplusSum(log: seq<Block>): int
  {
    if log == [] then 0
    else SurplusSum(log[..|log| - 1]) + Surplus(|log|, FeeSum(log[|log| - 1].txs))
  }

  /** No balance is negative, and all coins come from block rewards and the treasury surplus. */
  ghost predicate SupplyOk(s: Chain)
    requires Complete(s)
  {
    NonNegative(s.accounts) && Total(s.accounts) == RewardSum(s.height) + SurplusSum(Log(s))
  }

  lemma SettleNonNegative(a: Accounts, b: Block)
    requires NonNegative(a) && b.reward >= 0
    ensures NonNegative(Settle(a, b))
  {
  }

  lemma AppendKeepsSupply(c: Crypto, s: Chain, b: Block, t: Chain)
    requires Complete(s) && SupplyOk(s) && Accepts(c, s, b)
    requires Appended(s, b, t) && t.accounts == Settle(Execute(s.accounts, b.txs).accounts, b)
    ensures Complete(t) && SupplyOk(t)
  {
    AcceptedFacts(c, s, b);
    var mid := Execute(s.accounts, b.txs).accounts;
    ExecutedFees(s.accounts, b.txs);
    PredictTxsTotal(s.accounts, b.txs);
    SettleTotal(mid, b);
    ExecuteNonNegative(s.accounts, b.txs);
    SettleNonNegative(mid, b);
    AppendGrowsLog(s, b, t);
    assert Log(t)[..|Log(t)| - 1] == Log(s);
  }

  // ----- nonces

  function Transactions(log: seq<Block>): seq<Tx>
  {
    if log == [] then [] else Transactions(log[..|log| - 1]) + log[|log| - 1].txs
  }

  /** Every account's committed outgoing nonces read 0, 1, 2, ... up to its current nonce. */
  ghost predicate NoncesOk(s: Chain)
    requires Complete(s)
  {
    forall k :: NoncesOf(s, k)
  }

  ghost predicate NoncesOf(s: Chain, k: string)
    requires Complete(s)
  {
    && Get(s.accounts, k).nonce >= 0
    && SenderNonces(Transactions(Log(s)), k) == Range(0, Get(s.accounts, k).nonce)
  }

  lemma SettleNonce(a: Accounts, b: Block, k: string)
    ensures Get(Settle(a, b), k).nonce == Get(a, k).nonce
  {
  }

  lemma AppendKeepsNonces(s: Chain, b: Block, t: Chain)
    requires Complete(s) && NoncesOk(s) && b.height == s.height + 1
    requires Execute(s.accounts, b.txs).Done?
    requires Appended(s, b, t) && t.accounts == Settle(Execute(s.accounts, b.txs).accounts, b)
    ensures Complete(t) && NoncesOk(t)
  {
    AppendGrowsLog(s, b, t);
    assert Log(t)[..|Log(t)| - 1] == Log(s);
    assert Transactions(Log(t)) == Transactions(Log(s)) + b.txs;
    forall k ensures NoncesOf(t, k) {
      AppendKeepsNoncesOf(s, b, t, k);
    }
  }

  lemma AppendKeepsNoncesOf(s: Chain, b: Block, t: Chain, k: string)
    requires Complete(s) && NoncesOf(s, k) && Complete(t)
    requires Execute(s.accounts, b.txs).Done?
    requires t.accounts == Settle(Execute(s.accounts, b.txs).accounts, b)
    requires Transactions(Log(t)) == Transactions(Log(s)) + b.txs
    ensures NoncesOf(t, k)
  {
    hide Execute, Settle, Transactions, Log, SenderNonces;
    ExecuteNonces(s.accounts, b.txs, k);
    SettleNonce(Execute(s.accounts, b.txs).accounts, b, k);
    SenderNoncesConcat(Transactions(Log(s)), b.txs, k);
    RangeConcat(0, Get(s.accounts, k).nonce, Get(t.accounts, k).nonce);
  }

  // ----- no replay

  function CountBefore(txs: seq<Tx>, n: nat, k: string): nat
    requires n <= |txs|
  {
    |SenderNonces(txs[..n], k)|
  }

  /** The n-th transaction of a history whose nonces count up carries its sender's count so far. */
  lemma NonceIsPosition(txs: seq<Tx>, n: nat, hi: int)
    requires n < |txs| && hi >= 0
    requires SenderNonces(txs, txs[n].sender) == Range(0, hi)
    ensures txs[n].nonce == CountBefore(txs, n, txs[n].sender)
  {
    var k := txs[n].sender;
    SenderNoncesConcat(txs[..n], txs[n..], k);
    assert txs == txs[..n] + txs[n..];
    var x, y := SenderNonces(txs[..n], k), SenderNonces(txs[n..], k);
    assert y[0] == txs[n].nonce;
    assert (x + y)[|x|] == y[0];
  }

  /** No two committed transactions share sender and nonce. */
  lemma NoReplay(s: Chain, i: nat, j: nat)
    requires Complete(s) && NoncesOk(s)
    requires i < j < |Transactions(Log(s))|
    ensures var txs := Transactions(Log(s));
      txs[i].sender != txs[j].sender || txs[i].nonce < txs[j].nonce
  {
    var txs := Transactions(Log(s));
    var k := txs[j].sender;
    if txs[i].sender == k {
      assert NoncesOf(s, k);
      NonceIsPosition(txs, i, Get(s.accounts, k).nonce);
      NonceIsPosition(txs, j, Get(s.accounts, k).nonce);
      SenderNoncesConcat(txs[..i], txs[i..j], k);
      assert txs[..j] == txs[..i] + txs[i..j];
      assert txs[i..j][0] == txs[i];
    }
  }
}
