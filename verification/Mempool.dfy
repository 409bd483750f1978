/** The pending pool: admission, and the compaction that re-validates it by a shadow execution. */
module Mempool {
  import opened Wrappers
  import opened Accounts
  import opened Blocks
  import opened Execution

  function RequiredFee(poolSize: nat): int
  {
    BASE_FEE + (poolSize / FEE_CONGESTION_STEP) * FEE_STEP_INCREMENT
  }

  /** `validateTx`: the checks in order, against the committed accounts. */
  function TxFault(c: Crypto, a: Accounts, poolSize: nat, tx: Tx): Option<Refusal>
  {
    if !VerifyTx(c, tx) then Some(BadTxSignature)
    else if tx.sender == "" || tx.receiver == "" then Some(MissingParty)
    else if tx.sender == tx.receiver then Some(SelfTransfer)
    else if tx.amount <= 0 then Some(BadAmount)
    else if tx.nonce < 0 then Some(NegativeNonce)
    else if !TxFieldsFit(tx) then Some(FieldTooLarge)
    else if tx.fee < 0 then Some(NegativeFee)
    else if tx.fee < RequiredFee(poolSize) then Some(FeeTooLow)
    else if Get(a, tx.sender).balance < tx.amount + tx.fee then Some(InsufficientBalance)
    else if tx.nonce != Get(a, tx.sender).nonce then Some(BadNonce)
    else None
  }

  // ----- indexes

  function IdsOf(c: Crypto, pool: seq<Tx>): set<string>
  {
    set i | 0 <= i < |pool| :: c.txId(pool[i])
  }

  /** The last transaction under a key wins, as in the loop that rebuilds the index. */
  function KeysOf(c: Crypto, pool: seq<Tx>): map<string, string>
  {
    if pool == [] then map[]
    else map[SenderNonceKey(pool[0]) := c.txId(pool[0])] + KeysOf(c, pool[1..])
  }

  // ----- compaction

  /** One pass over the pool: what survives validation against the committed accounts `a`, the
      duplicate checks, and a run on the shadow ledger. */
  function Keep(c: Crypto, a: Accounts, poolSize: nat, shadow: Accounts,
                ids: set<string>, keys: set<string>, txs: seq<Tx>): seq<Tx>
    decreases |txs|
  {
    if txs == [] then []
    else
      var tx := txs[0];
      if && TxFault(c, a, poolSize, tx).None?
         && c.txId(tx) !in ids
         && SenderNonceKey(tx) !in keys
         && tx.nonce == Get(shadow, tx.sender).nonce
         && Get(shadow, tx.sender).balance >= tx.amount + tx.fee
      then [tx] + Keep(c, a, poolSize, Transfer(shadow, tx), ids + {c.txId(tx)},
                       keys + {SenderNonceKey(tx)}, txs[1..])
      else Keep(c, a, poolSize, shadow, ids, keys, txs[1..])
  }

  function Compact(c: Crypto, a: Accounts, pool: seq<Tx>): seq<Tx>
  {
    Keep(c, a, |pool|, a, {}, {}, pool)
  }

  /** Each transaction spends its sender's committed nonce from its committed balance, no sender
      appears twice and no identifier does. */
  ghost predicate PoolOk(c: Crypto, a: Accounts, pool: seq<Tx>)
  {
    (forall i :: 0 <= i < |pool| ==> TxFault(c, a, 0, pool[i]).None?) && AllApart(c, pool)
  }

  predicate Apart(c: Crypto, t: Tx, u: Tx)
  {
    t.sender != u.sender && c.txId(t) != c.txId(u)
  }

  ghost predicate AllApart(c: Crypto, pool: seq<Tx>)
  {
    forall i, j :: 0 <= i < j < |pool| ==> Apart(c, pool[i], pool[j])
  }

  lemma ApartTail(c: Crypto, pool: seq<Tx>)
    requires pool != [] && AllApart(c, pool)
    ensures AllApart(c, pool[1..])
    ensures forall i :: 0 <= i < |pool[1..]| ==>
      Apart(c, pool[0], pool[1..][i]) && SenderNonceKey(pool[1..][i]) != SenderNonceKey(pool[0])
  {
    var t := pool[1..];
    forall i | 0 <= i < |t|
      ensures Apart(c, pool[0], t[i]) && SenderNonceKey(t[i]) != SenderNonceKey(pool[0]) {
      assert t[i] == pool[i + 1];
      SenderNonceKeyInjective(t[i], pool[0]);
    }
  }

  lemma PoolTail(c: Crypto, a: Accounts, pool: seq<Tx>)
    requires pool != [] && PoolOk(c, a, pool)
    ensures PoolOk(c, a, pool[1..])
    ensures forall i :: 0 <= i < |pool[1..]| ==>
      Apart(c, pool[0], pool[1..][i]) && SenderNonceKey(pool[1..][i]) != SenderNonceKey(pool[0])
  {
    ApartTail(c, pool);
  }

  /** What is kept avoids the identifiers and keys already taken, and comes from the list. */
  lemma {:induction false} KeepFresh(c: Crypto, a: Accounts, n: nat, shadow: Accounts,
                                     ids: set<string>, keys: set<string>, txs: seq<Tx>)
    ensures var k := Keep(c, a, n, shadow, ids, keys, txs);
      && |k| <= |txs|
      && forall i :: 0 <= i < |k| ==>
           && TxFault(c, a, n, k[i]).None? && k[i] in txs
           && c.txId(k[i]) !in ids && SenderNonceKey(k[i]) !in keys
    decreases |txs|
  {
    if txs != [] {
      var tx := txs[0];
      KeepFresh(c, a, n, Transfer(shadow, tx), ids + {c.txId(tx)}, keys + {SenderNonceKey(tx)}, txs[1..]);
      KeepFresh(c, a, n, shadow, ids, keys, txs[1..]);
      assert forall t :: t in txs[1..] ==> t in txs;
    }
  }

  /** The kept list is a sound pool. */
  lemma {:induction false} KeepSound(c: Crypto, a: Accounts, n: nat, shadow: Accounts,
                                     ids: set<string>, keys: set<string>, txs: seq<Tx>)
    ensures PoolOk(c, a, Keep(c, a, n, shadow, ids, keys, txs))
    decreases |txs|
  {
    hide Transfer, SenderNonceKey;
    if txs != [] {
      var tx := txs[0];
      var ids', keys' := ids + {c.txId(tx)}, keys + {SenderNonceKey(tx)};
      var rest := Keep(c, a, n, Transfer(shadow, tx), ids', keys', txs[1..]);
      KeepSound(c, a, n, Transfer(shadow, tx), ids', keys', txs[1..]);
      KeepFresh(c, a, n, Transfer(shadow, tx), ids', keys', txs[1..]);
      KeepSound(c, a, n, shadow, ids, keys, txs[1..]);
      forall i | 0 <= i < |rest| && TxFault(c, a, n, tx).None? ensures rest[i].sender != tx.sender {
        SenderNonceKeyInjective(rest[i], tx);
      }
    }
  }

  /** The kept list runs on the ledger the shadow started from. */
  lemma {:induction false} KeepRuns(c: Crypto, a: Accounts, n: nat, shadow: Accounts,
                                    ids: set<string>, keys: set<string>, txs: seq<Tx>)
    ensures Execute(shadow, Keep(c, a, n, shadow, ids, keys, txs)).Done?
    decreases |txs|
  {
    if txs != [] {
      var tx := txs[0];
      var rest := Keep(c, a, n, Transfer(shadow, tx), ids + {c.txId(tx)},
                       keys + {SenderNonceKey(tx)}, txs[1..]);
      KeepRuns(c, a, n, Transfer(shadow, tx), ids + {c.txId(tx)}, keys + {SenderNonceKey(tx)}, txs[1..]);
      KeepRuns(c, a, n, shadow, ids, keys, txs[1..]);
      assert ([tx] + rest)[1..] == rest;
    }
  }

  /** Every prefix of the compacted pool executes in sequence on the committed accounts. */
  lemma CompactRuns(c: Crypto, a: Accounts, pool: seq<Tx>, n: nat)
    requires n <= |Compact(c, a, pool)|
    ensures PoolOk(c, a, Compact(c, a, pool))
    ensures Execute(a, Compact(c, a, pool)[..n]).Done?
  {
    var k := Compact(c, a, pool);
    KeepSound(c, a, |pool|, a, {}, {}, pool);
    KeepRuns(c, a, |pool|, a, {}, {}, pool);
    ExecuteSplit(a, k[..n], k[n..]);
    assert k == k[..n] + k[n..];
  }

  // ----- precision

  function FeeFilter(txs: seq<Tx>, fee: int): seq<Tx>
  {
    if txs == [] then []
    else (if txs[0].fee >= fee then [txs[0]] else []) + FeeFilter(txs[1..], fee)
  }

  /** The shadow has moved only accounts whose key is taken, and every other account gained. */
  ghost predicate ShadowAhead(a: Accounts, shadow: Accounts, senders: set<string>)
  {
    forall k :: k !in senders ==>
      Get(shadow, k).nonce == Get(a, k).nonce && Get(shadow, k).balance >= Get(a, k).balance
  }

  /** The transactions that validate against `a` beside a pool of size `n`, in order. */
  function StillValid(c: Crypto, a: Accounts, n: nat, txs: seq<Tx>): seq<Tx>
  {
    if txs == [] then []
    else (if TxFault(c, a, n, txs[0]).None? then [txs[0]] else []) + StillValid(c, a, n, txs[1..])
  }

  /** With one transaction per sender the duplicate checks and the shadow run never drop anything,
      whatever the ledger: each stays or goes by its own validity. */
  lemma {:induction false} KeepIsFilter(c: Crypto, a: Accounts, n: nat, shadow: Accounts,
      ids: set<string>, keys: set<string>, senders: set<string>, txs: seq<Tx>)
    requires AllApart(c, txs)
    requires forall i :: 0 <= i < |txs| ==>
      c.txId(txs[i]) !in ids && SenderNonceKey(txs[i]) !in keys && txs[i].sender !in senders
    requires ShadowAhead(a, shadow, senders)
    ensures Keep(c, a, n, shadow, ids, keys, txs) == StillValid(c, a, n, txs)
    decreases |txs|
  {
    hide SenderNonceKey, VerifyTx, TxFieldsFit;
    if txs != [] {
      var tx := txs[0];
      ApartTail(c, txs);
      if TxFault(c, a, n, tx).None? {
        assert ShadowAhead(a, Transfer(shadow, tx), senders + {tx.sender});
        KeepIsFilter(c, a, n, Transfer(shadow, tx), ids + {c.txId(tx)}, keys + {SenderNonceKey(tx)},
                     senders + {tx.sender}, txs[1..]);
      } else {
        KeepIsFilter(c, a, n, shadow, ids, keys, senders, txs[1..]);
      }
    }
  }

  /** Compacting a pool with one transaction per sender, on any ledger, keeps exactly what still
      validates, in order. */
  lemma CompactExact(c: Crypto, a: Accounts, pool: seq<Tx>, tx: Tx)
    requires AllApart(c, pool)
    ensures Compact(c, a, pool) == StillValid(c, a, |pool|, pool)
    ensures tx in Compact(c, a, pool) <==> tx in pool && TxFault(c, a, |pool|, tx).None?
  {
    KeepIsFilter(c, a, |pool|, a, {}, {}, {}, pool);
    StillValidMembers(c, a, |pool|, pool, tx);
  }

  lemma {:induction false} StillValidMembers(c: Crypto, a: Accounts, n: nat, txs: seq<Tx>, tx: Tx)
    ensures tx in StillValid(c, a, n, txs) <==> tx in txs && TxFault(c, a, n, tx).None?
  {
    hide TxFault;
    if txs != [] {
      StillValidMembers(c, a, n, txs[1..], tx);
      assert tx in txs <==> tx == txs[0] || tx in txs[1..];
    }
  }

  lemma {:induction false} ValidByFee(c: Crypto, a: Accounts, n: nat, txs: seq<Tx>)
    requires forall i :: 0 <= i < |txs| ==> TxFault(c, a, 0, txs[i]).None?
    ensures StillValid(c, a, n, txs) == FeeFilter(txs, RequiredFee(n))
  {
    if txs != [] {
      ValidByFee(c, a, n, txs[1..]);
      assert TxFault(c, a, 0, txs[0]).None?;
    }
  }

  /** On a sound pool compaction filters by fee alone. */
  lemma CompactIsFeeFilter(c: Crypto, a: Accounts, pool: seq<Tx>)
    requires PoolOk(c, a, pool)
    ensures Compact(c, a, pool) == FeeFilter(pool, RequiredFee(|pool|))
  {
    hide TxFault, Keep;
    KeepIsFilter(c, a, |pool|, a, {}, {}, {}, pool);
    ValidByFee(c, a, |pool|, pool);
  }

  lemma {:induction false} FeeFilterAll(txs: seq<Tx>, fee: int)
    requires forall i :: 0 <= i < |txs| ==> txs[i].fee >= fee
    ensures FeeFilter(txs, fee) == txs
  {
    if txs != [] {
      FeeFilterAll(txs[1..], fee);
    }
  }

  lemma FeePaid(c: Crypto, a: Accounts, n: nat, tx: Tx)
    requires TxFault(c, a, n, tx).None?
    ensures tx.fee >= RequiredFee(n)
  {
  }

  /** Below 256 entries compaction of a sound pool drops nothing; at 256 it drops exactly the
      transactions paying less than 2. */
  lemma CompactPrecise(c: Crypto, a: Accounts, pool: seq<Tx>)
    requires PoolOk(c, a, pool) && |pool| <= MAX_MEMPOOL_TXS
    ensures |pool| < 256 ==> Compact(c, a, pool) == pool
    ensures |pool| == 256 ==> Compact(c, a, pool) == FeeFilter(pool, 2)
  {
    hide Compact, TxFault, FeeFilter;
    CompactIsFeeFilter(c, a, pool);
    if |pool| < 256 {
      forall i | 0 <= i < |pool| ensures pool[i].fee >= 1 {
        FeePaid(c, a, 0, pool[i]);
      }
      FeeFilterAll(pool, 1);
    }
  }

  /** Compacting twice is compacting once, for every pool whatsoever. */
  lemma CompactIdempotent(c: Crypto, a: Accounts, pool: seq<Tx>)
    ensures Compact(c, a, Compact(c, a, pool)) == Compact(c, a, pool)
  {
    hide Keep, TxFault, FeeFilter, PoolOk;
    var k := Compact(c, a, pool);
    KeepSound(c, a, |pool|, a, {}, {}, pool);
    KeepFresh(c, a, |pool|, a, {}, {}, pool);
    CompactIsFeeFilter(c, a, k);
    assert |k| / FEE_CONGESTION_STEP <= |pool| / FEE_CONGESTION_STEP;
    forall i | 0 <= i < |k| ensures k[i].fee >= RequiredFee(|k|) {
      FeePaid(c, a, |pool|, k[i]);
    }
    FeeFilterAll(k, RequiredFee(|k|));
  }

  // ----- a pool across a block

  /** Transactions not in the block stay valid: their senders are bystanders of it. */
  lemma PoolSurvives(c: Crypto, a: Accounts, taken: seq<Tx>, rest: seq<Tx>, b: Block)
    requires PoolOk(c, a, taken + rest)
    requires Execute(a, taken).Done?
    requires b.txs == taken && b.reward >= 0
    ensures PoolOk(c, Settle(Execute(a, taken).accounts, b), rest)
  {
    var pool := taken + rest;
    var mid := Execute(a, taken).accounts;
    var after := Settle(mid, b);
    forall i | 0 <= i < |rest| ensures TxFault(c, after, 0, rest[i]).None? {
      var k := rest[i].sender;
      assert pool[|taken| + i] == rest[i];
      forall j | 0 <= j < |taken| ensures taken[j].sender != k {
        assert pool[j] == taken[j];
      }
      ExecuteBystander(a, taken, k);
      assert TxFault(c, a, 0, rest[i]).None?;
    }
    PoolSuffix(c, a, taken, rest);
  }

  lemma {:induction false} PoolSuffix(c: Crypto, a: Accounts, taken: seq<Tx>, rest: seq<Tx>)
    requires PoolOk(c, a, taken + rest)
    ensures PoolOk(c, a, rest)
    decreases |taken|
  {
    if taken == [] {
      assert taken + rest == rest;
    } else {
      PoolTail(c, a, taken + rest);
      assert (taken + rest)[1..] == taken[1..] + rest;
      PoolSuffix(c, a, taken[1..], rest);
    }
  }

  lemma PoolOkSame(c: Crypto, a: Accounts, b: Accounts, pool: seq<Tx>)
    requires Same(a, b) && PoolOk(c, a, pool)
    ensures PoolOk(c, b, pool)
  {
  }

  /** The sender index of a sound pool maps the key of each pending transaction to its identifier
      and holds nothing else. */
  lemma {:induction false} KeysExact(c: Crypto, a: Accounts, pool: seq<Tx>, k: string)
    requires PoolOk(c, a, pool)
    ensures k in KeysOf(c, pool) <==> exists t :: t in pool && SenderNonceKey(t) == k
    ensures forall t :: t in pool && SenderNonceKey(t) == k ==> KeysOf(c, pool)[k] == c.txId(t)
    decreases |pool|
  {
    if pool != [] {
      PoolTail(c, a, pool);
      KeysExact(c, a, pool[1..], k);
      assert forall t :: t in pool <==> t == pool[0] || t in pool[1..];
    }
  }
}
