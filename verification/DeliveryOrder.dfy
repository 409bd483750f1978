/** Blocks of one valid chain delivered in any order, any number of times. */
module DeliveryOrder {
  import opened Accounts
  import opened Blocks
  import opened Execution
  import opened Ledger
  import opened History
  import opened Replay
  import opened Runs

  /** The chain the first `k` blocks build from genesis. */
  ghost function Fold(c: Crypto, bs: seq<Block>, k: nat): Chain
    requires k <= |bs|
  {
    ReplayBlocks(c, GENESIS, bs[..k], WORKS).chain
  }

  ghost predicate ValidChain(c: Crypto, bs: seq<Block>)
  {
    && ReplayBlocks(c, GENESIS, bs, WORKS).fault.None?
    && forall i, j :: 0 <= i < j < |bs| ==> bs[i].time < bs[j].time
  }

  // ----- prefixes of a valid chain

  lemma FoldStep(c: Crypto, bs: seq<Block>, k: nat)
    requires ValidChain(c, bs) && k < |bs|
    ensures Accepts(c, Fold(c, bs, k), bs[k])
    ensures Fold(c, bs, k + 1) == ApplyBlock(c, Fold(c, bs, k), bs[k], true)
  {
    hide ReplayBlocks, ApplyBlock, Accepts;
    assert bs == bs[..k] + bs[k..];
    ReplayPrefix(c, GENESIS, bs[..k], bs[k..]);
    assert bs == bs[..k + 1] + bs[k + 1..];
    ReplayPrefix(c, GENESIS, bs[..k + 1], bs[k + 1..]);
    assert bs[..k + 1] == bs[..k] + [bs[k]];
    ReplayConcat(c, GENESIS, bs[..k], [bs[k]], WORKS);
    ReplayOne(c, Fold(c, bs, k), bs[k]);
  }

  /** The `k`-th fold holds exactly the first `k` blocks, finality flags aside. */
  ghost predicate Holds(bs: seq<Block>, s: Chain, k: int)
  {
    && 0 <= k <= |bs| && s.height == k && s.finalized <= k
    && (forall h :: h in s.blocks <==> 1 <= h <= k)
    && (forall h :: h in s.blocks ==> SameButFlag(bs[h - 1], s.blocks[h]))
  }

  lemma HoldsStep(bs: seq<Block>, s: Chain, k: nat, t: Chain)
    requires Holds(bs, s, k) && k < |bs| && bs[k].height == k + 1 && Appended(s, bs[k], t)
    ensures Holds(bs, t, k + 1)
  {
  }

  lemma {:induction false} FoldHolds(c: Crypto, bs: seq<Block>, k: nat)
    requires ValidChain(c, bs) && k <= |bs|
    ensures Holds(bs, Fold(c, bs, k), k)
  {
    hide Fold, Accepts, ApplyBlock, Appended, Holds, HeaderFault;
    if k == 0 {
      FoldNothing(c, bs);
    } else {
      FoldHolds(c, bs, k - 1);
      FoldStep(c, bs, k - 1);
      var s, t := Fold(c, bs, k - 1), Fold(c, bs, k);
      AcceptedAppends(c, s, bs[k - 1], t);
      HoldsHeight(bs, s, k - 1);
      HoldsStep(bs, s, k - 1, t);
    }
  }

  lemma HoldsHeight(bs: seq<Block>, s: Chain, k: int)
    requires Holds(bs, s, k)
    ensures s.height == k
  {
  }

  lemma FoldNothing(c: Crypto, bs: seq<Block>)
    ensures Holds(bs, Fold(c, bs, 0), 0)
  {
  }

  // ----- a node on the chain

  /** The node has exactly the first `k` blocks and buffers at most the block after the next. */
  ghost predicate At(c: Crypto, bs: seq<Block>, s: Chain, k: nat)
  {
    && k <= |bs|
    && Alike(Fold(c, bs, k), s)
    && forall h :: h in s.pending ==> h == k + 2 && k + 1 < |bs| && s.pending[h] == bs[k + 1]
  }

  /** The clock and the quorum let a delivery of block `i` through. */
  ghost predicate Heard(bs: seq<Block>, i: nat, e: Env)
  {
    i < |bs| && bs[i].time <= e.now + MAX_FUTURE_SKEW && (e.quorum || e.localId in {"", NO_VALIDATOR, bs[i].producer})
  }

  /** So does the disk. */
  ghost predicate Fair(bs: seq<Block>, i: nat, e: Env)
  {
    Heard(bs, i, e) && e.store(bs[i])
  }

  lemma BlockFacts(c: Crypto, bs: seq<Block>, i: nat)
    requires ValidChain(c, bs) && i < |bs|
    ensures var b := bs[i];
      && b.height == i + 1 && b.time != 0 && b.hash != "" && b.hash == BlockHash(c, b) && BlockSignatureOk(c, b)
      && forall j :: 0 <= j < |b.txs| ==> !Malformed(b.txs[j])
  {
    FoldStep(c, bs, i);
    FoldHolds(c, bs, i);
    AcceptedFacts(c, Fold(c, bs, i), bs[i]);
    ExecutedWellFormed(Fold(c, bs, i).accounts, bs[i].txs);
  }

  /** A block at or below the tip never passes the proposal checks; one above it does when clock and
      quorum let it. */
  lemma ProposalOnChain(c: Crypto, bs: seq<Block>, s: Chain, k: nat, i: nat, e: Env)
    requires ValidChain(c, bs) && Holds(bs, s, k) && i < |bs|
    ensures i < k ==> ProposalFault(c, s, bs[i], e).Some?
    ensures i >= k && Heard(bs, i, e) ==> ProposalFault(c, s, bs[i], e).None?
  {
    hide ProposalFault, ValidChain, Malformed, BlockSignatureOk, BlockHash;
    BlockFacts(c, bs, i);
    if i < k {
      StaleOnChain(c, s, bs[i], e);
    } else if Heard(bs, i, e) {
      AboveTip(c, bs, s, k, i);
      FreshOnChain(c, s, bs[i], e);
    }
  }

  lemma StaleOnChain(c: Crypto, s: Chain, b: Block, e: Env)
    requires b.height <= s.height
    ensures ProposalFault(c, s, b, e).Some?
  {
    hide Malformed, BlockSignatureOk, BlockHash;
  }

  lemma AboveTip(c: Crypto, bs: seq<Block>, s: Chain, k: nat, i: nat)
    requires ValidChain(c, bs) && Holds(bs, s, k) && k <= i < |bs|
    ensures s.height in s.blocks ==> s.blocks[s.height].time < bs[i].time
  {
    if k > 0 {
      assert SameButFlag(bs[k - 1], s.blocks[k]);
    }
  }

  lemma FreshOnChain(c: Crypto, s: Chain, b: Block, e: Env)
    requires b.height > s.height >= s.finalized && s.height >= 0 && b.time != 0 && b.time <= e.now + MAX_FUTURE_SKEW
    requires e.quorum || e.localId in {"", NO_VALIDATOR, b.producer}
    requires s.height in s.blocks ==> s.blocks[s.height].time < b.time
    requires b.hash != "" && b.hash == BlockHash(c, b) && BlockSignatureOk(c, b)
    requires forall j :: 0 <= j < |b.txs| ==> !Malformed(b.txs[j])
    ensures ProposalFault(c, s, b, e).None?
  {
    hide Malformed, BlockSignatureOk, BlockHash;
  }

  lemma AtHolds(c: Crypto, bs: seq<Block>, s: Chain, k: nat)
    requires ValidChain(c, bs) && At(c, bs, s, k)
    ensures Holds(bs, s, k)
  {
    FoldHolds(c, bs, k);
  }

  lemma ApplyNext(c: Crypto, bs: seq<Block>, s: Chain, k: nat)
    requires ValidChain(c, bs) && k < |bs| && Alike(Fold(c, bs, k), s)
    ensures Accepts(c, s, bs[k])
    ensures var t := ApplyBlock(c, s, bs[k], true);
      Alike(Fold(c, bs, k + 1), t) && t.pending == s.pending && t.height == s.height + 1
  {
    FoldStep(c, bs, k);
    ApplyAlike(c, Fold(c, bs, k), s, bs[k]);
  }

  lemma ApplyAlike(c: Crypto, f: Chain, s: Chain, b: Block)
    requires Alike(f, s) && Accepts(c, f, b)
    ensures Accepts(c, s, b)
    ensures var t := ApplyBlock(c, s, b, true);
      Alike(ApplyBlock(c, f, b, true), t) && t.pending == s.pending && t.height == s.height + 1
  {
    ApplySimulates(c, f, s, b, true);
    AcceptedFacts(c, s, b);
    AcceptedState(c, s, b, ApplyBlock(c, s, b, true));
  }

  /** After block `k`, the buffered successor, if there is one, goes in as well when it can be
      written, and leaves the buffer anyway. */
  lemma DrainOnChain(c: Crypto, bs: seq<Block>, s: Chain, k: nat, store: Block -> bool) returns (k': nat)
    requires ValidChain(c, bs) && k <= |bs| && Alike(Fold(c, bs, k), s)
    requires forall h :: h in s.pending ==> h == k + 1 && k < |bs| && s.pending[h] == bs[k]
    ensures At(c, bs, Drain(c, s, store), k') && forall h :: h !in Drain(c, s, store).pending
    ensures k' == if k + 1 in s.pending && store(bs[k]) then k + 1 else k
  {
    hide Fold, ValidChain, Holds, Same, ApplyBlock, Accepts;
    FoldHolds(c, bs, k);
    HoldsHeight(bs, Fold(c, bs, k), k);
    k' := k;
    if s.height + 1 in s.pending {
      var b := bs[k];
      var popped := s.(pending := s.pending - {k + 1});
      assert forall h :: h !in popped.pending;
      NextIsTimely(c, bs, s, k);
      if store(b) {
        ApplyNext(c, bs, popped, k);
        var t := ApplyBlock(c, popped, b, true);
        assert Drain(c, t, store) == t;
        k' := k + 1;
      } else {
        Unstored(c, popped, b);
        assert Drain(c, popped, store) == popped;
      }
    }
  }

  lemma Unstored(c: Crypto, s: Chain, b: Block)
    ensures ApplyBlock(c, s, b, false) == s && ApplyFault(c, s, b, false).Some?
  {
  }

  lemma NextIsTimely(c: Crypto, bs: seq<Block>, s: Chain, k: nat)
    requires ValidChain(c, bs) && k < |bs| && Alike(Fold(c, bs, k), s)
    ensures s.tip == bs[k].prevHash && Timely(s, bs[k])
  {
    FoldHolds(c, bs, k);
    FoldStep(c, bs, k);
    AcceptedFacts(c, Fold(c, bs, k), bs[k]);
    if k > 0 {
      assert SameButFlag(bs[k - 1], s.blocks[k]);
    }
  }

  /** Whatever block of the chain arrives, whatever the clock, the quorum and the disk say, the node
      stays on the chain. When they let it, the next block moves it forward, and the one behind it
      with it if that was buffered; the block after the next waits in the buffer. */
  lemma DeliverOnChain(c: Crypto, bs: seq<Block>, s: Chain, k: nat, i: nat, e: Env) returns (k': nat)
    requires ValidChain(c, bs) && At(c, bs, s, k) && i < |bs|
    ensures k' >= k && At(c, bs, Deliver(c, s, bs[i], e), k')
    ensures i == k && Fair(bs, i, e) ==> k' > k && DeliverVerdict(c, s, bs[i], e) == Applied
    ensures i == k && Fair(bs, i, e) && k + 2 in s.pending && e.store(bs[k + 1]) ==> k' == k + 2
    ensures i == k + 1 && Heard(bs, i, e) ==> k' == k && k + 2 in Deliver(c, s, bs[i], e).pending
  {
    hide ValidChain, Deliver, DeliverVerdict, ProposalFault, Alike, Heard, Malformed, BlockHash, BlockSignatureOk;
    AtHolds(c, bs, s, k);
    HoldsHeight(bs, s, k);
    BlockFacts(c, bs, i);
    ProposalOnChain(c, bs, s, k, i, e);
    k' := k;
    if i != k {
      OthersStay(c, s, bs[i], e);
      if i == k + 1 {
        Buffering(c, bs, s, k);
      }
    } else if ProposalFault(c, s, bs[k], e).None? {
      k' := NextMovesOn(c, bs, s, k, e);
    } else {
      FaultStays(c, s, bs[k], e);
    }
  }

  lemma Buffering(c: Crypto, bs: seq<Block>, s: Chain, k: nat)
    requires At(c, bs, s, k) && k + 1 < |bs|
    ensures At(c, bs, s.(pending := s.pending[k + 2 := bs[k + 1]]), k)
  {
    hide Fold, Same;
  }

  lemma FaultStays(c: Crypto, s: Chain, b: Block, e: Env)
    requires ProposalFault(c, s, b, e).Some?
    ensures Deliver(c, s, b, e) == s
  {
    hide ProposalFault;
  }

  /** A block that is not next changes nothing, unless it passes the checks, is the one after the
      next and the buffer has room for it; then it is buffered. */
  lemma OthersStay(c: Crypto, s: Chain, b: Block, e: Env)
    requires b.height != s.height + 1
    ensures Deliver(c, s, b, e) ==
      if ProposalFault(c, s, b, e).None? && b.height == s.height + 2 && b.height !in s.pending
      then s.(pending := s.pending[b.height := b]) else s
  {
    if b.height <= s.height {
      StaleOnChain(c, s, b, e);
    }
  }

  lemma NextMovesOn(c: Crypto, bs: seq<Block>, s: Chain, k: nat, e: Env) returns (k': nat)
    requires ValidChain(c, bs) && k < |bs| && At(c, bs, s, k)
    requires ProposalFault(c, s, bs[k], e).None? && bs[k].height == s.height + 1
    ensures k' >= k && At(c, bs, Deliver(c, s, bs[k], e), k')
    ensures e.store(bs[k]) ==> k' > k && DeliverVerdict(c, s, bs[k], e) == Applied
    ensures e.store(bs[k]) && k + 2 in s.pending && e.store(bs[k + 1]) ==> k' == k + 2
  {
    hide ProposalFault, ApplyBlock, ApplyFault, Drain;
    if e.store(bs[k]) {
      ApplyNext(c, bs, s, k);
      k' := DrainOnChain(c, bs, ApplyBlock(c, s, bs[k], true), k + 1, e.store);
    } else {
      Unstored(c, s, bs[k]);
      k' := k;
    }
  }

  // ----- whole runs

  /** A transaction, a restart, or any delivery of a block of the chain. */
  ghost predicate OnChain(bs: seq<Block>, e: Event)
  {
    e.Submission? || e.Reboot? || (e.Delivery? && e.block in bs)
  }

  lemma SubmitOnChain(c: Crypto, bs: seq<Block>, s: Chain, k: nat, tx: Tx)
    requires At(c, bs, s, k)
    ensures At(c, bs, Submit(c, s, tx), k)
  {
  }

  lemma RestartOnChain(c: Crypto, bs: seq<Block>, s: Chain, k: nat, t: Chain)
    requires At(c, bs, s, k) && Alike(t, s) && Idle(t)
    ensures At(c, bs, t, k)
  {
    hide Fold, Same;
    SameIsEquivalence(t.accounts, s.accounts, s.accounts);
    SameIsEquivalence(Fold(c, bs, k).accounts, s.accounts, t.accounts);
  }

  lemma StepOnChain(c: Crypto, bs: seq<Block>, s: Chain, k: nat, e: Event) returns (k': nat)
    requires ValidChain(c, bs) && Good(c, s) && At(c, bs, s, k) && OnChain(bs, e)
    ensures k' >= k && At(c, bs, Step(c, s, e), k')
  {
    hide ValidChain, At, Inv, Deliver, Submit, Restart;
    k' := k;
    match e
    case Delivery(b, env) =>
      var i :| 0 <= i < |bs| && b == bs[i];
      k' := DeliverOnChain(c, bs, s, k, i, env);
    case Submission(tx) => SubmitOnChain(c, bs, s, k, tx);
    case Reboot =>
      RestartKeepsGood(c, s);
      RestartOnChain(c, bs, s, k, Restart(c, s));
  }

  /** Safety: every run over blocks of one valid chain, in any order and with any repetition, under
      any clock, quorum answer and disk, mixed with any transactions and restarts, leaves the node at
      some prefix of the chain. */
  lemma {:induction false} AnyOrderIsSafe(c: Crypto, bs: seq<Block>, s: Chain, k: nat, es: seq<Event>)
      returns (k': nat)
    requires ValidChain(c, bs) && Good(c, s) && At(c, bs, s, k)
    requires forall i :: 0 <= i < |es| ==> OnChain(bs, es[i])
    ensures k' >= k && At(c, bs, Run(c, s, es), k')
    decreases |es|
  {
    hide ValidChain, At, Good, Step, OnChain;
    k' := k;
    if es != [] {
      k' := StepOnChain(c, bs, s, k, es[0]);
      StepKeepsGood(c, s, es[0]);
      k' := AnyOrderIsSafe(c, bs, Step(c, s, es[0]), k', es[1..]);
    }
  }

  /** The in-order pass over blocks `from..|bs|`, under the environments `envs`. */
  function Pass(bs: seq<Block>, envs: seq<Env>, from: nat): seq<Event>
    requires |envs| == |bs| && from <= |bs|
    decreases |bs| - from
  {
    if from == |bs| then [] else [Delivery(bs[from], envs[from])] + Pass(bs, envs, from + 1)
  }

  /** Progress: from any state on the chain, one in-order pass reaches its end with an empty
      buffer. */
  lemma {:induction false} InOrderPassCompletes(c: Crypto, bs: seq<Block>, envs: seq<Env>, s: Chain, k: nat, from: nat)
    requires ValidChain(c, bs) && At(c, bs, s, k) && |envs| == |bs| && from <= k
    requires forall i :: 0 <= i < |bs| ==> Fair(bs, i, envs[i])
    ensures At(c, bs, Run(c, s, Pass(bs, envs, from)), |bs|)
    ensures forall h :: h !in Run(c, s, Pass(bs, envs, from)).pending
    decreases |bs| - from
  {
    hide Fold, ValidChain, Deliver, DeliverVerdict, Alike, Fair;
    if from < |bs| {
      var k' := DeliverOnChain(c, bs, s, k, from, envs[from]);
      assert Pass(bs, envs, from)[1..] == Pass(bs, envs, from + 1);
      InOrderPassCompletes(c, bs, envs, Deliver(c, s, bs[from], envs[from]), k', from + 1);
    }
  }

  // ----- neighbours swapped

  /** An order of arrival in which every block comes in its place or one off, and none twice: the
      chain with disjoint pairs of neighbours swapped. */
  ghost predicate NearOrder(order: seq<nat>, n: nat)
  {
    && |order| == n
    && (forall p :: 0 <= p < n ==> order[p] < n && p - 1 <= order[p] <= p + 1)
    && (forall p, q :: 0 <= p < q < n ==> order[p] != order[q])
  }

  /** From position `p` on only blocks `p` and later arrive. */
  ghost predicate Settled(order: seq<nat>, p: nat)
  {
    p <= |order| && forall q :: p <= q < |order| ==> order[q] >= p
  }

  lemma {:induction false} SwapFollows(order: seq<nat>, p: nat)
    requires NearOrder(order, |order|) && Settled(order, p) && p < |order| && order[p] == p + 1
    ensures p + 1 < |order| && order[p + 1] == p
    decreases |order| - p
  {
    if order[p + 1] != p {
      assert Settled(order, p + 1);
      SwapFollows(order, p + 1);
    }
  }

  ghost function Arrivals(bs: seq<Block>, order: seq<nat>, envs: seq<Env>, p: nat): seq<Event>
    requires |order| == |envs| && p <= |order| && forall q :: 0 <= q < |order| ==> order[q] < |bs|
    decreases |order| - p
  {
    if p == |order| then [] else [Delivery(bs[order[p]], envs[p])] + Arrivals(bs, order, envs, p + 1)
  }

  lemma RunArrival(c: Crypto, s: Chain, bs: seq<Block>, order: seq<nat>, envs: seq<Env>, p: nat)
    requires |order| == |envs| && p < |order| && forall q :: 0 <= q < |order| ==> order[q] < |bs|
    ensures Run(c, s, Arrivals(bs, order, envs, p)) ==
      Run(c, Deliver(c, s, bs[order[p]], envs[p]), Arrivals(bs, order, envs, p + 1))
  {
    hide Deliver;
    assert Arrivals(bs, order, envs, p)[1..] == Arrivals(bs, order, envs, p + 1);
  }

  /** Two blocks that arrive swapped take the node past both: the first waits in the buffer for the
      second. */
  lemma SwappedPair(c: Crypto, bs: seq<Block>, s: Chain, k: nat, p: nat, e: Env, f: Env) returns (k': nat)
    requires ValidChain(c, bs) && At(c, bs, s, k) && p <= k && p + 1 < |bs|
    requires Heard(bs, p + 1, e) && Heard(bs, p, f) && Stores(e.store, bs) && Stores(f.store, bs)
    ensures k' >= p + 2 && At(c, bs, Deliver(c, Deliver(c, s, bs[p + 1], e), bs[p], f), k')
  {
    hide ValidChain, Deliver, DeliverVerdict, At, Heard;
    var k1 := DeliverOnChain(c, bs, s, k, p + 1, e);
    k' := DeliverOnChain(c, bs, Deliver(c, s, bs[p + 1], e), k1, p, f);
  }

  /** A valid chain whose blocks arrive with disjoint pairs of neighbours swapped takes a node to its
      end, under fair clock, quorum and disk. */
  lemma {:induction false} NearOrderCompletes(c: Crypto, bs: seq<Block>, order: seq<nat>, envs: seq<Env>,
                                              s: Chain, k: nat, p: nat)
    requires ValidChain(c, bs) && At(c, bs, s, k) && NearOrder(order, |bs|) && |envs| == |bs|
    requires Settled(order, p) && p <= k
    requires forall q :: 0 <= q < |bs| ==> Heard(bs, order[q], envs[q]) && Stores(envs[q].store, bs)
    ensures var t := Run(c, s, Arrivals(bs, order, envs, p)); At(c, bs, t, |bs|) && forall h :: h !in t.pending
    decreases |bs| - p
  {
    hide Fold, ValidChain, Deliver, DeliverVerdict, Alike, Heard, Run, Arrivals;
    if p == |bs| {
      NothingArrives(c, s, bs, order, envs);
    } else {
      var s1 := Deliver(c, s, bs[order[p]], envs[p]);
      RunArrival(c, s, bs, order, envs, p);
      if order[p] == p {
        var k' := DeliverOnChain(c, bs, s, k, p, envs[p]);
        NearOrderCompletes(c, bs, order, envs, s1, k', p + 1);
      } else {
        SwapFollows(order, p);
        RunArrival(c, s1, bs, order, envs, p + 1);
        var k' := SwappedPair(c, bs, s, k, p, envs[p], envs[p + 1]);
        NearOrderCompletes(c, bs, order, envs, Deliver(c, s1, bs[p], envs[p + 1]), k', p + 2);
      }
    }
  }

  lemma NothingArrives(c: Crypto, s: Chain, bs: seq<Block>, order: seq<nat>, envs: seq<Env>)
    requires |order| == |envs| && forall q :: 0 <= q < |order| ==> order[q] < |bs|
    ensures Run(c, s, Arrivals(bs, order, envs, |order|)) == s
  {
  }

  lemma GenesisOnChain(c: Crypto, bs: seq<Block>)
    ensures At(c, bs, GENESIS, 0)
  {
  }
}
