/** Restarting a node: replaying the block directory, alone or on top of a snapshot. */
module Replay {
  import opened Wrappers
  import opened Text
  import opened Heights
  import opened Accounts
  import opened Merkle
  import opened Blocks
  import opened Execution
  import opened Ledger

  // ----- equality modulo zero accounts is a simulation

  ghost predicate SameLedger(s: Chain, t: Chain)
  {
    s.height == t.height && s.tip == t.tip && Same(s.accounts, t.accounts)
  }

  /** Equal but for zero accounts, pool, buffer and disk. */
  ghost predicate Alike(s: Chain, t: Chain)
  {
    SameLedger(s, t) && s.blocks == t.blocks && s.finalized == t.finalized
  }

  lemma HeaderFaultSimulates(c: Crypto, s: Chain, t: Chain, b: Block)
    requires SameLedger(s, t)
    ensures HeaderFault(c, s, b) == HeaderFault(c, t, b)
  {
    hide Predict, Root, ScanTxs, FeeSum, BlockHash, BlockSignatureOk, Same;
    PredictReflectsSame(s.accounts, t.accounts, b);
    RootExact(Predict(s.accounts, b), Predict(t.accounts, b));
    assert Root(Predict(s.accounts, b)) == Root(Predict(t.accounts, b));
  }

  lemma ApplyFaultSimulates(c: Crypto, s: Chain, t: Chain, b: Block, stored: bool)
    requires SameLedger(s, t)
    ensures ApplyFault(c, s, b, stored) == ApplyFault(c, t, b, stored)
  {
    HeaderFaultSimulates(c, s, t, b);
    ExecuteSame(s.accounts, t.accounts, b.txs);
  }

  lemma AcceptanceSimulates(c: Crypto, s: Chain, t: Chain, b: Block)
    requires SameLedger(s, t) && Accepts(c, s, b) && Accepts(c, t, b)
    ensures var s', t' := ApplyBlock(c, s, b, true), ApplyBlock(c, t, b, true);
      SameLedger(s', t') && (Alike(s, t) ==> Alike(s', t'))
  {
    AcceptedFacts(c, s, b);
    AcceptedFacts(c, t, b);
    var x, y := Execute(s.accounts, b.txs).accounts, Execute(t.accounts, b.txs).accounts;
    ExecuteSame(s.accounts, t.accounts, b.txs);
    SettleSame(x, y, b);
    AcceptedState(c, s, b, ApplyBlock(c, s, b, true));
    AcceptedState(c, t, b, ApplyBlock(c, t, b, true));
  }

  /** Ledgers equal modulo zero accounts take the same decision on every block and stay equal. */
  lemma ApplySimulates(c: Crypto, s: Chain, t: Chain, b: Block, stored: bool)
    requires SameLedger(s, t)
    ensures ApplyFault(c, s, b, stored) == ApplyFault(c, t, b, stored)
    ensures var s', t' := ApplyBlock(c, s, b, stored), ApplyBlock(c, t, b, stored);
      SameLedger(s', t') && (Alike(s, t) ==> Alike(s', t'))
  {
    ApplyFaultSimulates(c, s, t, b, stored);
    if ApplyFault(c, s, b, stored).Some? {
      RefusedFacts(c, s, b, stored);
      RefusedFacts(c, t, b, stored);
      var x, y := ApplyBlock(c, s, b, stored).accounts, ApplyBlock(c, t, b, stored).accounts;
      SameIsEquivalence(s.accounts, x, s.accounts);
      SameIsEquivalence(x, s.accounts, t.accounts);
      SameIsEquivalence(x, t.accounts, y);
    } else {
      AcceptanceSimulates(c, s, t, b);
    }
  }

  // ----- the replay loop

  datatype Loaded = Loaded(chain: Chain, fault: Option<Refusal>)

  /** A file that cannot be replayed is moved out of the directory. */
  function Quarantine(s: Chain, b: Block): Chain
  {
    s.(disk := s.disk - {b.height})
  }

  /** Applies blocks in order, writing each again, and halts at the first that is refused. */
  ghost function ReplayBlocks(c: Crypto, s: Chain, bs: seq<Block>, store: Block -> bool): Loaded
    decreases |bs|
  {
    if bs == [] then Loaded(s, None)
    else
      var fault := ApplyFault(c, s, bs[0], store(bs[0]));
      var next := ApplyBlock(c, s, bs[0], store(bs[0]));
      if fault.Some? then Loaded(Quarantine(next, bs[0]), fault) else ReplayBlocks(c, next, bs[1..], store)
  }

  lemma {:induction false} ReplaySimulates(c: Crypto, s: Chain, t: Chain, bs: seq<Block>, store: Block -> bool)
    requires SameLedger(s, t)
    ensures var x, y := ReplayBlocks(c, s, bs, store), ReplayBlocks(c, t, bs, store);
      && x.fault == y.fault && SameLedger(x.chain, y.chain) && (Alike(s, t) ==> Alike(x.chain, y.chain))
    decreases |bs|
  {
    if bs != [] {
      ApplySimulates(c, s, t, bs[0], store(bs[0]));
      if ApplyFault(c, s, bs[0], store(bs[0])).None? {
        ReplaySimulates(c, ApplyBlock(c, s, bs[0], store(bs[0])), ApplyBlock(c, t, bs[0], store(bs[0])),
                        bs[1..], store);
      }
    }
  }

  lemma {:induction false} ReplayConcat(c: Crypto, s: Chain, xs: seq<Block>, ys: seq<Block>, store: Block -> bool)
    requires ReplayBlocks(c, s, xs, store).fault.None?
    ensures ReplayBlocks(c, s, xs + ys, store) ==
      ReplayBlocks(c, ReplayBlocks(c, s, xs, store).chain, ys, store)
    decreases |xs|
  {
    if xs == [] {
      assert xs + ys == ys;
    } else {
      assert (xs + ys)[0] == xs[0] && (xs + ys)[1..] == xs[1..] + ys;
      ReplayConcat(c, ApplyBlock(c, s, xs[0], store(xs[0])), xs[1..], ys, store);
    }
  }

  lemma {:induction false} ReplayPrefix(c: Crypto, s: Chain, xs: seq<Block>, ys: seq<Block>)
    requires ReplayBlocks(c, s, xs + ys, WORKS).fault.None?
    ensures ReplayBlocks(c, s, xs, WORKS).fault.None?
    decreases |xs|
  {
    hide ApplyBlock, ApplyFault;
    if xs != [] {
      assert (xs + ys)[0] == xs[0] && (xs + ys)[1..] == xs[1..] + ys;
      ReplayPrefix(c, ApplyBlock(c, s, xs[0], true), xs[1..], ys);
    }
  }

  lemma {:induction false} ReplayHalted(c: Crypto, s: Chain, xs: seq<Block>, ys: seq<Block>, store: Block -> bool)
    requires ReplayBlocks(c, s, xs, store).fault.Some?
    ensures ReplayBlocks(c, s, xs + ys, store) == ReplayBlocks(c, s, xs, store)
    decreases |xs|
  {
    hide ApplyBlock, ApplyFault;
    assert (xs + ys)[0] == xs[0] && (xs + ys)[1..] == xs[1..] + ys;
    if ApplyFault(c, s, xs[0], store(xs[0])).None? {
      ReplayHalted(c, ApplyBlock(c, s, xs[0], store(xs[0])), xs[1..], ys, store);
    }
  }

  lemma ReplayOne(c: Crypto, s: Chain, b: Block)
    ensures var r := ReplayBlocks(c, s, [b], WORKS);
      (r.fault.None? <==> Accepts(c, s, b)) && (Accepts(c, s, b) ==> r.chain == ApplyBlock(c, s, b, true))
  {
  }

  /** Every block can be written again. */
  predicate Stores(store: Block -> bool, bs: seq<Block>)
  {
    forall i :: 0 <= i < |bs| ==> store(bs[i])
  }

  lemma {:induction false} ReplayStored(c: Crypto, s: Chain, bs: seq<Block>, store: Block -> bool)
    requires Stores(store, bs)
    ensures ReplayBlocks(c, s, bs, store) == ReplayBlocks(c, s, bs, WORKS)
    decreases |bs|
  {
    hide ApplyBlock, ApplyFault;
    if bs != [] {
      ReplayStored(c, ApplyBlock(c, s, bs[0], true), bs[1..], store);
    }
  }

  /** A write that fails halts the replay of blocks that would all be accepted, short of the tip. */
  lemma {:induction false} ReplayUnstored(c: Crypto, s: Chain, bs: seq<Block>, store: Block -> bool)
    requires ReplayBlocks(c, s, bs, WORKS).fault.None? && !Stores(store, bs)
    ensures var r := ReplayBlocks(c, s, bs, store); r.fault.Some? && r.chain.height < s.height + |bs|
    decreases |bs|
  {
    hide HeaderFault, Execute;
    if store(bs[0]) {
      AcceptedAppends(c, s, bs[0], ApplyBlock(c, s, bs[0], true));
      ReplayUnstored(c, ApplyBlock(c, s, bs[0], true), bs[1..], store);
    }
  }

  /** Storage that never fails. */
  const WORKS: Block -> bool := b => true

  // ----- files in ascending height

  /** The block files above a height, in ascending order. Only digits may name a block file, so
      negative heights do not occur. */
  ghost function Files(disk: map<int, Block>, above: int): seq<Block>
  {
    FilesAt(disk, AscendingHeights(Above(disk, above)))
  }

  function Above(disk: map<int, Block>, above: int): set<int>
  {
    set h | h in disk && h > above && h >= 0
  }

  predicate AllIn(hs: seq<int>, disk: map<int, Block>)
  {
    forall i :: 0 <= i < |hs| ==> hs[i] in disk
  }

  function FilesAt(disk: map<int, Block>, hs: seq<int>): (bs: seq<Block>)
    requires AllIn(hs, disk)
    ensures |bs| == |hs| && forall i :: 0 <= i < |bs| ==> bs[i] == disk[hs[i]]
  {
    seq(|hs|, i requires 0 <= i < |hs| => disk[hs[i]])
  }

  lemma FilesOfRange(disk: map<int, Block>, above: nat, top: int)
    requires above <= top
    requires forall h :: h in disk && h > above <==> above < h <= top
    ensures AllIn(Range(above + 1, top + 1), disk)
    ensures Files(disk, above) == FilesAt(disk, Range(above + 1, top + 1))
  {
    var hs := Above(disk, above);
    assert AscendingHeights(hs) == Range(above + 1, top + 1) by {
      assert forall x :: x in hs <==> above + 1 <= x < top + 1;
      SortedRange(above + 1, top + 1, hs);
    }
    assert AllIn(AscendingHeights(hs), disk);
  }

  lemma SortedRange(lo: int, hi: int, s: set<int>)
    requires lo <= hi && forall x :: x in s <==> lo <= x < hi
    ensures AscendingHeights(s) == Range(lo, hi)
  {
    hide AscendingHeights, Enumerates;
    RangeEnumerates(lo, hi, s);
    EnumerationUnique(Range(lo, hi), AscendingHeights(s), s);
  }

  lemma RangeEnumerates(lo: int, hi: int, s: set<int>)
    requires lo <= hi && forall x :: x in s <==> lo <= x < hi
    ensures Enumerates(Range(lo, hi), s)
  {
    var l := Range(lo, hi);
    forall x | x in s ensures exists i :: 0 <= i < |l| && l[i] == x {
      assert l[x - lo] == x;
    }
  }

  ghost function LoadFromDisk(c: Crypto, s: Chain, store: Block -> bool): Loaded
  {
    ReplayBlocks(c, s, Files(s.disk, -1), store)
  }

  // ----- what the directory holds

  /** The committed blocks as they were written. */
  ghost function Committed(s: Chain): (l: seq<Block>)
    requires s.height >= 0 && forall h :: 1 <= h <= s.height ==> h in s.disk
    ensures |l| == s.height
  {
    seq(s.height, i requires 0 <= i < s.height => s.disk[i + 1])
  }

  /** The directory holds the committed blocks, their replay rebuilds the chain, and the only other
      file there can be is a block of the next height that is refused for good. */
  ghost predicate DiskOk(c: Crypto, s: Chain)
  {
    && s.height >= 0
    && (forall h :: h in s.disk ==> 1 <= h <= s.height + 1 && s.disk[h].height == h)
    && (forall h :: 1 <= h <= s.height ==> h in s.disk)
    && ReplayBlocks(c, GENESIS, Committed(s), WORKS).fault.None?
    && Alike(ReplayBlocks(c, GENESIS, Committed(s), WORKS).chain, s)
    && (s.height + 1 in s.disk ==> !Accepts(c, s, s.disk[s.height + 1]))
  }

  ghost predicate DiskGrows(s: Chain, t: Chain)
  {
    s.height <= t.height && forall h :: 1 <= h <= s.height && h in s.disk ==> h in t.disk && t.disk[h] == s.disk[h]
  }

  lemma StillRefused(c: Crypto, s: Chain, t: Chain, b: Block)
    requires SameLedger(s, t)
    ensures Accepts(c, s, b) <==> Accepts(c, t, b)
  {
    hide HeaderFault;
    ApplyFaultSimulates(c, s, t, b, true);
  }

  lemma RefusalKeepsDisk(c: Crypto, s: Chain, b: Block, stored: bool)
    requires DiskOk(c, s) && ApplyFault(c, s, b, stored).Some?
    ensures DiskOk(c, ApplyBlock(c, s, b, stored)) && DiskGrows(s, ApplyBlock(c, s, b, stored))
  {
    hide ApplyBlock, ApplyFault, HeaderFault, Accepts, ReplayBlocks;
    var t := ApplyBlock(c, s, b, stored);
    RefusedFacts(c, s, b, stored);
    assert Committed(t) == Committed(s);
    if s.height + 1 in t.disk {
      StillRefused(c, s, t, t.disk[s.height + 1]);
    }
    var r := ReplayBlocks(c, GENESIS, Committed(s), WORKS).chain;
    assert Same(r.accounts, s.accounts);
    forall k ensures Get(r.accounts, k) == Get(t.accounts, k) {
      assert Get(r.accounts, k) == Get(s.accounts, k);
      assert Get(s.accounts, k) == Get(t.accounts, k);
    }
  }

  lemma AcceptanceExtendsReplay(c: Crypto, s: Chain, bs: seq<Block>, b: Block)
    requires var r := ReplayBlocks(c, GENESIS, bs, WORKS); r.fault.None? && Alike(r.chain, s)
    requires Accepts(c, s, b)
    ensures var r := ReplayBlocks(c, GENESIS, bs + [b], WORKS);
      r.fault.None? && Alike(r.chain, ApplyBlock(c, s, b, true))
  {
    var r := ReplayBlocks(c, GENESIS, bs, WORKS).chain;
    ReplayConcat(c, GENESIS, bs, [b], WORKS);
    ApplySimulates(c, r, s, b, true);
    ReplayOne(c, r, b);
  }

  lemma AcceptanceKeepsDisk(c: Crypto, s: Chain, b: Block, t: Chain)
    requires DiskOk(c, s) && Accepts(c, s, b) && t == ApplyBlock(c, s, b, true)
    ensures DiskOk(c, t) && DiskGrows(s, t)
  {
    AcceptanceExtendsReplay(c, s, Committed(s), b);
    AcceptedFacts(c, s, b);
    AcceptedState(c, s, b, t);
    GrownDisk(s, b, t);
  }

  lemma GrownDisk(s: Chain, b: Block, t: Chain)
    requires s.height >= 0 && b.height == s.height + 1 == t.height && t.disk == s.disk[b.height := b]
    requires forall h :: h in s.disk ==> 1 <= h <= s.height + 1 && s.disk[h].height == h
    requires forall h :: 1 <= h <= s.height ==> h in s.disk
    ensures forall h :: h in t.disk ==> 1 <= h <= t.height && t.disk[h].height == h
    ensures forall h :: 1 <= h <= t.height ==> h in t.disk
    ensures Committed(t) == Committed(s) + [b] && DiskGrows(s, t)
  {
  }

  /** The pool and the buffer play no part. */
  lemma DiskIgnoresPool(c: Crypto, s: Chain, t: Chain)
    requires DiskOk(c, s)
    requires t == s.(mempool := t.mempool, ids := t.ids, keys := t.keys, pending := t.pending)
    ensures DiskOk(c, t) && DiskGrows(s, t)
  {
    hide HeaderFault, ApplyFault, ReplayBlocks;
    assert Committed(t) == Committed(s);
    if s.height + 1 in t.disk {
      ApplyFaultSimulates(c, s, t, t.disk[s.height + 1], true);
    }
  }

  // ----- restart

  /** Replaying `high` and then possibly one refused block, on a ledger equal to the one the replay
      of `low` left. */
  lemma ReplayTail(c: Crypto, start: Chain, low: seq<Block>, high: seq<Block>, bad: seq<Block>, s: Chain,
                   store: Block -> bool)
    requires var r := ReplayBlocks(c, GENESIS, low, WORKS); r.fault.None? && SameLedger(r.chain, start)
    requires var r := ReplayBlocks(c, GENESIS, low + high, WORKS); r.fault.None? && SameLedger(r.chain, s)
    requires start.height + |high| == s.height
    requires bad == [] || (|bad| == 1 && !Accepts(c, s, bad[0]))
    ensures var r := ReplayBlocks(c, start, high + bad, store);
      && (SameLedger(r.chain, s) <==> Stores(store, high))
      && (r.fault.None? <==> Stores(store, high) && bad == [])
    ensures Stores(store, high) && Alike(ReplayBlocks(c, GENESIS, low, WORKS).chain, start) ==>
      Alike(ReplayBlocks(c, GENESIS, low + high, WORKS).chain, s) ==>
      Alike(ReplayBlocks(c, start, high + bad, store).chain, s)
  {
    hide ReplayBlocks, Accepts, Same;
    var mid := ReplayBlocks(c, GENESIS, low, WORKS).chain;
    var full := ReplayBlocks(c, GENESIS, low + high, WORKS).chain;
    ReplayConcat(c, GENESIS, low, high, WORKS);
    ReplaySimulates(c, mid, start, high, WORKS);
    if Stores(store, high) {
      var x := ReplayBlocks(c, start, high, WORKS).chain;
      ReplayStored(c, start, high, store);
      SameLedgerEuclidean(full, x, s);
      ReplayConcat(c, start, high, bad, store);
      NothingLeft(c, x, store);
      if bad != [] {
        assert bad == [bad[0]];
        LastRefused(c, x, s, bad[0], store);
      }
    } else {
      ReplayUnstored(c, start, high, store);
      ReplayHalted(c, start, high, bad, store);
    }
  }

  lemma NothingLeft(c: Crypto, s: Chain, store: Block -> bool)
    ensures ReplayBlocks(c, s, [], store) == Loaded(s, None)
  {
  }

  lemma LastRefused(c: Crypto, mid: Chain, s: Chain, b: Block, store: Block -> bool)
    requires SameLedger(mid, s) && !Accepts(c, s, b)
    ensures var r := ReplayBlocks(c, mid, [b], store);
      && r.fault.Some? && SameLedger(r.chain, s) && (Alike(mid, s) ==> Alike(r.chain, s))
      && r.chain.disk == mid.disk - {b.height}
  {
    hide HeaderFault, Execute, Same;
    StillRefused(c, mid, s, b);
    var t := ApplyBlock(c, mid, b, store(b));
    assert ApplyFault(c, mid, b, store(b)).Some?;
    RefusedFacts(c, mid, b, store(b));
    SameIsEquivalence(mid.accounts, t.accounts, mid.accounts);
    SameIsEquivalence(t.accounts, mid.accounts, s.accounts);
    assert mid.disk[b.height := b] - {b.height} == mid.disk - {b.height};
  }

  lemma SameLedgerEuclidean(s: Chain, t: Chain, u: Chain)
    requires SameLedger(s, t) && SameLedger(s, u)
    ensures SameLedger(t, u)
  {
  }

  ghost function Leftover(s: Chain): seq<Block>
  {
    if s.height + 1 in s.disk then [s.disk[s.height + 1]] else []
  }

  lemma FilesAbove(c: Crypto, s: Chain, k: nat)
    requires DiskOk(c, s) && k <= s.height
    ensures Files(s.disk, k) == Committed(s)[k..] + Leftover(s)
  {
    FilesAboveRange(s, k);
  }

  lemma FilesAboveRange(s: Chain, k: nat)
    requires k <= s.height
    requires forall h :: h in s.disk ==> 1 <= h <= s.height + 1
    requires forall h :: 1 <= h <= s.height ==> h in s.disk
    ensures Files(s.disk, k) == Committed(s)[k..] + Leftover(s)
  {
    var top := s.height + |Leftover(s)|;
    assert forall h :: h in s.disk && h > k <==> k < h <= top;
    FilesOfRange(s.disk, k, top);
    var fs, want := Files(s.disk, k), Committed(s)[k..] + Leftover(s);
    forall i | 0 <= i < |fs| ensures fs[i] == want[i] {
      assert fs[i] == s.disk[k + 1 + i];
    }
  }

  lemma AllFiles(c: Crypto, s: Chain)
    requires DiskOk(c, s)
    ensures Files(s.disk, -1) == Committed(s) + Leftover(s)
  {
    FilesAbove(c, s, 0);
    assert Above(s.disk, -1) == Above(s.disk, 0);
    assert Committed(s)[0..] == Committed(s);
  }

  /** Replaying the directory in a fresh node rebuilds height, tip, blocks, finality and accounts,
      whatever was refused before, exactly when every committed block can be written again. It ends
      without error exactly when, besides, no refused block is left in the directory. */
  lemma RestartRestores(c: Crypto, s: Chain, store: Block -> bool)
    requires DiskOk(c, s)
    ensures var r := LoadFromDisk(c, GENESIS.(disk := s.disk), store);
      && (Alike(r.chain, s) <==> Stores(store, Committed(s)))
      && (r.fault.None? <==> Stores(store, Committed(s)) && s.height + 1 !in s.disk)
  {
    hide ReplayBlocks, Accepts, Same, Files;
    var start := GENESIS.(disk := s.disk);
    var good, bad := Committed(s), Leftover(s);
    AllFiles(c, s);
    NothingLeft(c, GENESIS, WORKS);
    assert [] + good == good;
    SameIsEquivalence(GENESIS.accounts, GENESIS.accounts, GENESIS.accounts);
    ReplayTail(c, start, [], good, bad, s, store);
  }

  // ----- starting again

  /** A node with no pending transactions and an empty buffer. */
  predicate Idle(s: Chain)
  {
    s.mempool == [] && s.ids == {} && s.keys == map[] && s.pending == map[]
  }

  lemma ApplyKeepsIdle(c: Crypto, s: Chain, b: Block, stored: bool)
    requires Idle(s)
    ensures Idle(ApplyBlock(c, s, b, stored))
  {
    hide ApplyBlock, HeaderFault, Execute, Appended;
    if ApplyFault(c, s, b, stored).Some? {
      RefusedFacts(c, s, b, stored);
    } else {
      AcceptedState(c, s, b, ApplyBlock(c, s, b, true));
    }
  }

  lemma {:induction false} ReplayKeepsIdle(c: Crypto, s: Chain, bs: seq<Block>, store: Block -> bool)
    requires Idle(s)
    ensures Idle(ReplayBlocks(c, s, bs, store).chain)
    decreases |bs|
  {
    hide ApplyBlock, ApplyFault;
    if bs != [] {
      ApplyKeepsIdle(c, s, bs[0], store(bs[0]));
      if ApplyFault(c, s, bs[0], store(bs[0])).None? {
        ReplayKeepsIdle(c, ApplyBlock(c, s, bs[0], store(bs[0])), bs[1..], store);
      }
    }
  }

  predicate OnDisk(s: Chain, b: Block)
  {
    b.height in s.disk && s.disk[b.height] == b
  }

  /** Writing a block again changes nothing. */
  lemma {:induction false} ReplayKeepsDisk(c: Crypto, s: Chain, bs: seq<Block>, store: Block -> bool)
    requires ReplayBlocks(c, s, bs, store).fault.None? && forall i :: 0 <= i < |bs| ==> OnDisk(s, bs[i])
    ensures ReplayBlocks(c, s, bs, store).chain.disk == s.disk
    decreases |bs|
  {
    hide HeaderFault, Execute, Appended;
    if bs != [] {
      var t := ApplyBlock(c, s, bs[0], true);
      AcceptedState(c, s, bs[0], t);
      assert OnDisk(s, bs[0]) && t.disk == s.disk;
      assert forall i :: 0 <= i < |bs[1..]| ==> OnDisk(s, bs[1..][i]);
      ReplayKeepsDisk(c, t, bs[1..], store);
    }
  }

  /** `t` is `s` right after a start from the directory `disk`. */
  ghost predicate Restarted(s: Chain, disk: map<int, Block>, t: Chain)
  {
    Alike(t, s) && Idle(t) && t.disk == disk
  }

  /** The committed part of the directory, replayed in a fresh node. */
  lemma GoodFiles(c: Crypto, s: Chain, start: Chain)
    requires DiskOk(c, s) && start == GENESIS.(disk := s.disk)
    ensures var r := ReplayBlocks(c, start, Committed(s), WORKS);
      r.fault.None? && Alike(r.chain, s) && r.chain.disk == s.disk
  {
    hide ReplayBlocks, Accepts, Same, Committed, OnDisk;
    SameIsEquivalence(GENESIS.accounts, GENESIS.accounts, GENESIS.accounts);
    ReplaySimulates(c, GENESIS, start, Committed(s), WORKS);
    SameLedgerEuclidean(ReplayBlocks(c, GENESIS, Committed(s), WORKS).chain,
                        ReplayBlocks(c, start, Committed(s), WORKS).chain, s);
    CommittedOnDisk(s, start);
    ReplayKeepsDisk(c, start, Committed(s), WORKS);
  }

  lemma CommittedOnDisk(s: Chain, start: Chain)
    requires s.height >= 0 && start.disk == s.disk
    requires forall h :: 1 <= h <= s.height ==> h in s.disk && s.disk[h].height == h
    ensures forall i :: 0 <= i < |Committed(s)| ==> OnDisk(start, Committed(s)[i])
  {
  }

  lemma LoadLeaves(c: Crypto, s: Chain)
    requires DiskOk(c, s)
    ensures var r := LoadFromDisk(c, GENESIS.(disk := s.disk), WORKS);
      Restarted(s, s.disk - {s.height + 1}, r.chain) && (r.fault.None? <==> s.height + 1 !in s.disk)
  {
    hide ReplayBlocks, Accepts, Same, Files, Committed, Alike;
    var start := GENESIS.(disk := s.disk);
    var good, bad := Committed(s), Leftover(s);
    AllFiles(c, s);
    GoodFiles(c, s, start);
    ReplayKeepsIdle(c, start, good + bad, WORKS);
    var x := ReplayBlocks(c, start, good, WORKS).chain;
    ReplayConcat(c, start, good, bad, WORKS);
    if bad != [] {
      assert bad == [bad[0]];
      AlikeLedger(x, s);
      LastRefused(c, x, s, bad[0], WORKS);
    } else {
      NothingLeft(c, x, WORKS);
      assert s.disk - {s.height + 1} == s.disk;
    }
  }

  lemma AlikeLedger(s: Chain, t: Chain)
    requires Alike(s, t)
    ensures SameLedger(s, t)
  {
  }

  /** Starting from the directory until the node is up: a start that halts moves the file it halted
      on out of the way of the next. */
  ghost function Restart(c: Crypto, s: Chain): Chain
  {
    var r := LoadFromDisk(c, GENESIS.(disk := s.disk), WORKS);
    if r.fault.None? then r.chain else LoadFromDisk(c, GENESIS.(disk := r.chain.disk), WORKS).chain
  }

  lemma CleanDisk(c: Crypto, s: Chain, t: Chain)
    requires DiskOk(c, s) && t == s.(disk := s.disk - {s.height + 1})
    ensures DiskOk(c, t) && DiskGrows(s, t)
  {
    hide ReplayBlocks, Accepts;
    assert Committed(t) == Committed(s);
  }

  /** The second start, if there is one, succeeds. */
  lemma RestartComesUp(c: Crypto, s: Chain)
    requires DiskOk(c, s)
    ensures Restarted(s, s.disk - {s.height + 1}, Restart(c, s))
    ensures var r := LoadFromDisk(c, GENESIS.(disk := s.disk), WORKS);
      r.fault.Some? ==> LoadFromDisk(c, GENESIS.(disk := r.chain.disk), WORKS).fault.None?
  {
    hide LoadFromDisk, DiskOk, Same, Committed;
    LoadLeaves(c, s);
    var t := s.(disk := s.disk - {s.height + 1});
    CleanDisk(c, s, t);
    LoadLeaves(c, t);
    assert t.disk - {t.height + 1} == t.disk;
  }

  lemma RestartedDisk(c: Crypto, s: Chain, t: Chain)
    requires DiskOk(c, s) && Restarted(s, s.disk - {s.height + 1}, t)
    ensures DiskOk(c, t) && DiskGrows(s, t)
  {
    hide ReplayBlocks, Accepts, Same;
    assert Committed(t) == Committed(s);
    var r := ReplayBlocks(c, GENESIS, Committed(s), WORKS).chain;
    SameIsEquivalence(t.accounts, s.accounts, s.accounts);
    SameIsEquivalence(r.accounts, s.accounts, t.accounts);
  }

  // ----- snapshots

  datatype Snapshot = Snapshot(
    height: int, tip: string, accounts: Accounts, accountsHash: string, snapshotHash: string)

  datatype SnapshotFault = NegativeAccount | MissingAccountsHash | AccountsHashMismatch
                         | MissingSnapshotHash | SnapshotHashMismatch

  /** What the snapshot hash covers. */
  function SnapshotText(height: int, tip: string, accountsHash: string): string
  {
    FormatInt(height) + "|" + tip + "|" + accountsHash
  }

  ghost function Export(c: Crypto, s: Chain): Snapshot
  {
    var h := c.accountsHash(Listing(s.accounts));
    Snapshot(s.height, s.tip, s.accounts, h, c.snapshotHash(SnapshotText(s.height, s.tip, h)))
  }

  ghost function FaultOf(c: Crypto, snap: Snapshot): Option<SnapshotFault>
  {
    if !NonNegative(snap.accounts) then Some(NegativeAccount)
    else if snap.accountsHash == "" then Some(MissingAccountsHash)
    else if c.accountsHash(Listing(snap.accounts)) != snap.accountsHash then Some(AccountsHashMismatch)
    else if snap.snapshotHash == "" then Some(MissingSnapshotHash)
    else if c.snapshotHash(SnapshotText(snap.height, snap.tip, snap.accountsHash)) != snap.snapshotHash
    then Some(SnapshotHashMismatch)
    else None
  }

  /** The finalized height and the disk are left as they were. */
  function Reset(s: Chain, snap: Snapshot): Chain
  {
    Chain(snap.height, snap.tip, map[], snap.accounts, [], {}, map[], map[], s.finalized, s.disk)
  }

  ghost function LoadSnapshot(c: Crypto, s: Chain, snap: Snapshot): Chain
  {
    if FaultOf(c, snap).Some? then s else Reset(s, snap)
  }

  ghost function LoadSnapshotAndReplay(c: Crypto, s: Chain, snap: Snapshot, store: Block -> bool): Loaded
    requires FaultOf(c, snap).None?
  {
    ReplayBlocks(c, Reset(s, snap), Files(s.disk, snap.height), store)
  }

  /** An export is valid exactly when no account is negative, and loading it anywhere restores
      height, tip and accounts and leaves no block, buffered block or pending transaction behind. */
  lemma SnapshotRoundTrip(c: Crypto, s: Chain, target: Chain)
    ensures FaultOf(c, Export(c, s)).None? <==> NonNegative(s.accounts)
    ensures NonNegative(s.accounts) ==>
      var t := LoadSnapshot(c, target, Export(c, s));
      && t.height == s.height && t.tip == s.tip && t.accounts == s.accounts
      && t.blocks == map[] && Idle(t) && t.finalized == target.finalized && t.disk == target.disk
  {
  }

  lemma SnapshotTextInjective(h: int, t: string, a: Hex, h': int, t': string, a': Hex)
    requires SnapshotText(h, t, a) == SnapshotText(h', t', a')
    ensures h == h' && t == t' && a == a'
  {
    var f, f' := FormatInt(h), FormatInt(h');
    SplitLastField(f + "|" + t, a, f' + "|" + t', a', '|');
    SplitFirstField(f, t, f', t', '|');
    FormatIntInjective(h, h');
  }

  ghost predicate SnapshotHashesFree(c: Crypto)
  {
    && (forall x, y :: c.accountsHash(x) == c.accountsHash(y) ==> x == y)
    && (forall x, y :: c.snapshotHash(x) == c.snapshotHash(y) ==> x == y)
  }

  /** A snapshot that carries the hash of an export passes validation exactly when it is that export:
      whatever was changed in it, even in the accounts alone, it is refused. */
  lemma TamperedSnapshot(c: Crypto, s: Chain, snap: Snapshot, target: Chain)
    requires SnapshotHashesFree(c) && snap.snapshotHash == Export(c, s).snapshotHash
    ensures FaultOf(c, snap).None? <==> snap == Export(c, s) && NonNegative(s.accounts)
    ensures snap != Export(c, s) ==> LoadSnapshot(c, target, snap) == target
  {
    hide Listing, SnapshotText, NonNegative;
    if FaultOf(c, snap).None? {
      SnapshotTextInjective(s.height, s.tip, c.accountsHash(Listing(s.accounts)), snap.height, snap.tip,
                            c.accountsHash(Listing(snap.accounts)));
      ListingInjective(s.accounts, snap.accounts);
    }
  }

  lemma CommittedGrows(s: Chain, u: Chain)
    requires s.height >= 0 && DiskGrows(s, u)
    requires forall h :: 1 <= h <= s.height ==> h in s.disk
    requires forall h :: 1 <= h <= u.height ==> h in u.disk
    ensures Committed(u) == Committed(s) + Committed(u)[s.height..]
  {
  }

  lemma SameAccounts(c: Crypto, s: Chain, base: Chain)
    requires DiskOk(c, s) && base.height == s.height && base.tip == s.tip && base.accounts == s.accounts
    ensures SameLedger(ReplayBlocks(c, GENESIS, Committed(s), WORKS).chain, base)
  {
  }

  lemma ReplayAbove(c: Crypto, s: Chain, u: Chain, base: Chain, store: Block -> bool)
    requires DiskOk(c, s) && DiskOk(c, u) && DiskGrows(s, u)
    requires base.height == s.height && base.tip == s.tip && base.accounts == s.accounts
    ensures var r := ReplayBlocks(c, base, Files(u.disk, s.height), store);
      && (SameLedger(r.chain, u) <==> Stores(store, Committed(u)[s.height..]))
      && (r.fault.None? <==> Stores(store, Committed(u)[s.height..]) && u.height + 1 !in u.disk)
  {
    hide ReplayBlocks, Accepts, ApplyFault, HeaderFault, Files, Committed, Same;
    var low, high, bad := Committed(s), Committed(u)[s.height..], Leftover(u);
    CommittedGrows(s, u);
    FilesAbove(c, u, s.height);
    SameAccounts(c, s, base);
    ReplayTail(c, base, low, high, bad, u, store);
  }

  /** A snapshot taken at `s` plus the files above it gives the ledger of any later state `u`,
      as full replay does, exactly when those blocks can be written again. */
  lemma SnapshotShortcut(c: Crypto, s: Chain, u: Chain, target: Chain, store: Block -> bool)
    requires DiskOk(c, s) && DiskOk(c, u) && DiskGrows(s, u)
    requires NonNegative(s.accounts) && target.disk == u.disk
    ensures FaultOf(c, Export(c, s)).None?
    ensures var r := LoadSnapshotAndReplay(c, target, Export(c, s), store);
      && (SameLedger(r.chain, u) <==> Stores(store, Committed(u)[s.height..]))
      && (r.fault.None? <==> Stores(store, Committed(u)[s.height..]) && u.height + 1 !in u.disk)
  {
    hide ReplayBlocks, DiskOk, DiskGrows, Files, FaultOf;
    SnapshotRoundTrip(c, s, target);
    ReplayAbove(c, s, u, Reset(target, Export(c, s)), store);
  }

  // ----- starting with a snapshot

  /** Startup with a snapshot file: the block files above it are replayed, and then all of them. */
  ghost function Startup(c: Crypto, s: Chain, snap: Snapshot, store: Block -> bool): Loaded
    requires FaultOf(c, snap).None?
  {
    var r := LoadSnapshotAndReplay(c, s, snap, store);
    if r.fault.Some? then r else LoadFromDisk(c, r.chain, store)
  }

  lemma FirstFileRefused(c: Crypto, s: Chain, bs: seq<Block>, store: Block -> bool)
    requires bs != [] && bs[0].height != s.height + 1
    ensures ReplayBlocks(c, s, bs, store).fault.Some?
  {
  }

  lemma SecondReplay(c: Crypto, u: Chain, x: Chain, store: Block -> bool)
    requires DiskOk(c, u) && u.height + 1 !in u.disk && x.height == u.height && x.disk == u.disk
    ensures LoadFromDisk(c, x, store).fault.None? <==> u.disk == map[]
  {
    hide ReplayBlocks, Accepts, Same, Files;
    AllFiles(c, u);
    if u.height >= 1 {
      FirstFileRefused(c, x, Committed(u) + Leftover(u), store);
    } else {
      assert forall h :: h !in u.disk;
      assert u.disk == map[];
      assert Committed(u) + Leftover(u) == [];
      NothingLeft(c, x, store);
    }
  }

  lemma ShortcutKeepsDisk(c: Crypto, u: Chain, base: Chain, k: nat, store: Block -> bool)
    requires DiskOk(c, u) && k <= u.height && base.disk == u.disk
    requires ReplayBlocks(c, base, Files(u.disk, k), store).fault.None?
    ensures ReplayBlocks(c, base, Files(u.disk, k), store).chain.disk == u.disk
  {
    hide ReplayBlocks, Accepts, Same, Files;
    FilesAbove(c, u, k);
    var above := Files(u.disk, k);
    assert forall i :: 0 <= i < |above| ==> OnDisk(base, above[i]);
    ReplayKeepsDisk(c, base, above, store);
  }

  /** The second replay starts over at the first block, so that a start with a snapshot halts unless
      the block directory is empty. */
  lemma SnapshotStartHalts(c: Crypto, s: Chain, u: Chain, target: Chain, store: Block -> bool)
    requires DiskOk(c, s) && DiskOk(c, u) && DiskGrows(s, u)
    requires NonNegative(s.accounts) && target.disk == u.disk
    ensures FaultOf(c, Export(c, s)).None?
    ensures Startup(c, target, Export(c, s), store).fault.None? <==> u.disk == map[]
  {
    hide ReplayBlocks, FaultOf, Accepts, Same, Files, LoadFromDisk;
    SnapshotShortcut(c, s, u, target, store);
    var r := LoadSnapshotAndReplay(c, target, Export(c, s), store);
    if r.fault.None? {
      ShortcutKeepsDisk(c, u, Reset(target, Export(c, s)), s.height, store);
      SecondReplay(c, u, r.chain, store);
    } else {
      assert u.disk != map[] by {
        assert u.height >= 1 ==> 1 in u.disk;
      }
    }
  }
}
