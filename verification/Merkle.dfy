/** The balances commitment of a block header: a Merkle root over the non-zero accounts in
    address order, the last node of an odd level being paired with itself.
    SHA-256 is taken as free: `Digest` values are equal only if they were built alike. */
module Merkle {
  import opened Sets
  import opened Text
  import opened Accounts

  datatype Digest =
    | EmptyDigest
    | LeafDigest(text: string)
    | NodeDigest(left: Digest, right: Digest)

  datatype Entry = Entry(addr: string, balance: int, nonce: int)

  // ----- the sorted listing of an account map

  predicate Ascending(l: seq<Entry>)
  {
    forall i, j :: 0 <= i < j < |l| ==> Before(l[i].addr, l[j].addr)
  }

  /** `l` holds exactly the accounts of `a`. */
  ghost predicate Lists(l: seq<Entry>, a: Accounts)
  {
    && (forall i :: 0 <= i < |l| ==> l[i].addr in a && a[l[i].addr] == Account(l[i].balance, l[i].nonce))
    && (forall k :: k in a ==> exists i :: 0 <= i < |l| && l[i].addr == k)
  }

  ghost predicate IsFirst(k: string, s: set<string>)
  {
    k in s && forall x :: x in s && x != k ==> Before(k, x)
  }

  lemma FirstOfMore(p: string, q: string, s: set<string>)
    requires p in s && IsFirst(q, s - {p})
    ensures IsFirst(if Before(p, q) then p else q, s)
  {
    BeforeTotal(p, q);
    forall x | x in s && x != p && x != q && Before(p, q) ensures Before(p, x) {
      BeforeTransitive(p, q, x);
    }
  }

  lemma {:induction false} FirstExists(s: set<string>)
    requires s != {}
    ensures exists k :: IsFirst(k, s)
    decreases s
  {
    var p :| p in s;
    if s == {p} {
      assert IsFirst(p, s);
    } else {
      assert s - {p} != {} by { assert s == (s - {p}) + {p}; }
      FirstExists(s - {p});
      var q :| IsFirst(q, s - {p});
      FirstOfMore(p, q, s);
    }
  }

  ghost function First(s: set<string>): (k: string)
    requires s != {}
    ensures IsFirst(k, s)
  {
    FirstExists(s);
    var k :| IsFirst(k, s);
    k
  }

  /** The accounts of `a` in ascending address order. */
  ghost function Listing(a: Accounts): (l: seq<Entry>)
    ensures Ascending(l) && Lists(l, a)
    ensures |l| == |a|
    decreases |a|
  {
    if a == map[] then []
    else
      var k := First(a.Keys);
      var rest := Listing(a - {k});
      PrependLists(Entry(k, a[k].balance, a[k].nonce), rest, a);
      [Entry(k, a[k].balance, a[k].nonce)] + rest
  }

  lemma PrependLists(e: Entry, rest: seq<Entry>, a: Accounts)
    requires e.addr in a && a[e.addr] == Account(e.balance, e.nonce)
    requires forall x :: x in a && x != e.addr ==> Before(e.addr, x)
    requires Ascending(rest) && Lists(rest, a - {e.addr})
    ensures Ascending([e] + rest) && Lists([e] + rest, a)
  {
    var l := [e] + rest;
    forall x | x in a ensures exists i :: 0 <= i < |l| && l[i].addr == x {
      if x == e.addr {
        assert l[0].addr == x;
      } else {
        assert x in a - {e.addr};
        var i :| 0 <= i < |rest| && rest[i].addr == x;
        assert l[i + 1].addr == x;
      }
    }
  }

  lemma EmptyTogether(l: seq<Entry>, a: Accounts)
    requires Lists(l, a)
    ensures l == [] <==> a == map[]
  {
    if l != [] {
      assert l[0].addr in a;
    } else {
      assert forall k :: k !in a;
    }
  }

  lemma SameHead(l: seq<Entry>, r: seq<Entry>, a: Accounts)
    requires l != [] && Ascending(l) && Lists(l, a)
    requires r != [] && Ascending(r) && Lists(r, a)
    ensures l[0] == r[0]
  {
    var x, y := l[0].addr, r[0].addr;
    assert x in a && y in a;
    var i :| 0 <= i < |r| && r[i].addr == x;
    var j :| 0 <= j < |l| && l[j].addr == y;
    if Before(x, y) && Before(y, x) {
      BeforeTransitive(x, y, x);
    }
    BeforeIrreflexive(x);
  }

  /** Sorting fixes the list: two ascending lists of the same map are equal, so neither map
      iteration order nor the sorting algorithm can show in the root. */
  lemma {:induction false} ListingUnique(l: seq<Entry>, r: seq<Entry>, a: Accounts)
    requires Ascending(l) && Lists(l, a)
    requires Ascending(r) && Lists(r, a)
    ensures l == r
    decreases |l|
  {
    hide Ascending, Lists;
    EmptyTogether(l, a);
    EmptyTogether(r, a);
    if a != map[] {
      SameHead(l, r, a);
      TailLists(l, a);
      TailLists(r, a);
      ListingUnique(l[1..], r[1..], a - {l[0].addr});
      assert l == [l[0]] + l[1..] && r == [r[0]] + r[1..];
    }
  }

  lemma TailLists(l: seq<Entry>, a: Accounts)
    requires l != [] && Ascending(l) && Lists(l, a)
    ensures Ascending(l[1..]) && Lists(l[1..], a - {l[0].addr})
  {
    hide Before;
    var t, b := l[1..], a - {l[0].addr};
    forall i | 0 <= i < |t| ensures t[i].addr in b {
      assert t[i] == l[i + 1];
      BeforeIrreflexive(l[0].addr);
    }
    forall k | k in b ensures exists i :: 0 <= i < |t| && t[i].addr == k {
      var i :| 0 <= i < |l| && l[i].addr == k;
      assert t[i - 1].addr == k;
    }
  }

  /** The listing determines the map. */
  lemma ListingInjective(a: Accounts, b: Accounts)
    requires Listing(a) == Listing(b)
    ensures a == b
  {
  }

  // ----- leaves

  function LeafText(e: Entry): string
  {
    e.addr + ['\n'] + FormatInt(e.balance) + ['\n'] + FormatInt(e.nonce)
  }

  /** The leaf text splits back into its fields in one way, even when the address itself
      contains newlines. */
  lemma LeafTextInjective(d: Entry, e: Entry)
    requires LeafText(d) == LeafText(e)
    ensures d == e
  {
    SplitLastField(d.addr + ['\n'] + FormatInt(d.balance), FormatInt(d.nonce),
                   e.addr + ['\n'] + FormatInt(e.balance), FormatInt(e.nonce), '\n');
    SplitLastField(d.addr, FormatInt(d.balance), e.addr, FormatInt(e.balance), '\n');
    FormatIntInjective(d.balance, e.balance);
    FormatIntInjective(d.nonce, e.nonce);
  }

  function Leaves(l: seq<Entry>): (r: seq<Digest>)
    ensures |r| == |l|
    ensures forall i :: 0 <= i < |r| ==> r[i] == LeafDigest(LeafText(l[i]))
  {
    seq(|l|, i requires 0 <= i < |l| => LeafDigest(LeafText(l[i])))
  }

  // ----- the reduction

  /** One level up: neighbours are paired, an odd last node is paired with itself. */
  function Level(ds: seq<Digest>): (r: seq<Digest>)
    ensures |r| == (|ds| + 1) / 2
    ensures forall i :: 0 <= i < |r| ==>
      r[i] == NodeDigest(ds[2 * i], if 2 * i + 1 < |ds| then ds[2 * i + 1] else ds[2 * i])
  {
    seq((|ds| + 1) / 2, i requires 0 <= i < (|ds| + 1) / 2 =>
      NodeDigest(ds[2 * i], if 2 * i + 1 < |ds| then ds[2 * i + 1] else ds[2 * i]))
  }

  function Reduce(ds: seq<Digest>): Digest
    requires ds != []
    decreases |ds|
  {
    if |ds| == 1 then ds[0] else Reduce(Level(ds))
  }

  ghost function Root(a: Accounts): Digest
  {
    var l := Listing(Norm(a));
    if l == [] then EmptyDigest else Reduce(Leaves(l))
  }

  // ----- exactness of the commitment

  /** Nodes above the leaves, along the left spine. */
  function Rank(d: Digest): nat
  {
    match d
    case NodeDigest(l, _) => 1 + Rank(l)
    case _ => 0
  }

  predicate Distinct(ds: seq<Digest>)
  {
    forall i, j :: 0 <= i < j < |ds| ==> ds[i] != ds[j]
  }

  predicate Uniform(ds: seq<Digest>, r: nat)
  {
    forall i :: 0 <= i < |ds| ==> Rank(ds[i]) == r
  }

  lemma LevelKeepsShape(ds: seq<Digest>, r: nat)
    requires Distinct(ds) && Uniform(ds, r)
    ensures Distinct(Level(ds)) && Uniform(Level(ds), r + 1)
  {
  }

  lemma LastPair(ds: seq<Digest>)
    requires Distinct(ds) && ds != []
    ensures (var u := Level(ds); u[|u| - 1].left == u[|u| - 1].right) <==> |ds| % 2 == 1
  {
  }

  /** Pairing loses nothing on lists without repetition: the duplicated last node cannot be
      mistaken for a genuine pair. */
  lemma LevelInjective(xs: seq<Digest>, ys: seq<Digest>)
    requires Distinct(xs) && Distinct(ys)
    requires Level(xs) == Level(ys)
    ensures xs == ys
  {
    assert |Level(xs)| == |Level(ys)|;
    if xs != [] && ys != [] {
      LastPair(xs);
      LastPair(ys);
    }
    assert |xs| == |ys|;
    forall i | 0 <= i < |xs| ensures xs[i] == ys[i] {
      assert Level(xs)[i / 2] == Level(ys)[i / 2];
    }
  }

  lemma {:induction false} ReduceRank(ds: seq<Digest>, r: nat)
    requires ds != [] && Distinct(ds) && Uniform(ds, r)
    ensures Rank(Reduce(ds)) >= r
    ensures |ds| > 1 ==> Rank(Reduce(ds)) > r
    decreases |ds|
  {
    if |ds| > 1 {
      LevelKeepsShape(ds, r);
      ReduceRank(Level(ds), r + 1);
    }
  }

  /** Equal roots come from equal node lists, even of different lengths. */
  lemma {:induction false} ReduceInjective(xs: seq<Digest>, ys: seq<Digest>, r: nat)
    requires xs != [] && Distinct(xs) && Uniform(xs, r)
    requires ys != [] && Distinct(ys) && Uniform(ys, r)
    requires Reduce(xs) == Reduce(ys)
    ensures xs == ys
    decreases |xs|
  {
    ReduceRank(xs, r);
    ReduceRank(ys, r);
    if |xs| == 1 || |ys| == 1 {
      assert Rank(xs[0]) == r && Rank(ys[0]) == r;
      assert xs == [xs[0]] && ys == [ys[0]];
    } else {
      LevelKeepsShape(xs, r);
      LevelKeepsShape(ys, r);
      ReduceInjective(Level(xs), Level(ys), r + 1);
      LevelInjective(xs, ys);
    }
  }

  lemma LeavesDistinct(l: seq<Entry>)
    requires Ascending(l)
    ensures Distinct(Leaves(l)) && Uniform(Leaves(l), 0)
  {
    forall i, j | 0 <= i < j < |l| ensures Leaves(l)[i] != Leaves(l)[j] {
      BeforeIrreflexive(l[i].addr);
      if LeafText(l[i]) == LeafText(l[j]) {
        LeafTextInjective(l[i], l[j]);
      }
    }
  }

  lemma LeavesInjective(l: seq<Entry>, r: seq<Entry>)
    requires Leaves(l) == Leaves(r)
    ensures l == r
  {
    assert |l| == |Leaves(l)| == |r|;
    forall i | 0 <= i < |l| ensures l[i] == r[i] {
      assert Leaves(l)[i] == Leaves(r)[i];
      LeafTextInjective(l[i], r[i]);
    }
  }

  /** The commitment is exact: it sees every non-zero account and nothing else. */
  lemma RootExact(a: Accounts, b: Accounts)
    ensures Root(a) == Root(b) <==> Same(a, b)
  {
    hide Listing, Lists, Same, Norm, Distinct, Uniform;
    SameIsNormEquality(a, b);
    var l, r := Listing(Norm(a)), Listing(Norm(b));
    if Root(a) == Root(b) {
      LeavesDistinct(l);
      LeavesDistinct(r);
      if l == [] || r == [] {
        if l != [] { ReduceIsNotEmpty(Leaves(l)); }
        if r != [] { ReduceIsNotEmpty(Leaves(r)); }
      } else {
        ReduceInjective(Leaves(l), Leaves(r), 0);
        LeavesInjective(l, r);
      }
      ListingInjective(Norm(a), Norm(b));
    }
  }

  lemma {:induction false} ReduceIsNotEmpty(ds: seq<Digest>)
    requires ds != [] && forall i :: 0 <= i < |ds| ==> ds[i] != EmptyDigest
    ensures Reduce(ds) != EmptyDigest
    decreases |ds|
  {
    if |ds| > 1 {
      ReduceIsNotEmpty(Level(ds));
    }
  }

  // ----- the code

  /** The accounts in the order the map happens to yield them, zero accounts skipped on request. */
  method CollectEntries(a: Accounts, skipZero: bool) returns (l: seq<Entry>)
    ensures Lists(l, if skipZero then Norm(a) else a)
    ensures |l| == |if skipZero then Norm(a) else a|
  {
    l := [];
    var todo := a.Keys;
    ghost var want := if skipZero then Norm(a) else a;
    ghost var done: Accounts := map[];
    while todo != {}
      invariant todo <= a.Keys
      invariant done == map k | k in want && k !in todo :: want[k]
      invariant Lists(l, done) && |l| == |done|
      decreases todo
    {
      var k :| k in todo;
      todo := todo - {k};
      var v := a[k];
      if !(skipZero && v.balance == 0 && v.nonce == 0) {
        AppendedLists(l, Entry(k, v.balance, v.nonce), done);
        l := l + [Entry(k, v.balance, v.nonce)];
        done := done[k := v];
      }
    }
    assert done == want;
  }

  lemma EmptyAscending()
    ensures Ascending([])
  {
  }

  /** Puts `e` in its place in an ascending list. */
  method Insert(l: seq<Entry>, e: Entry, ghost a: Accounts) returns (r: seq<Entry>)
    requires Ascending(l) && Lists(l, a) && e.addr !in a
    ensures Ascending(r) && Lists(r, a[e.addr := Account(e.balance, e.nonce)])
  {
    var i := 0;
    while i < |l| && Before(l[i].addr, e.addr)
      invariant 0 <= i <= |l|
      invariant forall j :: 0 <= j < i ==> Before(l[j].addr, e.addr)
    {
      i := i + 1;
    }
    r := l[..i] + [e] + l[i..];
    if i < |l| {
      assert l[i].addr in a;
      BeforeTotal(l[i].addr, e.addr);
    }
    SplicedAscending(l, e, i);
    SplicedLists(l, e, i, a);
  }

  lemma SplicedAscending(l: seq<Entry>, e: Entry, i: nat)
    requires Ascending(l) && i <= |l|
    requires forall j :: 0 <= j < i ==> Before(l[j].addr, e.addr)
    requires i < |l| ==> Before(e.addr, l[i].addr)
    ensures Ascending(l[..i] + [e] + l[i..])
  {
    forall j | i <= j < |l| ensures Before(e.addr, l[j].addr) {
      if i < j {
        BeforeTransitive(e.addr, l[i].addr, l[j].addr);
      }
    }
  }

  lemma SplicedLists(l: seq<Entry>, e: Entry, i: nat, a: Accounts)
    requires Lists(l, a) && e.addr !in a && i <= |l|
    ensures Lists(l[..i] + [e] + l[i..], a[e.addr := Account(e.balance, e.nonce)])
  {
    var r, b := l[..i] + [e] + l[i..], a[e.addr := Account(e.balance, e.nonce)];
    forall k | k in b ensures exists j :: 0 <= j < |r| && r[j].addr == k {
      if k == e.addr {
        assert r[i].addr == k;
      } else {
        var j :| 0 <= j < |l| && l[j].addr == k;
        assert r[if j < i then j else j + 1].addr == k;
      }
    }
  }

  lemma AppendedLists(l: seq<Entry>, e: Entry, a: Accounts)
    requires Lists(l, a) && e.addr !in a
    ensures Lists(l + [e], a[e.addr := Account(e.balance, e.nonce)])
  {
    SplicedLists(l, e, |l|, a);
    assert l + [e] == l[..|l|] + [e] + l[|l|..];
  }

  /** `sort.Slice` by address. */
  method SortByAddress(l: seq<Entry>, ghost a: Accounts) returns (r: seq<Entry>)
    requires Lists(l, a) && |l| == |a|
    ensures r == Listing(a)
  {
    hide Ascending, Listing, Before;
    EntriesDistinct(l, a);
    r := [];
    assert Ascending(r) by { EmptyAscending(); }
    ghost var seen: Accounts := map[];
    for n := 0 to |l|
      invariant seen.Keys == set i | 0 <= i < n :: l[i].addr
      invariant forall k :: k in seen ==> k in a && seen[k] == a[k]
      invariant Ascending(r) && Lists(r, seen)
    {
      assert l[n].addr !in seen;
      r := Insert(r, l[n], seen);
      seen := seen[l[n].addr := Account(l[n].balance, l[n].nonce)];
    }
    forall k | k in a ensures k in seen {
      var i :| 0 <= i < |l| && l[i].addr == k;
    }
    assert seen == a;
    ListingUnique(r, Listing(a), a);
  }

  /** As many entries as accounts leaves no room for a repeated address. */
  lemma {:induction false} EntriesDistinct(l: seq<Entry>, a: Accounts)
    requires Lists(l, a) && |l| == |a|
    ensures forall i, j :: 0 <= i < j < |l| ==> l[i].addr != l[j].addr
  {
    forall i, j | 0 <= i < j < |l| ensures l[i].addr != l[j].addr {
      if l[i].addr == l[j].addr {
        var cut := l[..j] + l[j + 1..];
        var addrs := set n | 0 <= n < |cut| :: cut[n].addr;
        AddressCount(cut);
        forall k | k in a ensures k in addrs {
          var n :| 0 <= n < |l| && l[n].addr == k;
          var m := if n == j then i else n;
          assert cut[if m < j then m else m - 1].addr == k;
        }
        assert a.Keys <= addrs;
        SubsetSize(a.Keys, addrs);
      }
    }
  }

  lemma {:induction false} AddressCount(l: seq<Entry>)
    ensures |set n | 0 <= n < |l| :: l[n].addr| <= |l|
  {
    var s := set n | 0 <= n < |l| :: l[n].addr;
    if l == [] {
      assert s == {};
    } else {
      var t := l[..|l| - 1];
      AddressCount(t);
      assert s == (set n | 0 <= n < |t| :: t[n].addr) + {l[|l| - 1].addr};
    }
  }

  method LeafLevel(lst: seq<Entry>) returns (leaves: seq<Digest>)
    ensures leaves == Leaves(lst)
  {
    hide LeafText;
    leaves := [];
    for n := 0 to |lst|
      invariant |leaves| == n
      invariant forall i :: 0 <= i < n ==> leaves[i] == LeafDigest(LeafText(lst[i]))
    {
      leaves := leaves + [LeafDigest(LeafText(lst[n]))];
    }
  }

  method PairLevel(leaves: seq<Digest>) returns (next: seq<Digest>)
    ensures next == Level(leaves)
  {
    next := [];
    var i := 0;
    while i < |leaves|
      invariant i == 2 * |next| && |next| <= |Level(leaves)|
      invariant forall j :: 0 <= j < |next| ==> next[j] == Level(leaves)[j]
    {
      var left := leaves[i];
      var right := left;
      if i + 1 < |leaves| {
        right := leaves[i + 1];
      }
      next := next + [NodeDigest(left, right)];
      i := i + 2;
    }
  }

  /** The code of the commitment computes `Root`, whatever order the map is iterated in. */
  method MerkleBalancesRoot(a: Accounts) returns (root: Digest)
    ensures root == Root(a)
  {
    var raw := CollectEntries(a, true);
    var lst := SortByAddress(raw, Norm(a));
    if |lst| == 0 {
      return EmptyDigest;
    }
    var leaves := LeafLevel(lst);
    while |leaves| > 1
      invariant |leaves| > 0
      invariant Reduce(leaves) == Root(a)
      decreases |leaves|
    {
      leaves := PairLevel(leaves);
    }
    root := leaves[0];
  }
}
