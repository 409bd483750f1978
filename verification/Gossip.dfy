/** Flooding of messages and blocks: who forwards what to whom, and why every flood dies out. */
module Gossip {
  import opened Sets

  /** A message on the wire: its identifier, hops left, the neighbour it came through and the
      address it is sent to. */
  datatype Copy = Copy(id: string, ttl: int, via: string, dest: string)

  predicate IsSpace(ch: char)
  {
    ch == ' ' || '\t' <= ch <= '\r'
  }

  /** `strings.TrimSpace` on ASCII text. */
  function Trim(s: string): string
  {
    if s == "" then s
    else if IsSpace(s[0]) then Trim(s[1..])
    else if IsSpace(s[|s| - 1]) then Trim(s[..|s| - 1])
    else s
  }

  predicate Blank(s: string)
  {
    forall i :: 0 <= i < |s| ==> s[i] in {' ', '\t', '\n', '\r'} || s[i] as int in {11, 12}
  }

  /** `s[i..j]` is `s` without the white space at its ends. */
  predicate Stripped(s: string, i: int, j: int)
  {
    && 0 <= i <= j <= |s| && Blank(s[..i]) && Blank(s[j..])
    && (i < j ==> !Blank([s[i]]) && !Blank([s[j - 1]]))
  }

  lemma StripFront(s: string, i: nat, j: nat)
    requires s != "" && Blank([s[0]]) && Stripped(s[1..], i, j)
    ensures Stripped(s, i + 1, j + 1) && s[i + 1..j + 1] == s[1..][i..j]
  {
    assert [s[0]][0] == s[0];
    assert s[..i + 1] == [s[0]] + s[1..][..i];
    assert s[j + 1..] == s[1..][j..];
  }

  lemma StripBack(s: string, i: nat, j: nat)
    requires s != "" && Blank([s[|s| - 1]]) && Stripped(s[..|s| - 1], i, j)
    ensures Stripped(s, i, j) && s[i..j] == s[..|s| - 1][i..j]
  {
    var n := |s| - 1;
    assert [s[n]][0] == s[n];
    assert s[..i] == s[..n][..i];
    assert s[j..] == s[..n][j..] + [s[n]];
  }

  lemma SpaceIsBlank(ch: char)
    ensures Blank([ch]) <==> IsSpace(ch)
  {
    assert [ch][0] == ch;
  }

  /** Trimming cuts off the white space at both ends and leaves none there. */
  lemma {:induction false} TrimExact(s: string) returns (i: nat, j: nat)
    ensures Stripped(s, i, j) && Trim(s) == s[i..j]
    decreases |s|
  {
    hide IsSpace;
    if s == "" {
      i, j := 0, 0;
    } else {
      SpaceIsBlank(s[0]);
      SpaceIsBlank(s[|s| - 1]);
      hide Blank, Stripped;
      if IsSpace(s[0]) {
        i, j := TrimExact(s[1..]);
        StripFront(s, i, j);
        i, j := i + 1, j + 1;
      } else if IsSpace(s[|s| - 1]) {
        i, j := TrimExact(s[..|s| - 1]);
        StripBack(s, i, j);
      } else {
        i, j := 0, |s|;
        NothingToStrip(s);
      }
    }
  }

  lemma NothingToStrip(s: string)
    requires s != "" && !Blank([s[0]]) && !Blank([s[|s| - 1]])
    ensures Stripped(s, 0, |s|)
  {
  }

  lemma {:induction false} TrimIdempotent(s: string)
    ensures Trim(Trim(s)) == Trim(s)
  {
    if s != "" {
      if IsSpace(s[0]) {
        TrimIdempotent(s[1..]);
      } else if IsSpace(s[|s| - 1]) {
        TrimIdempotent(s[..|s| - 1]);
      }
    }
  }

  /** The peers a node sends to: not itself, not an empty address, not the previous hop. */
  function Targets(self: string, peers: seq<string>, prevHop: string): (r: seq<string>)
    ensures |r| <= |peers|
    ensures forall i :: 0 <= i < |r| ==> r[i] != "" && r[i] != self && (prevHop != "" ==> r[i] != prevHop)
  {
    if peers == [] then []
    else
      var addr := Trim(peers[0]);
      var rest := Targets(self, peers[1..], prevHop);
      if addr == "" || addr == self || (prevHop != "" && addr == prevHop) then rest else [addr] + rest
  }

  /** Every other peer is sent to, once per listing. */
  lemma {:induction false} TargetsExact(self: string, peers: seq<string>, prevHop: string, a: string)
    ensures a in Targets(self, peers, prevHop) <==>
      a != "" && a != self && (prevHop != "" ==> a != prevHop) && exists i :: 0 <= i < |peers| && Trim(peers[i]) == a
    decreases |peers|
  {
    if peers != [] {
      TargetsExact(self, peers[1..], prevHop, a);
      var rest := peers[1..];
      assert forall i :: 0 <= i < |rest| ==> rest[i] == peers[i + 1];
      if exists i :: 0 <= i < |peers| && Trim(peers[i]) == a {
        var i :| 0 <= i < |peers| && Trim(peers[i]) == a;
        assert i > 0 ==> Trim(rest[i - 1]) == a;
      }
    }
  }

  function CopiesTo(id: string, ttl: int, via: string, dests: seq<string>): (r: seq<Copy>)
    ensures |r| == |dests|
    ensures forall i :: 0 <= i < |r| ==> r[i] == Copy(id, ttl, via, dests[i])
  {
    seq(|dests|, i requires 0 <= i < |dests| => Copy(id, ttl, via, dests[i]))
  }

  /** What an originator sends. */
  function Originate(self: string, peers: seq<string>, id: string, ttl: int): seq<Copy>
  {
    if ttl <= 0 then [] else CopiesTo(id, ttl, self, Targets(self, peers, ""))
  }

  /** What a node sends on after receiving `m`. */
  function Forward(self: string, peers: seq<string>, m: Copy): seq<Copy>
  {
    if m.ttl <= 0 || m.ttl - 1 <= 0 then []
    else CopiesTo(m.id, m.ttl - 1, self, Targets(self, peers, Trim(m.via)))
  }

  // ----- the code

  datatype Kind = Message | BlockMessage(applies: bool) | Unknown

  /** How long an identifier is remembered, in nanoseconds, and how many at most. */
  const SEEN_TTL := 120_000_000_000
  const SEEN_MAX := 5000

  type SeenTable = map<string, int>

  function Live(t: SeenTable, now: int): SeenTable
  {
    map k | k in t && t[k] >= now - SEEN_TTL :: t[k]
  }

  /** `after` is a table with `name` marked and pruned: of the entries no older than two minutes the
      newest 5000, or all if there are no more. */
  ghost predicate Marked(before: SeenTable, name: string, now: int, after: SeenTable)
  {
    var live := Live(before[name := now], now);
    && (forall k :: k in after ==> k in live && after[k] == live[k])
    && |after| == (if |live| <= SEEN_MAX then |live| else SEEN_MAX)
    && (forall j, k :: j in live && j !in after && k in after ==> live[j] <= after[k])
  }

  lemma SubmapSize(t: SeenTable, live: SeenTable)
    requires forall k :: k in t ==> k in live && t[k] == live[k]
    ensures |t| <= |live|
    ensures |t| == |live| ==> t == live
  {
    assert t.Keys <= live.Keys && |t.Keys| == |t| && |live.Keys| == |live|;
    SubsetSize(t.Keys, live.Keys);
    if |t| == |live| && t.Keys != live.Keys {
      var k :| k in live.Keys && k !in t.Keys;
      SubsetSize(t.Keys, live.Keys - {k});
    }
  }

  /** An identifier that is younger than all others is remembered. */
  lemma NewestIsKept(before: SeenTable, name: string, now: int, after: SeenTable)
    requires Marked(before, name, now, after)
    requires forall j :: j in before && j != name ==> before[j] < now
    ensures name in after && |after| <= 5000
  {
    var live := Live(before[name := now], now);
    assert name in live;
    if |live| <= SEEN_MAX {
      SubmapSize(after, live);
    } else if name !in after {
      Inhabited(after);
    }
  }

  /** With fewer than 5000 in use every identifier is remembered until it expires, and then
      forgotten. */
  lemma KeptUntilExpired(before: SeenTable, name: string, now: int, after: SeenTable, k: string)
    requires Marked(before, name, now, after) && |before| < 5000 && k in before && k != name
    ensures k in after <==> before[k] >= now - 120_000_000_000
  {
    var all := before[name := now];
    var live := Live(all, now);
    SubmapSize(live, all);
    assert all.Keys == before.Keys + {name} && |all| == |all.Keys|;
    SubmapSize(after, live);
  }

  lemma Inhabited(t: SeenTable)
    requires |t| > 0
    ensures exists k :: k in t
  {
    assert t.Keys != {};
  }

  class MeshNode {
    const id: string
    const bootstrapPeers: seq<string>
    var seen: SeenTable

    constructor (self: string, peers: seq<string>)
      ensures id == self && bootstrapPeers == peers && seen == map[]
    {
      id, bootstrapPeers, seen := self, peers, map[];
    }

    /** An empty identifier is not recorded. */
    method MarkSeen(name: string, now: int)
      modifies this`seen
      ensures name == "" ==> seen == old(seen)
      ensures name != "" ==> Marked(old(seen), name, now, seen)
    {
      if name == "" {
        return;
      }
      seen := seen[name := now];
      ForgetExpired(now);
      ghost var live := seen;
      while |seen| > SEEN_MAX
        invariant forall k :: k in seen ==> k in live && seen[k] == live[k]
        invariant |seen| <= |live| && (|live| <= SEEN_MAX ==> seen == live)
        invariant |live| > SEEN_MAX ==> |seen| >= SEEN_MAX
        invariant forall j, k :: j in live && j !in seen && k in seen ==> live[j] <= seen[k]
        decreases |seen|
      {
        var oldest := Oldest();
        assert (seen - {oldest}).Keys == seen.Keys - {oldest};
        seen := seen - {oldest};
      }
    }

    method ForgetExpired(now: int)
      modifies this`seen
      ensures seen == Live(old(seen), now)
    {
      var todo := seen.Keys;
      while todo != {}
        invariant todo <= old(seen).Keys
        invariant seen == map k | k in old(seen) && (k in todo || old(seen)[k] >= now - SEEN_TTL) :: old(seen)[k]
        decreases todo
      {
        var k :| k in todo;
        todo := todo - {k};
        if seen[k] < now - SEEN_TTL {
          seen := seen - {k};
        }
      }
    }

    method Oldest() returns (oldest: string)
      requires |seen| > 0
      ensures oldest in seen && forall k :: k in seen ==> seen[oldest] <= seen[k]
    {
      Inhabited(seen);
      oldest :| oldest in seen;
      var todo := seen.Keys - {oldest};
      while todo != {}
        invariant todo <= seen.Keys && oldest in seen
        invariant forall k :: k in seen && k !in todo ==> seen[oldest] <= seen[k]
        decreases todo
      {
        var k :| k in todo;
        todo := todo - {k};
        if seen[k] < seen[oldest] {
          oldest := k;
        }
      }
    }

    method SendToPeers(m: Copy, prevHop: string) returns (out: seq<Copy>)
      ensures out == CopiesTo(m.id, m.ttl, id, Targets(id, bootstrapPeers, prevHop))
    {
      out := [];
      ghost var sent: seq<string> := [];
      ghost var all := Targets(id, bootstrapPeers, prevHop);
      assert bootstrapPeers[0..] == bootstrapPeers;
      for i := 0 to |bootstrapPeers|
        invariant sent + Targets(id, bootstrapPeers[i..], prevHop) == all
        invariant out == CopiesTo(m.id, m.ttl, id, sent)
      {
        assert bootstrapPeers[i..][1..] == bootstrapPeers[i + 1..];
        var addr := Trim(bootstrapPeers[i]);
        if addr == "" || addr == id {
          continue;
        }
        if prevHop != "" && addr == prevHop {
          continue;
        }
        out := out + [Copy(m.id, m.ttl, id, addr)];
        sent := sent + [addr];
      }
      assert bootstrapPeers[|bootstrapPeers|..] == [];
      assert sent == all;
    }

    method GossipOrigin(msgId: string, ttl: int, now: int) returns (out: seq<Copy>)
      modifies this`seen
      ensures out == Originate(id, bootstrapPeers, msgId, ttl)
      ensures ttl <= 0 || msgId == "" ==> seen == old(seen)
      ensures ttl > 0 && msgId != "" ==> Marked(old(seen), msgId, now, seen)
    {
      if ttl <= 0 {
        return [];
      }
      MarkSeen(msgId, now);
      out := SendToPeers(Copy(msgId, ttl, id, ""), "");
    }

    method GossipForward(m: Copy) returns (out: seq<Copy>)
      requires m.ttl > 0
      ensures out == Forward(id, bootstrapPeers, m)
    {
      var ttl := m.ttl - 1;
      if ttl <= 0 {
        return [];
      }
      out := SendToPeers(m.(ttl := ttl), Trim(m.via));
    }

    /** The dedupe and forward decisions on an arriving message; an empty identifier is replaced by
        `clockId`, one made from the clock. */
    method HandleIncoming(m: Copy, kind: Kind, clockId: string, now: int) returns (out: seq<Copy>)
      requires clockId != ""
      modifies this`seen
      ensures var name := if m.id == "" then clockId else m.id;
        var taken := kind != Unknown && name !in old(seen);
        && (taken ==> Marked(old(seen), name, now, seen))
        && (!taken ==> seen == old(seen))
        && out == if taken && kind != BlockMessage(false) then Forward(id, bootstrapPeers, m.(id := name)) else []
    {
      out := [];
      if kind == Unknown {
        return;
      }
      var wm := if m.id == "" then m.(id := clockId) else m;
      if wm.id in seen {
        return;
      }
      MarkSeen(wm.id, now);
      if kind == BlockMessage(false) {
        return;
      }
      if wm.ttl > 0 {
        out := GossipForward(wm);
      }
    }
  }

  // ----- the network

  /** Peer lists by address, the copies in flight, the addresses each has been through and is sent to,
      and the number of copies sent so far. */
  datatype Net = Net(peers: map<string, seq<string>>, inflight: seq<Copy>, routes: seq<seq<string>>, sent: nat)

  function Arrive(n: Net, i: nat): seq<Copy>
    requires i < |n.inflight|
  {
    var m := n.inflight[i];
    if m.dest in n.peers then Forward(m.dest, n.peers[m.dest], m) else []
  }

  /** Any copy may arrive next. It is forwarded or dropped: as seen before, as refused, or because
      it never got there. A node that has forgotten an identifier forwards it again. */
  function Step(n: Net, i: nat, forwards: bool): Net
    requires i < |n.inflight| == |n.routes|
  {
    var out := if forwards then Arrive(n, i) else [];
    Net(n.peers, n.inflight[..i] + n.inflight[i + 1..] + out,
        n.routes[..i] + n.routes[i + 1..] + Onward(n.routes[i], out), n.sent + |out|)
  }

  /** The routes of copies sent on by the last address of `r`. */
  function Onward(r: seq<string>, out: seq<Copy>): (rs: seq<seq<string>>)
    ensures |rs| == |out| && forall j :: 0 <= j < |rs| ==> rs[j] == r + [out[j].dest]
  {
    seq(|out|, j requires 0 <= j < |out| => r + [out[j].dest])
  }

  ghost predicate Degree(n: Net, d: nat)
  {
    forall a :: a in n.peers ==> |n.peers[a]| <= d
  }

  // ----- sums over copies in flight

  function Sum(f: Copy -> nat, cs: seq<Copy>): nat
  {
    if cs == [] then 0 else f(cs[0]) + Sum(f, cs[1..])
  }

  lemma {:induction false} SumConcat(f: Copy -> nat, xs: seq<Copy>, ys: seq<Copy>)
    ensures Sum(f, xs + ys) == Sum(f, xs) + Sum(f, ys)
    decreases |xs|
  {
    if xs == [] {
      assert xs + ys == ys;
    } else {
      assert (xs + ys)[0] == xs[0] && (xs + ys)[1..] == xs[1..] + ys;
      SumConcat(f, xs[1..], ys);
    }
  }

  lemma SumStep(f: Copy -> nat, cs: seq<Copy>, i: nat, out: seq<Copy>)
    requires i < |cs|
    ensures Sum(f, cs[..i] + cs[i + 1..] + out) + f(cs[i]) == Sum(f, cs) + Sum(f, out)
  {
    SumConcat(f, cs[..i] + cs[i + 1..], out);
    SumConcat(f, cs[..i], cs[i + 1..]);
    assert cs == cs[..i] + cs[i..] && cs[i..][1..] == cs[i + 1..];
    SumConcat(f, cs[..i], cs[i..]);
  }

  lemma {:induction false} SumConstant(f: Copy -> nat, cs: seq<Copy>, v: nat)
    requires forall i :: 0 <= i < |cs| ==> f(cs[i]) == v
    ensures Sum(f, cs) == |cs| * v
  {
    if cs != [] {
      SumConstant(f, cs[1..], v);
    }
  }

  // ----- the bound

  function Power(b: nat, n: nat): nat
  {
    if n == 0 then 1 else b * Power(b, n - 1)
  }

  /** d + d^2 + ... + d^n. */
  function Geometric(d: nat, n: int): nat
    decreases n
  {
    if n <= 0 then 0 else Geometric(d, n - 1) + Power(d, n)
  }

  lemma Distribute(x: nat, y: nat, z: nat)
    ensures x * (y + z) == x * y + x * z
  {
  }

  lemma {:induction false} GeometricUnfold(d: nat, n: nat)
    requires n >= 1
    ensures Geometric(d, n) == d * (1 + Geometric(d, n - 1))
  {
    if n > 1 {
      GeometricUnfold(d, n - 1);
      Distribute(d, 1 + Geometric(d, n - 2), Power(d, n - 1));
    } else {
      assert Power(d, 1) == d * Power(d, 0);
    }
  }

  /** Copies one copy can still give rise to. */
  function Budget(d: nat): Copy -> nat
  {
    (m: Copy) => Geometric(d, m.ttl - 1)
  }

  lemma ScaledBound(k: nat, d: nat, g: nat)
    requires k <= d
    ensures k + k * g <= d * (1 + g)
  {
  }

  /** At most `d` copies with `t` hops left cost at most what one hop more is allowed. */
  lemma WaveCost(d: nat, out: seq<Copy>, t: nat)
    requires |out| <= d && t >= 1 && forall i :: 0 <= i < |out| ==> out[i].ttl == t
    ensures |out| + Sum(Budget(d), out) <= Geometric(d, t)
  {
    var g := Geometric(d, t - 1);
    SumConstant(Budget(d), out, g);
    GeometricUnfold(d, t);
    ScaledBound(|out|, d, g);
  }

  lemma ForwardCost(d: nat, self: string, peers: seq<string>, m: Copy)
    requires |peers| <= d
    ensures var out := Forward(self, peers, m);
      |out| + Sum(Budget(d), out) <= Geometric(d, m.ttl - 1)
  {
    hide Sum, Budget, Geometric;
    if m.ttl > 1 {
      WaveCost(d, Forward(self, peers, m), m.ttl - 1);
    } else {
      WaveEmpty(d);
    }
  }

  lemma WaveEmpty(d: nat)
    ensures Sum(Budget(d), []) == 0
  {
  }

  lemma ProductMonotone(x: nat, y: nat, z: nat)
    requires x <= y
    ensures x * z <= y * z
  {
  }

  /** Sent so far plus what is still to come never grows. */
  lemma StepCost(d: nat, n: Net, i: nat, forwards: bool)
    requires Degree(n, d) && i < |n.inflight| == |n.routes|
    ensures var m := Step(n, i, forwards);
      Degree(m, d) && m.sent + Sum(Budget(d), m.inflight) <= n.sent + Sum(Budget(d), n.inflight)
  {
    hide Sum, Geometric, Forward;
    var c := n.inflight[i];
    var out := if forwards then Arrive(n, i) else [];
    SumStep(Budget(d), n.inflight, i, out);
    WaveEmpty(d);
    if c.dest in n.peers {
      ForwardCost(d, c.dest, n.peers[c.dest], c);
    }
  }

  // ----- termination

  /** Each copy weighs (d + 1)^ttl. */
  function Weight(d: nat): Copy -> nat
  {
    (m: Copy) => if m.ttl <= 0 then 1 else Power(d + 1, m.ttl)
  }

  lemma {:induction false} PowerPositive(b: nat, n: nat)
    requires b >= 1
    ensures Power(b, n) >= 1
  {
    if n > 0 {
      PowerPositive(b, n - 1);
      ProductMonotone(1, b, Power(b, n - 1));
    }
  }

  lemma ForwardWeight(d: nat, self: string, peers: seq<string>, m: Copy)
    requires |peers| <= d
    ensures Sum(Weight(d), Forward(self, peers, m)) < Weight(d)(m)
  {
    var out := Forward(self, peers, m);
    if m.ttl > 1 {
      var w := Power(d + 1, m.ttl - 1);
      PowerPositive(d + 1, m.ttl - 1);
      SumConstant(Weight(d), out, w);
      ProductMonotone(|out|, d, w);
      assert (d + 1) * w == d * w + w;
    } else if m.ttl == 1 {
      PowerPositive(d + 1, 1);
    }
  }

  /** Every arrival, forwarded or not, strictly lowers the total weight in flight. */
  lemma StepTerminates(d: nat, n: Net, i: nat, forwards: bool)
    requires Degree(n, d) && i < |n.inflight| == |n.routes|
    ensures Sum(Weight(d), Step(n, i, forwards).inflight) < Sum(Weight(d), n.inflight)
  {
    var c := n.inflight[i];
    var out := if forwards then Arrive(n, i) else [];
    SumStep(Weight(d), n.inflight, i, out);
    if c.dest in n.peers {
      ForwardWeight(d, c.dest, n.peers[c.dest], c);
    }
    if c.ttl > 0 {
      PowerPositive(d + 1, c.ttl);
    }
  }

  // ----- whole floods

  datatype Arrival = Arrival(index: nat, forwards: bool)

  ghost predicate Flood(n: Net, es: seq<Arrival>, m: Net)
    decreases |es|
  {
    if es == [] then m == n
    else es[0].index < |n.inflight| == |n.routes| && Flood(Step(n, es[0].index, es[0].forwards), es[1..], m)
  }

  function Started(peers: map<string, seq<string>>, origin: string, id: string, ttl: int): Net
    requires origin in peers
  {
    var out := Originate(origin, peers[origin], id, ttl);
    Net(peers, out, Onward([origin], out), |out|)
  }

  lemma {:induction false} FloodCost(d: nat, n: Net, es: seq<Arrival>, m: Net)
    requires Degree(n, d) && Flood(n, es, m)
    ensures m.sent + Sum(Budget(d), m.inflight) <= n.sent + Sum(Budget(d), n.inflight)
    ensures |m.inflight| + |es| == |n.inflight| + m.sent - n.sent
    decreases |es|
  {
    if es != [] {
      StepCost(d, n, es[0].index, es[0].forwards);
      FloodCost(d, Step(n, es[0].index, es[0].forwards), es[1..], m);
    }
  }

  /** One origination with `ttl` hops over peer lists of at most `d` entries sends at most
      d + d^2 + ... + d^ttl copies and has at most as many arrivals, for every topology, every
      order of delivery and every pattern of forgotten identifiers. */
  lemma FloodBound(d: nat, peers: map<string, seq<string>>, origin: string, id: string, ttl: int,
                   es: seq<Arrival>, m: Net)
    requires origin in peers && forall a :: a in peers ==> |peers[a]| <= d
    requires Flood(Started(peers, origin, id, ttl), es, m)
    ensures m.sent <= Geometric(d, ttl)
    ensures |es| <= Geometric(d, ttl)
  {
    hide Sum, Budget, Geometric, Flood, Targets;
    var n := Started(peers, origin, id, ttl);
    FloodCost(d, n, es, m);
    if ttl > 0 {
      WaveCost(d, n.inflight, ttl);
    } else {
      WaveEmpty(d);
    }
  }

  // ----- where copies go

  /** `b` is among the peers of `a`. */
  predicate IsPeer(peers: map<string, seq<string>>, a: string, b: string)
  {
    a in peers && exists i :: 0 <= i < |peers[a]| && Trim(peers[a][i]) == b
  }

  /** Hop `k` goes to another peer, and not straight back. */
  predicate HopOk(peers: map<string, seq<string>>, r: seq<string>, k: int)
    requires 0 <= k < |r| - 1
  {
    IsPeer(peers, r[k], r[k + 1]) && r[k + 1] !in {"", r[k]} && (k >= 1 ==> r[k + 1] != Trim(r[k - 1]))
  }

  /** The route of a copy is a walk over the peer lists from the origin that never stays in place and
      never turns straight back, ends at its sender and its destination, and used up one of `t` hops
      for every address after the first two. */
  ghost predicate RouteOk(peers: map<string, seq<string>>, origin: string, t: int, m: Copy, r: seq<string>)
  {
    && |r| >= 2 && r[0] == origin && m.via == r[|r| - 2] && m.dest == r[|r| - 1]
    && m.ttl >= 1 && m.ttl + |r| == t + 2
    && forall k :: 0 <= k < |r| - 1 ==> HopOk(peers, r, k)
  }

  ghost predicate Routed(origin: string, t: int, n: Net)
  {
    && |n.routes| == |n.inflight|
    && forall i :: 0 <= i < |n.inflight| ==> RouteOk(n.peers, origin, t, n.inflight[i], n.routes[i])
  }

  /** A forwarded copy has a hop left, one fewer than before, and goes neither to its sender nor to the
      address the message came from. */
  lemma ForwardWellSent(self: string, peers: seq<string>, m: Copy, i: nat)
    requires i < |Forward(self, peers, m)|
    ensures var c := Forward(self, peers, m)[i];
      && c.ttl == m.ttl - 1 >= 1 && c.via == self && c.id == m.id
      && c.dest !in {"", self, Trim(m.via)} && exists j :: 0 <= j < |peers| && Trim(peers[j]) == c.dest
  {
    var c := Forward(self, peers, m)[i];
    var ts := Targets(self, peers, Trim(m.via));
    assert c.dest == ts[i];
    TargetsExact(self, peers, Trim(m.via), c.dest);
  }

  lemma OnwardRouteOk(n: Net, origin: string, t: int, i: nat, j: nat)
    requires i < |n.inflight| == |n.routes| && RouteOk(n.peers, origin, t, n.inflight[i], n.routes[i])
    requires j < |Arrive(n, i)|
    ensures var c := Arrive(n, i)[j]; RouteOk(n.peers, origin, t, c, n.routes[i] + [c.dest])
  {
    var m, r := n.inflight[i], n.routes[i];
    ForwardWellSent(m.dest, n.peers[m.dest], m, j);
    var c := Arrive(n, i)[j];
    var r' := r + [c.dest];
    assert IsPeer(n.peers, m.dest, c.dest);
    forall k | 0 <= k < |r'| - 1 ensures HopOk(n.peers, r', k) {
      assert k < |r| - 1 ==> HopOk(n.peers, r, k);
    }
  }

  lemma StepRouted(origin: string, t: int, n: Net, i: nat, forwards: bool)
    requires Routed(origin, t, n) && i < |n.inflight|
    ensures Routed(origin, t, Step(n, i, forwards))
  {
    hide RouteOk, Forward;
    var m := Step(n, i, forwards);
    var out := if forwards then Arrive(n, i) else [];
    var kept := n.inflight[..i] + n.inflight[i + 1..];
    forall x | 0 <= x < |m.inflight| ensures RouteOk(n.peers, origin, t, m.inflight[x], m.routes[x]) {
      if x < |kept| {
        var y := if x < i then x else x + 1;
        assert m.inflight[x] == n.inflight[y] && m.routes[x] == n.routes[y];
      } else {
        OnwardRouteOk(n, origin, t, i, x - |kept|);
      }
    }
  }

  lemma {:induction false} FloodWellSent(origin: string, t: int, n: Net, es: seq<Arrival>, m: Net)
    requires Routed(origin, t, n) && Flood(n, es, m)
    ensures Routed(origin, t, m)
    decreases |es|
  {
    hide Routed, Step;
    if es != [] {
      StepRouted(origin, t, n, es[0].index, es[0].forwards);
      FloodWellSent(origin, t, Step(n, es[0].index, es[0].forwards), es[1..], m);
    }
  }

  lemma StartedRouted(peers: map<string, seq<string>>, origin: string, id: string, ttl: int)
    requires origin in peers
    ensures Routed(origin, ttl, Started(peers, origin, id, ttl))
  {
    var n := Started(peers, origin, id, ttl);
    forall i | 0 <= i < |n.inflight| ensures RouteOk(peers, origin, ttl, n.inflight[i], n.routes[i]) {
      var dest := n.inflight[i].dest;
      assert dest == Targets(origin, peers[origin], "")[i];
      TargetsExact(origin, peers[origin], "", dest);
      assert IsPeer(peers, origin, dest);
    }
  }

  /** In every flood, whatever is lost, delayed or forgotten, each copy in flight has come from its
      origin along a walk over the peer lists, of at most `ttl + 1` addresses, that never turns
      straight back. */
  lemma FloodRoutes(peers: map<string, seq<string>>, origin: string, id: string, ttl: int,
                    es: seq<Arrival>, m: Net, i: nat)
    requires origin in peers && Flood(Started(peers, origin, id, ttl), es, m) && i < |m.inflight|
    ensures |m.routes| == |m.inflight| && RouteOk(m.peers, origin, ttl, m.inflight[i], m.routes[i])
    ensures |m.routes[i]| <= ttl + 1
  {
    StartedRouted(peers, origin, id, ttl);
    FloodWellSent(origin, ttl, Started(peers, origin, id, ttl), es, m);
    assert Routed(origin, ttl, m);
  }

  // ----- how far a flood gets

  /** A message with two or more hops left is sent on to exactly the listed peers other than the
      node itself and the address it came from. */
  lemma ForwardExact(self: string, peers: seq<string>, m: Copy, a: string)
    ensures Copy(m.id, m.ttl - 1, self, a) in Forward(self, peers, m) <==>
      m.ttl >= 2 && a !in {"", self, Trim(m.via)} && exists j :: 0 <= j < |peers| && Trim(peers[j]) == a
  {
    var ts := Targets(self, peers, Trim(m.via));
    TargetsExact(self, peers, Trim(m.via), a);
    if m.ttl >= 2 && a in ts {
      var j :| 0 <= j < |ts| && ts[j] == a;
      assert Forward(self, peers, m)[j] == Copy(m.id, m.ttl - 1, self, a);
    }
  }

  ghost predicate WalkOk(peers: map<string, seq<string>>, origin: string, w: seq<string>)
  {
    |w| >= 2 && w[0] == origin && forall k :: 0 <= k < |w| - 1 ==> HopOk(peers, w, k)
  }

  /** The routes of the copies that arrive. */
  ghost function Arrived(n: Net, es: seq<Arrival>): set<seq<string>>
    decreases |es|
  {
    if es == [] || es[0].index >= |n.inflight| || |n.inflight| != |n.routes| then {}
    else {n.routes[es[0].index]} + Arrived(Step(n, es[0].index, es[0].forwards), es[1..])
  }

  /** A copy is under way along the walk. */
  ghost predicate UnderWay(n: Net, w: seq<string>)
  {
    exists j :: 2 <= j <= |w| && w[..j] in n.routes
  }

  lemma KeepsRoute(n: Net, i: nat, forwards: bool, r: seq<string>)
    requires i < |n.inflight| == |n.routes| && r in n.routes && n.routes[i] != r
    ensures r in Step(n, i, forwards).routes
  {
    var q :| 0 <= q < |n.routes| && n.routes[q] == r;
    var rs := Step(n, i, forwards).routes;
    assert rs[if q < i then q else q - 1] == r;
  }

  lemma OnwardIn(n: Net, i: nat, a: string)
    requires i < |n.inflight| == |n.routes|
    requires var m := n.inflight[i]; m.ttl >= 2 && IsPeer(n.peers, m.dest, a) && a !in {"", m.dest, Trim(m.via)}
    ensures n.routes[i] + [a] in Step(n, i, true).routes
  {
    var m := n.inflight[i];
    var out := Arrive(n, i);
    ForwardExact(m.dest, n.peers[m.dest], m, a);
    var x :| 0 <= x < |out| && out[x] == Copy(m.id, m.ttl - 1, m.dest, a);
    var more := Onward(n.routes[i], out);
    assert more[x] == n.routes[i] + [a] && more[x] in more;
  }

  lemma StepUnderWay(origin: string, t: int, n: Net, i: nat, w: seq<string>)
    requires Routed(origin, t, n) && i < |n.inflight| && UnderWay(n, w)
    requires WalkOk(n.peers, origin, w) && |w| <= t + 1
    ensures n.routes[i] == w || UnderWay(Step(n, i, true), w)
  {
    hide Step;
    var j :| 2 <= j <= |w| && w[..j] in n.routes;
    if n.routes[i] != w[..j] {
      KeepsRoute(n, i, true, w[..j]);
    } else if j == |w| {
      assert w[..j] == w;
    } else {
      assert RouteOk(n.peers, origin, t, n.inflight[i], n.routes[i]);
      assert HopOk(n.peers, w, j - 1);
      OnwardIn(n, i, w[j]);
      assert w[..j] + [w[j]] == w[..j + 1];
    }
  }

  lemma {:induction false} FloodUnderWay(origin: string, t: int, n: Net, es: seq<Arrival>, m: Net, w: seq<string>)
    requires Routed(origin, t, n) && Flood(n, es, m) && forall k :: 0 <= k < |es| ==> es[k].forwards
    requires WalkOk(n.peers, origin, w) && |w| <= t + 1 && UnderWay(n, w)
    ensures w in Arrived(n, es) || UnderWay(m, w)
    decreases |es|
  {
    hide Routed, WalkOk, UnderWay;
    if es != [] {
      assert es[0].forwards;
      RoutedSizes(origin, t, n);
      StepUnderWay(origin, t, n, es[0].index, w);
      StepRouted(origin, t, n, es[0].index, true);
      if n.routes[es[0].index] != w {
        FloodUnderWay(origin, t, Step(n, es[0].index, true), es[1..], m, w);
      }
    }
  }

  lemma RoutedSizes(origin: string, t: int, n: Net)
    requires Routed(origin, t, n)
    ensures |n.inflight| == |n.routes|
  {
  }

  lemma {:induction false} ArrivedOk(origin: string, t: int, n: Net, es: seq<Arrival>, w: seq<string>)
    requires Routed(origin, t, n) && w in Arrived(n, es)
    ensures WalkOk(n.peers, origin, w) && |w| <= t + 1
    decreases |es|
  {
    var i := es[0].index;
    if n.routes[i] == w {
      assert RouteOk(n.peers, origin, t, n.inflight[i], n.routes[i]);
    } else {
      StepRouted(origin, t, n, i, es[0].forwards);
      ArrivedOk(origin, t, Step(n, i, es[0].forwards), es[1..], w);
    }
  }

  lemma StartUnderWay(peers: map<string, seq<string>>, origin: string, id: string, ttl: int, w: seq<string>)
    requires origin in peers && WalkOk(peers, origin, w) && |w| <= ttl + 1
    ensures UnderWay(Started(peers, origin, id, ttl), w)
  {
    var n := Started(peers, origin, id, ttl);
    assert HopOk(peers, w, 0);
    TargetsExact(origin, peers[origin], "", w[1]);
    var ts := Targets(origin, peers[origin], "");
    var j :| 0 <= j < |ts| && ts[j] == w[1];
    assert n.routes[j] == [origin] + [w[1]] == w[..2];
  }

  /** A flood in which every copy arrives and is sent on delivers along exactly the walks over the
      peer lists, of at most `ttl` hops, that never stay in place nor turn straight back. */
  lemma FloodExact(peers: map<string, seq<string>>, origin: string, id: string, ttl: int,
                   es: seq<Arrival>, m: Net, w: seq<string>)
    requires origin in peers && Flood(Started(peers, origin, id, ttl), es, m) && m.routes == []
    requires forall k :: 0 <= k < |es| ==> es[k].forwards
    ensures w in Arrived(Started(peers, origin, id, ttl), es) <==> WalkOk(peers, origin, w) && |w| <= ttl + 1
  {
    hide WalkOk, Started, Flood;
    var n := Started(peers, origin, id, ttl);
    StartedRouted(peers, origin, id, ttl);
    StartedPeers(peers, origin, id, ttl);
    if w in Arrived(n, es) {
      ArrivedOk(origin, ttl, n, es, w);
    }
    if WalkOk(peers, origin, w) && |w| <= ttl + 1 {
      StartUnderWay(peers, origin, id, ttl, w);
      FloodUnderWay(origin, ttl, n, es, m, w);
    }
  }

  lemma StartedPeers(peers: map<string, seq<string>>, origin: string, id: string, ttl: int)
    requires origin in peers
    ensures Started(peers, origin, id, ttl).peers == peers
  {
  }

  /** Hops over the peer lists, to addresses that are not empty. */
  predicate Walk(peers: map<string, seq<string>>, w: seq<string>)
  {
    w != [] && forall k :: 0 <= k < |w| - 1 ==> LinkOk(peers, w, k)
  }

  predicate LinkOk(peers: map<string, seq<string>>, w: seq<string>, k: int)
    requires 0 <= k < |w| - 1
  {
    IsPeer(peers, w[k], w[k + 1]) && w[k + 1] != ""
  }

  lemma WalkTrimmed(peers: map<string, seq<string>>, w: seq<string>, k: nat)
    requires Walk(peers, w) && Trim(w[0]) == w[0] && k < |w|
    ensures Trim(w[k]) == w[k]
  {
    if k > 0 {
      assert LinkOk(peers, w, k - 1);
      var i :| 0 <= i < |peers[w[k - 1]]| && Trim(peers[w[k - 1]][i]) == w[k];
      TrimIdempotent(peers[w[k - 1]][i]);
    }
  }

  /** A walk with a loop of one or two hops cut out. */
  lemma CutWalk(peers: map<string, seq<string>>, w: seq<string>, k: nat, l: nat)
    requires Walk(peers, w) && k < l < |w| && w[k] == w[l]
    ensures var v := w[..k] + w[l..]; Walk(peers, v) && v[0] == w[0] && v[|v| - 1] == w[|w| - 1] && |v| < |w|
  {
    var v := w[..k] + w[l..];
    forall j | 0 <= j < |v| - 1 ensures LinkOk(peers, v, j) {
      assert LinkOk(peers, w, if j < k then j else j + (l - k));
    }
  }

  /** Whatever a walk reaches is reached without turning straight back, in no more hops. */
  lemma {:induction false} Straighten(peers: map<string, seq<string>>, w: seq<string>) returns (v: seq<string>)
    requires Walk(peers, w) && Trim(w[0]) == w[0] && w[|w| - 1] != w[0]
    ensures WalkOk(peers, w[0], v) && |v| <= |w| && v[|v| - 1] == w[|w| - 1]
    decreases |w|
  {
    if k :| 0 <= k < |w| - 1 && !HopOk(peers, w, k) {
      assert LinkOk(peers, w, k);
      if w[k + 1] == w[k] {
        CutWalk(peers, w, k, k + 1);
        v := Straighten(peers, w[..k] + w[k + 1..]);
      } else {
        WalkTrimmed(peers, w, k - 1);
        CutWalk(peers, w, k - 1, k + 1);
        v := Straighten(peers, w[..k - 1] + w[k + 1..]);
      }
    } else {
      v := w;
    }
  }

  /** Such a flood reaches every address within `ttl` hops of its origin. */
  lemma FloodReaches(peers: map<string, seq<string>>, origin: string, id: string, ttl: int,
                     es: seq<Arrival>, m: Net, w: seq<string>)
    requires origin in peers && Flood(Started(peers, origin, id, ttl), es, m) && m.routes == []
    requires forall k :: 0 <= k < |es| ==> es[k].forwards
    requires Walk(peers, w) && w[0] == origin == Trim(origin) && w[|w| - 1] != origin && |w| <= ttl + 1
    ensures exists r :: r in Arrived(Started(peers, origin, id, ttl), es) && |r| >= 2 && r[|r| - 1] == w[|w| - 1]
  {
    var v := Straighten(peers, w);
    FloodExact(peers, origin, id, ttl, es, m, v);
  }

  // ----- a flood with dedupe

  /** Each address sends on the first copy it gets and drops the rest; `seen` are those that got one. */
  ghost predicate Deduped(n: Net, seen: set<string>, es: seq<Arrival>, m: Net, done: set<string>)
    decreases |es|
  {
    if es == [] then m == n && done == seen
    else
      && es[0].index < |n.inflight| == |n.routes|
      && es[0].forwards == (n.inflight[es[0].index].dest !in seen)
      && Deduped(Step(n, es[0].index, es[0].forwards), seen + {n.inflight[es[0].index].dest}, es[1..], m, done)
  }

  predicate NoRepeat(r: seq<string>)
  {
    forall i, j :: 0 <= i < j < |r| ==> r[i] != r[j]
  }

  function Front(r: seq<string>): seq<string>
  {
    if r == [] then [] else r[..|r| - 1]
  }

  ghost predicate FromSeen(r: seq<string>, seen: set<string>)
  {
    NoRepeat(Front(r)) && forall k :: 0 <= k < |Front(r)| ==> Front(r)[k] in seen
  }

  /** Copies come from addresses that were reached, along routes that repeat none of them. */
  ghost predicate FirstHand(n: Net, seen: set<string>)
  {
    forall q :: 0 <= q < |n.routes| ==> FromSeen(n.routes[q], seen)
  }

  /** Every peer of an address that was reached was reached or has a copy under way. */
  ghost predicate Covered(n: Net, seen: set<string>)
  {
    forall u, a :: u in seen && IsPeer(n.peers, u, a) && a != "" ==> a in seen || Expected(n, a)
  }

  ghost predicate Expected(n: Net, a: string)
  {
    exists r :: r in n.routes && r != [] && r[|r| - 1] == a
  }

  lemma {:induction false} NoRepeatSize(r: seq<string>, names: set<string>)
    requires NoRepeat(r) && forall k :: 0 <= k < |r| ==> r[k] in names
    ensures |r| <= |names|
    decreases |r|
  {
    if r != [] {
      var n := |r| - 1;
      NoRepeatSize(r[..n], names - {r[n]});
    }
  }

  lemma RouteTrimmed(peers: map<string, seq<string>>, origin: string, t: int, m: Copy, r: seq<string>)
    requires RouteOk(peers, origin, t, m, r) && Trim(origin) == origin
    ensures Trim(m.via) == m.via
  {
    forall k | 0 <= k < |r| - 1 ensures LinkOk(peers, r, k) {
      assert HopOk(peers, r, k);
    }
    WalkTrimmed(peers, r, |r| - 2);
  }

  /** The first copy an address with peers gets still has hops left, if there were as many as there
      are addresses. */
  lemma FirstHasHops(origin: string, t: int, n: Net, seen: set<string>, i: nat)
    requires Routed(origin, t, n) && FirstHand(n, seen) && i < |n.inflight| && t >= |n.peers|
    requires n.inflight[i].dest !in seen && n.inflight[i].dest in n.peers
    ensures n.inflight[i].ttl >= 2 && NoRepeat(n.routes[i])
  {
    var m, r := n.inflight[i], n.routes[i];
    assert RouteOk(n.peers, origin, t, m, r);
    assert FromSeen(r, seen) && r == Front(r) + [m.dest];
    forall k | 0 <= k < |r| ensures r[k] in n.peers.Keys {
      assert k < |r| - 1 ==> HopOk(n.peers, r, k);
    }
    NoRepeatSize(r, n.peers.Keys);
  }

  lemma FromSeenGrows(r: seq<string>, seen: set<string>, a: string)
    requires FromSeen(r, seen)
    ensures FromSeen(r, seen + {a})
  {
  }

  lemma FromSeenOnward(r: seq<string>, seen: set<string>, d: string, a: string)
    requires FromSeen(r, seen) && NoRepeat(r) && r != [] && r[|r| - 1] == d
    ensures FromSeen(r + [a], seen + {d})
  {
    assert Front(r + [a]) == r == Front(r) + [d];
  }

  lemma StepFirstHand(origin: string, t: int, n: Net, seen: set<string>, i: nat, forwards: bool)
    requires Routed(origin, t, n) && FirstHand(n, seen) && i < |n.inflight| && t >= |n.peers|
    requires forwards <==> n.inflight[i].dest !in seen
    ensures FirstHand(Step(n, i, forwards), seen + {n.inflight[i].dest})
  {
    hide FromSeen, NoRepeat, Arrive;
    var m, r := n.inflight[i], n.routes[i];
    var n' := Step(n, i, forwards);
    var out := if forwards then Arrive(n, i) else [];
    var kept := n.routes[..i] + n.routes[i + 1..];
    assert RouteOk(n.peers, origin, t, m, r) && FromSeen(r, seen);
    forall q | 0 <= q < |n'.routes| ensures FromSeen(n'.routes[q], seen + {m.dest}) {
      if q < |kept| {
        assert n'.routes[q] == n.routes[if q < i then q else q + 1];
        FromSeenGrows(n'.routes[q], seen, m.dest);
      } else {
        NothingSentOn(n, i);
        FirstHasHops(origin, t, n, seen, i);
        FromSeenOnward(r, seen, m.dest, out[q - |kept|].dest);
      }
    }
  }

  lemma NothingSentOn(n: Net, i: nat)
    requires i < |n.inflight|
    ensures n.inflight[i].dest !in n.peers ==> Arrive(n, i) == []
  {
  }

  lemma PeersExpected(origin: string, t: int, n: Net, seen: set<string>, i: nat, a: string)
    requires Routed(origin, t, n) && FirstHand(n, seen) && i < |n.inflight| && t >= |n.peers|
    requires Trim(origin) == origin && n.inflight[i].dest !in seen
    requires IsPeer(n.peers, n.inflight[i].dest, a) && a != "" && a !in seen + {n.inflight[i].dest}
    ensures Expected(Step(n, i, true), a)
  {
    hide Step;
    var m, r := n.inflight[i], n.routes[i];
    assert RouteOk(n.peers, origin, t, m, r);
    FirstHasHops(origin, t, n, seen, i);
    RouteTrimmed(n.peers, origin, t, m, r);
    assert FromSeen(r, seen) && Front(r)[|r| - 2] == m.via;
    OnwardIn(n, i, a);
    assert (r + [a])[|r + [a]| - 1] == a;
  }

  lemma StepCovered(origin: string, t: int, n: Net, seen: set<string>, i: nat, forwards: bool)
    requires Routed(origin, t, n) && FirstHand(n, seen) && Covered(n, seen) && i < |n.inflight| && t >= |n.peers|
    requires Trim(origin) == origin && (forwards <==> n.inflight[i].dest !in seen)
    ensures Covered(Step(n, i, forwards), seen + {n.inflight[i].dest})
  {
    hide FirstHand, FromSeen, IsPeer;
    var m, r := n.inflight[i], n.routes[i];
    var n' := Step(n, i, forwards);
    assert RouteOk(n.peers, origin, t, m, r);
    forall u, a | u in seen + {m.dest} && IsPeer(n.peers, u, a) && a != "" && a !in seen + {m.dest}
      ensures Expected(n', a) {
      if u in seen {
        var s :| s in n.routes && s != [] && s[|s| - 1] == a;
        KeepsRoute(n, i, forwards, s);
      } else {
        PeersExpected(origin, t, n, seen, i, a);
      }
    }
  }

  lemma {:induction false} DedupedCovered(origin: string, t: int, n: Net, seen: set<string>, es: seq<Arrival>,
                                          m: Net, done: set<string>)
    requires Deduped(n, seen, es, m, done) && Routed(origin, t, n) && FirstHand(n, seen) && Covered(n, seen)
    requires t >= |n.peers| && Trim(origin) == origin
    ensures Covered(m, done) && seen <= done && m.peers == n.peers
    decreases |es|
  {
    hide Routed, FirstHand, Covered;
    if es != [] {
      var i := es[0].index;
      RoutedSizes(origin, t, n);
      StepRouted(origin, t, n, i, es[0].forwards);
      StepFirstHand(origin, t, n, seen, i, es[0].forwards);
      StepCovered(origin, t, n, seen, i, es[0].forwards);
      DedupedCovered(origin, t, Step(n, i, es[0].forwards), seen + {n.inflight[i].dest}, es[1..], m, done);
    }
  }

  lemma StartCovered(peers: map<string, seq<string>>, origin: string, id: string, ttl: int)
    requires origin in peers && ttl >= 1
    ensures var n := Started(peers, origin, id, ttl); FirstHand(n, {origin}) && Covered(n, {origin})
  {
    var n := Started(peers, origin, id, ttl);
    var ts := Targets(origin, peers[origin], "");
    forall a | IsPeer(peers, origin, a) && a != "" && a != origin ensures Expected(n, a) {
      TargetsExact(origin, peers[origin], "", a);
      var j :| 0 <= j < |ts| && ts[j] == a;
      assert n.routes[j] == [origin] + [a];
    }
  }

  lemma {:induction false} WalkIsSeen(n: Net, seen: set<string>, w: seq<string>)
    requires Walk(n.peers, w) && w[0] in seen && Covered(n, seen) && n.routes == []
    ensures w[|w| - 1] in seen
    decreases |w|
  {
    if |w| > 1 {
      var v := w[..|w| - 1];
      forall k | 0 <= k < |v| - 1 ensures LinkOk(n.peers, v, k) {
        assert LinkOk(n.peers, w, k);
      }
      WalkIsSeen(n, seen, v);
      assert LinkOk(n.peers, w, |w| - 2);
    }
  }

  /** With dedupe at every address and at least as many hops as there are addresses with peers, a
      flood whose copies all arrive reaches every address the peer lists lead to, in whatever order
      they arrive. */
  lemma DedupedFloodReaches(peers: map<string, seq<string>>, origin: string, id: string, ttl: int,
                            es: seq<Arrival>, m: Net, done: set<string>, w: seq<string>)
    requires origin in peers && Trim(origin) == origin && ttl >= |peers|
    requires Deduped(Started(peers, origin, id, ttl), {origin}, es, m, done) && m.routes == []
    requires Walk(peers, w) && w[0] == origin
    ensures w[|w| - 1] in done
  {
    hide Routed, FirstHand, Covered, Deduped, Walk;
    assert |peers.Keys| >= 1 by { SubsetSize({origin}, peers.Keys); }
    StartedRouted(peers, origin, id, ttl);
    StartedPeers(peers, origin, id, ttl);
    StartCovered(peers, origin, id, ttl);
    DedupedCovered(origin, ttl, Started(peers, origin, id, ttl), {origin}, es, m, done);
    WalkStarts(peers, w);
    WalkIsSeen(m, done, w);
  }

  lemma WalkStarts(peers: map<string, seq<string>>, w: seq<string>)
    requires Walk(peers, w)
    ensures w != []
  {
  }
}
