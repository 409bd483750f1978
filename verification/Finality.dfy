/** The vote finalizer: a tally with a threshold above two thirds, monotone finality and reorg
    refusal, alone and in a network that loses, repeats and reorders votes. */
module Finality {
  import opened Wrappers
  import opened Sets

  datatype Vote = Vote(height: nat, round: nat, hash: string, validator: string)

  /** What the tally keeps of a vote. The round is not part of it. */
  datatype Ballot = Ballot(height: nat, hash: string, validator: string)

  datatype Point = Point(height: nat, hash: string)

  const START := Point(0, "")

  /** A finalizer: the ballots it holds, its finalized point and the point on its disk. */
  datatype State = State(received: set<Ballot>, final: Point, disk: Option<Point>)

  function BallotOf(v: Vote): Ballot
  {
    Ballot(v.height, v.hash, v.validator)
  }

  function Threshold(validators: set<string>): nat
  {
    2 * |validators| / 3 + 1
  }

  function Voters(received: set<Ballot>, p: Point): set<string>
  {
    set b | b in received && b.height == p.height && b.hash == p.hash :: b.validator
  }

  predicate Quorum(validators: set<string>, received: set<Ballot>, p: Point)
  {
    |Voters(received, p)| >= Threshold(validators)
  }

  // ----- the operations

  /** `persists` says whether the write of the new state succeeds; the code ignores its failure. */
  function TallyVote(validators: set<string>, s: State, v: Vote, persists: bool): State
  {
    if v.validator !in validators then s
    else
      var r := s.received + {BallotOf(v)};
      var p := Point(v.height, v.hash);
      if Quorum(validators, r, p) && v.height > s.final.height
      then State(r, p, if persists then Some(p) else s.disk)
      else s.(received := r)
  }

  /** A restart loses every vote and falls back to the disk, or to nothing when it cannot be read. */
  function Restart(s: State, readable: bool): State
  {
    State({}, if readable && s.disk.Some? then s.disk.value else START, s.disk)
  }

  predicate Refuses(final: Point, height: nat, hash: string)
  {
    && height != 0
    && final.height != 0
    && (height < final.height ||
        (height == final.height && final.hash != "" && hash != "" && hash != final.hash))
  }

  // ----- the code

  class Finalizer {
    const validators: set<string>
    const threshold: nat
    var votes: map<nat, map<string, set<string>>>
    var state: Point
    var disk: Option<Point>

    ghost predicate Valid()
      reads this
    {
      threshold == Threshold(validators)
    }

    ghost function Received(): set<Ballot>
      reads this
    {
      set h, x, id | h in votes && x in votes[h] && id in votes[h][x] :: Ballot(h, x, id)
    }

    ghost function View(): State
      reads this
    {
      State(Received(), state, disk)
    }

    /** `stored` is the content of the state file, if there is one that parses. */
    constructor (ids: set<string>, stored: Option<Point>)
      ensures Valid() && validators == ids
      ensures View() == Restart(State({}, START, stored), true)
    {
      validators := ids;
      threshold := 2 * |ids| / 3 + 1;
      votes := map[];
      state := if stored.Some? then stored.value else START;
      disk := stored;
    }

    /** Empty identifiers are dropped; without a data directory or a validator there is no finalizer. */
    static method NewFinalizer(dataDir: string, ids: seq<string>, stored: Option<Point>) returns (f: Finalizer?)
      ensures f == null <==> dataDir == "" || forall id :: id in ids ==> id == ""
      ensures f != null ==> fresh(f) && f.Valid() && f.validators == (set id | id in ids && id != "")
      ensures f != null ==> f.View() == Restart(State({}, START, stored), true)
    {
      if dataDir == "" {
        return null;
      }
      var vset: set<string> := {};
      for i := 0 to |ids|
        invariant vset == set id | id in ids[..i] && id != ""
      {
        assert ids[..i + 1] == ids[..i] + [ids[i]];
        if ids[i] != "" {
          vset := vset + {ids[i]};
        }
      }
      assert ids[..|ids|] == ids;
      if |vset| == 0 {
        assert forall id :: id in ids && id != "" ==> id in vset;
        return null;
      }
      f := new Finalizer(vset, stored);
    }

    method AddVote(v: Vote, persists: bool) returns (finalized: bool, rejected: bool)
      requires Valid()
      modifies this`votes, this`state, this`disk
      ensures View() == TallyVote(validators, old(View()), v, persists)
      ensures rejected <==> v.validator !in validators
      ensures finalized <==> state != old(state)
    {
      finalized, rejected := false, false;
      if v.validator !in validators {
        return false, true;
      }
      var atHeight := if v.height in votes then votes[v.height] else map[];
      var voters := if v.hash in atHeight then atHeight[v.hash] else {};
      voters := voters + {v.validator};
      votes := votes[v.height := atHeight[v.hash := voters]];
      assert Received() == old(Received()) + {BallotOf(v)} by {
        Recorded(old(votes), v, voters);
      }
      assert voters == Voters(Received(), Point(v.height, v.hash)) by {
        forall id ensures id in voters <==> Ballot(v.height, v.hash, id) in Received() {
        }
      }
      var power := |voters|;
      if power < threshold {
        return;
      }
      if v.height > state.height {
        state := Point(v.height, v.hash);
        if persists {
          disk := Some(state);
        }
        finalized := true;
      }
    }

    static ghost function BallotsIn(vs: map<nat, map<string, set<string>>>): set<Ballot>
    {
      set h, x, id | h in vs && x in vs[h] && id in vs[h][x] :: Ballot(h, x, id)
    }

    static lemma Recorded(vs: map<nat, map<string, set<string>>>, v: Vote, voters: set<string>)
      requires var atHeight := if v.height in vs then vs[v.height] else map[];
        voters == (if v.hash in atHeight then atHeight[v.hash] else {}) + {v.validator}
      ensures var atHeight := if v.height in vs then vs[v.height] else map[];
        BallotsIn(vs[v.height := atHeight[v.hash := voters]]) == BallotsIn(vs) + {BallotOf(v)}
    {
    }

    method EnforceNoReorg(height: nat, hash: string) returns (refused: bool)
      ensures refused <==> Refuses(state, height, hash)
    {
      if height == 0 {
        return false;
      }
      if state.height == 0 {
        return false;
      }
      if height < state.height {
        return true;
      }
      if height == state.height && state.hash != "" && hash != "" && hash != state.hash {
        return true;
      }
      return false;
    }
  }

  // ----- quorum intersection

  /** Two sets of more than two thirds of the validators share one outside any smaller third. */
  lemma QuorumsMeet(validators: set<string>, faulty: set<string>, a: set<string>, b: set<string>)
    requires a <= validators && b <= validators
    requires |a| >= Threshold(validators) && |b| >= Threshold(validators)
    requires 3 * |faulty| < |validators|
    ensures exists id :: id in a && id in b && id !in faulty
  {
    assert |a + b| + |a * b| == |a| + |b|;
    SubsetSize(a + b, validators);
    assert |a * b| > |faulty|;
    if a * b <= faulty {
      SubsetSize(a * b, faulty);
    }
    var id :| id in a * b && id !in faulty;
  }

  /** Outside `faulty`, no validator ever votes for two hashes at one height, in any round. */
  ghost predicate Honest(faulty: set<string>, cast: set<Ballot>)
  {
    forall a, b :: (a in cast && b in cast && a.validator == b.validator && a.height == b.height
                    && a.validator !in faulty) ==> a.hash == b.hash
  }

  ghost predicate Certified(validators: set<string>, cast: set<Ballot>, p: Point)
  {
    p.height == 0 || |Voters(cast, p) * validators| >= Threshold(validators)
  }

  lemma CertifiedAgree(validators: set<string>, faulty: set<string>, cast: set<Ballot>, p: Point, q: Point)
    requires Certified(validators, cast, p) && Certified(validators, cast, q)
    requires Honest(faulty, cast) && 3 * |faulty| < |validators|
    requires p.height == q.height > 0
    ensures p.hash == q.hash
  {
    QuorumsMeet(validators, faulty, Voters(cast, p) * validators, Voters(cast, q) * validators);
    var id :| id in Voters(cast, p) && id in Voters(cast, q) && id !in faulty;
    assert Ballot(p.height, p.hash, id) in cast && Ballot(q.height, q.hash, id) in cast;
  }

  // ----- the network

  /** All votes ever cast, and the finalizers by name. Messages may be lost, repeated and delayed,
      so any cast vote may reach any finalizer at any time. */
  datatype Net = Net(cast: set<Ballot>, nodes: map<int, State>)

  datatype NetStep =
    | Cast(ballot: Ballot)
    | Receive(node: int, vote: Vote, persists: bool)
    | Crash(node: int, readable: bool)

  ghost predicate Initial(n: Net)
  {
    n.cast == {} && forall i :: i in n.nodes ==> n.nodes[i] == State({}, START, None)
  }

  ghost predicate Next(validators: set<string>, n: Net, e: NetStep, m: Net)
  {
    match e
    case Cast(b) => m == n.(cast := n.cast + {b})
    case Receive(i, v, persists) =>
      && i in n.nodes && BallotOf(v) in n.cast
      && m == n.(nodes := n.nodes[i := TallyVote(validators, n.nodes[i], v, persists)])
    case Crash(i, readable) =>
      i in n.nodes && m == n.(nodes := n.nodes[i := Restart(n.nodes[i], readable)])
  }

  ghost predicate Trace(validators: set<string>, ns: seq<Net>, es: seq<NetStep>)
  {
    && |ns| == |es| + 1 && Initial(ns[0])
    && forall k :: 0 <= k < |es| ==> Next(validators, ns[k], es[k], ns[k + 1])
  }

  /** A finalizer holds only cast votes of validators, and every point it has in memory or on disk
      carries a quorum of cast votes. */
  ghost predicate Sound(validators: set<string>, cast: set<Ballot>, s: State)
  {
    && s.received <= cast
    && (forall b :: b in s.received ==> b.validator in validators)
    && Certified(validators, cast, s.final)
    && (s.disk.Some? ==> Certified(validators, cast, s.disk.value))
  }

  lemma CertifiedGrows(validators: set<string>, cast: set<Ballot>, more: set<Ballot>, p: Point)
    requires Certified(validators, cast, p) && cast <= more
    ensures Certified(validators, more, p)
  {
    SubsetSize(Voters(cast, p) * validators, Voters(more, p) * validators);
  }

  lemma TallySound(validators: set<string>, cast: set<Ballot>, s: State, v: Vote, persists: bool)
    requires Sound(validators, cast, s) && BallotOf(v) in cast
    ensures Sound(validators, cast, TallyVote(validators, s, v, persists))
  {
    if v.validator in validators {
      var r := s.received + {BallotOf(v)};
      var p := Point(v.height, v.hash);
      SubsetSize(Voters(r, p), Voters(cast, p) * validators);
    }
  }

  lemma NextSound(validators: set<string>, n: Net, e: NetStep, m: Net)
    requires Next(validators, n, e, m)
    requires forall i :: i in n.nodes ==> Sound(validators, n.cast, n.nodes[i])
    ensures forall i :: i in m.nodes ==> Sound(validators, m.cast, m.nodes[i])
    ensures n.cast <= m.cast
  {
    forall i | i in m.nodes ensures Sound(validators, m.cast, m.nodes[i]) {
      var s := n.nodes[i];
      CertifiedGrows(validators, n.cast, m.cast, s.final);
      if s.disk.Some? {
        CertifiedGrows(validators, n.cast, m.cast, s.disk.value);
      }
      if e.Receive? && e.node == i {
        TallySound(validators, n.cast, s, e.vote, e.persists);
      }
    }
  }

  lemma {:induction false} TraceSound(validators: set<string>, ns: seq<Net>, es: seq<NetStep>, k: nat, l: nat)
    requires Trace(validators, ns, es) && k <= l < |ns|
    ensures forall i :: i in ns[l].nodes ==> Sound(validators, ns[l].cast, ns[l].nodes[i])
    ensures ns[k].cast <= ns[l].cast
    decreases l
  {
    if l > 0 {
      TraceSound(validators, ns, es, if k < l then k else l - 1, l - 1);
      assert Next(validators, ns[l - 1], es[l - 1], ns[l - 1 + 1]);
      NextSound(validators, ns[l - 1], es[l - 1], ns[l]);
    }
  }

  /** Agreement: at no two moments do two finalizers, or one before and after a crash, record
      different hashes for the same height, as long as fewer than a third of the validators ever
      vote for two hashes at one height. */
  lemma FinalityAgreement(validators: set<string>, faulty: set<string>, ns: seq<Net>, es: seq<NetStep>,
                          k: nat, l: nat, i: int, j: int)
    requires Trace(validators, ns, es) && k <= l < |ns|
    requires Honest(faulty, ns[l].cast) && 3 * |faulty| < |validators|
    requires i in ns[k].nodes && j in ns[l].nodes
    ensures var p, q := ns[k].nodes[i].final, ns[l].nodes[j].final;
      p.height == q.height ==> p.height == 0 || p.hash == q.hash
  {
    TraceSound(validators, ns, es, k, k);
    TraceSound(validators, ns, es, k, l);
    var p, q := ns[k].nodes[i].final, ns[l].nodes[j].final;
    CertifiedGrows(validators, ns[k].cast, ns[l].cast, p);
    if p.height == q.height > 0 {
      CertifiedAgree(validators, faulty, ns[l].cast, p, q);
    }
  }

  // ----- one finalizer

  /** A vote arrives, with its write to disk succeeding or not, or the finalizer restarts. */
  datatype LocalStep = Counts(vote: Vote, persists: bool) | Restarts(readable: bool)

  function Local(validators: set<string>, s: State, e: LocalStep): State
  {
    match e
    case Counts(v, persists) => TallyVote(validators, s, v, persists)
    case Restarts(readable) => Restart(s, readable)
  }

  function LocalRun(validators: set<string>, s: State, es: seq<LocalStep>): State
    decreases |es|
  {
    if es == [] then s else LocalRun(validators, Local(validators, s, es[0]), es[1..])
  }

  predicate VotesOnly(es: seq<LocalStep>)
  {
    forall i :: 0 <= i < |es| ==> es[i].Counts?
  }

  // ----- order of arrival

  function ValidBallots(validators: set<string>, es: seq<LocalStep>): set<Ballot>
  {
    set e | e in es && e.Counts? && e.vote.validator in validators :: BallotOf(e.vote)
  }

  /** The finalized point is the loaded one or a quorum above it, and no quorum of the votes, which
      are all from validators, lies higher. */
  ghost predicate Greatest(validators: set<string>, loaded: Point, s: State)
  {
    && (s.final == loaded || (s.final.height > loaded.height && Quorum(validators, s.received, s.final)))
    && (forall p :: Quorum(validators, s.received, p) ==> p.height <= s.final.height)
    && (forall b :: b in s.received ==> b.validator in validators)
  }

  lemma TallyGreatest(validators: set<string>, loaded: Point, s: State, v: Vote, persists: bool)
    requires Greatest(validators, loaded, s)
    ensures Greatest(validators, loaded, TallyVote(validators, s, v, persists))
  {
    if v.validator in validators {
      var t := TallyVote(validators, s, v, persists);
      var r := s.received + {BallotOf(v)};
      assert t.received == r;
      forall p | Quorum(validators, r, p) ensures p.height <= t.final.height {
        if p != Point(v.height, v.hash) {
          assert Voters(r, p) == Voters(s.received, p);
          assert Quorum(validators, s.received, p);
        }
      }
      SubsetSize(Voters(s.received, s.final), Voters(r, s.final));
    }
  }

  /** Between restarts the finalized height is the maximum of the loaded one and the greatest height
      with a quorum, whatever becomes of the writes. */
  lemma {:induction false} TallyExact(validators: set<string>, loaded: Point, s: State, es: seq<LocalStep>)
    requires Greatest(validators, loaded, s) && VotesOnly(es)
    ensures var t := LocalRun(validators, s, es);
      Greatest(validators, loaded, t) && t.received == s.received + ValidBallots(validators, es)
    decreases |es|
  {
    if es != [] {
      var v, persists := es[0].vote, es[0].persists;
      TallyGreatest(validators, loaded, s, v, persists);
      TallyExact(validators, loaded, TallyVote(validators, s, v, persists), es[1..]);
      assert forall e :: e in es <==> e == es[0] || e in es[1..];
    }
  }

  lemma NoVotes(validators: set<string>, s: State)
    requires s.received == {}
    ensures Greatest(validators, s.final, s)
  {
  }

  /** Every state a finalizer can get to is of this form, for the point of its last restart. */
  lemma {:induction false} EveryRunIsGreatest(validators: set<string>, loaded: Point, s: State, es: seq<LocalStep>)
      returns (last: Point)
    requires Greatest(validators, loaded, s)
    ensures Greatest(validators, last, LocalRun(validators, s, es))
    decreases |es|
  {
    if es == [] {
      last := loaded;
    } else {
      match es[0]
      case Counts(v, persists) =>
        TallyGreatest(validators, loaded, s, v, persists);
        last := EveryRunIsGreatest(validators, loaded, Local(validators, s, es[0]), es[1..]);
      case Restarts(readable) =>
        var t := Restart(s, readable);
        NoVotes(validators, t);
        last := EveryRunIsGreatest(validators, t.final, t, es[1..]);
    }
  }

  /** Nodes whose last restart loaded the same point and that hold the same valid votes in the end,
      however many, in whatever order and with whatever writes, are at the same height and hash. */
  lemma OrderIndependence(validators: set<string>, faulty: set<string>, loaded: Point,
                          s: State, t: State, es: seq<LocalStep>, fs: seq<LocalStep>)
    requires Greatest(validators, loaded, s) && Greatest(validators, loaded, t) && VotesOnly(es) && VotesOnly(fs)
    requires s.received + ValidBallots(validators, es) == t.received + ValidBallots(validators, fs)
    requires Honest(faulty, s.received + ValidBallots(validators, es)) && 3 * |faulty| < |validators|
    ensures LocalRun(validators, s, es).final == LocalRun(validators, t, fs).final
  {
    TallyExact(validators, loaded, s, es);
    TallyExact(validators, loaded, t, fs);
    var x, y := LocalRun(validators, s, es), LocalRun(validators, t, fs);
    if x.final != loaded && y.final != loaded {
      QuorumIsCertified(validators, x.received, x.final);
      QuorumIsCertified(validators, x.received, y.final);
      CertifiedAgree(validators, faulty, x.received, x.final, y.final);
    }
  }

  lemma QuorumIsCertified(validators: set<string>, r: set<Ballot>, p: Point)
    requires Quorum(validators, r, p) && forall b :: b in r ==> b.validator in validators
    ensures Certified(validators, r, p)
  {
    assert Voters(r, p) * validators == Voters(r, p);
  }

  /** The threshold is the least count above two thirds, and the validators outside any smaller
      third reach it on their own. */
  lemma ThresholdExact(validators: set<string>, faulty: set<string>)
    requires faulty <= validators && 3 * |faulty| < |validators|
    ensures 3 * Threshold(validators) > 2 * |validators| >= 3 * (Threshold(validators) - 1)
    ensures |validators - faulty| >= Threshold(validators)
  {
  }

  /** If every validator outside `faulty` votes for a point and the votes arrive, in whatever order,
      whatever else arrives and whatever becomes of the writes, that height is finalized. */
  lemma HonestVotesFinalize(validators: set<string>, faulty: set<string>, loaded: Point, s: State,
                            es: seq<LocalStep>, p: Point)
    requires Greatest(validators, loaded, s) && VotesOnly(es)
    requires faulty <= validators && 3 * |faulty| < |validators|
    requires forall id :: id in validators - faulty ==>
      Ballot(p.height, p.hash, id) in s.received + ValidBallots(validators, es)
    ensures LocalRun(validators, s, es).final.height >= p.height
  {
    TallyExact(validators, loaded, s, es);
    ThresholdExact(validators, faulty);
    var r := s.received + ValidBallots(validators, es);
    forall id | id in validators - faulty ensures id in Voters(r, p) {
      assert Ballot(p.height, p.hash, id) in r;
    }
    SubsetSize(validators - faulty, Voters(r, p));
    assert Quorum(validators, r, p);
  }

  // ----- refusal

  /** Refused are the heights below the finalized one, and at it every hash but the finalized one; an
      empty hash matches any. */
  lemma RefusalExact(final: Point, h: nat, x: string)
    ensures Refuses(final, h, x) <==>
      0 < h <= final.height && (h == final.height ==> x != final.hash && "" !in {x, final.hash})
  {
  }

  /** Once refused, always refused until the next restart, whatever becomes of the writes. */
  lemma {:induction false} RefusalIsPermanent(validators: set<string>, s: State, es: seq<LocalStep>, h: nat, x: string)
    requires Refuses(s.final, h, x) && VotesOnly(es)
    ensures Refuses(LocalRun(validators, s, es).final, h, x)
    decreases |es|
  {
    if es != [] {
      RefusalIsPermanent(validators, Local(validators, s, es[0]), es[1..], h, x);
    }
  }

  /** No restart finds the state file unreadable. */
  predicate Readable(es: seq<LocalStep>)
  {
    Restarts(false) !in es
  }

  lemma {:induction false} SavedRefusalStays(validators: set<string>, s: State, es: seq<LocalStep>, h: nat, x: string)
    requires Refuses(s.final, h, x) && s.disk.Some? && Refuses(s.disk.value, h, x) && Readable(es)
    ensures Refuses(LocalRun(validators, s, es).final, h, x)
    decreases |es|
  {
    if es != [] {
      assert es[0] != Restarts(false);
      SavedRefusalStays(validators, Local(validators, s, es[0]), es[1..], h, x);
    }
  }

  /** A refusal is for good, over every run of votes and restarts with whatever writes, exactly when
      the point on disk refuses too. */
  lemma RefusalSurvivesRestarts(validators: set<string>, s: State, h: nat, x: string)
    requires Refuses(s.final, h, x)
    ensures (forall es :: Readable(es) ==> Refuses(LocalRun(validators, s, es).final, h, x)) <==>
      s.disk.Some? && Refuses(s.disk.value, h, x)
  {
    if s.disk.Some? && Refuses(s.disk.value, h, x) {
      forall es | Readable(es) ensures Refuses(LocalRun(validators, s, es).final, h, x) {
        SavedRefusalStays(validators, s, es, h, x);
      }
    } else {
      var restart := [Restarts(true)];
      assert Readable(restart) && restart[1..] == [];
      assert LocalRun(validators, s, restart) == Restart(s, true);
    }
  }

  // ----- what is on disk

  /** Vote `k` of the run finalized a point and its write succeeded. */
  predicate SavedAt(validators: set<string>, s: State, es: seq<LocalStep>, k: nat)
    requires k < |es|
  {
    && es[k].Counts? && es[k].persists
    && LocalRun(validators, s, es[..k + 1]).final != LocalRun(validators, s, es[..k]).final
  }

  ghost predicate LastSave(validators: set<string>, s: State, es: seq<LocalStep>, k: int)
  {
    0 <= k < |es| && SavedAt(validators, s, es, k) && forall j :: k < j < |es| ==> !SavedAt(validators, s, es, j)
  }

  lemma {:induction false} LocalRunLast(validators: set<string>, s: State, es: seq<LocalStep>)
    requires es != []
    ensures var n := |es| - 1;
      LocalRun(validators, s, es) == Local(validators, LocalRun(validators, s, es[..n]), es[n])
    decreases |es|
  {
    hide Local;
    var n := |es| - 1;
    if n > 0 {
      LocalRunLast(validators, Local(validators, s, es[0]), es[1..]);
      assert es[1..][..n - 1] == es[..n][1..];
    }
  }

  /** A vote writes exactly when it finalizes a point. */
  lemma StepSaves(validators: set<string>, s: State, e: LocalStep)
    ensures var t := Local(validators, s, e);
      t.disk == if e.Counts? && e.persists && t.final != s.final then Some(t.final) else s.disk
  {
  }

  /** Over every run of votes and restarts the point on disk is the last finalized point whose write
      succeeded, and the one the run started with if there is none. */
  lemma {:induction false} DiskIsLastSaved(validators: set<string>, s: State, es: seq<LocalStep>)
    ensures forall k :: LastSave(validators, s, es, k) ==>
      LocalRun(validators, s, es).disk == Some(LocalRun(validators, s, es[..k + 1]).final)
    ensures (forall k :: 0 <= k < |es| ==> !SavedAt(validators, s, es, k)) ==>
      LocalRun(validators, s, es).disk == s.disk
    decreases |es|
  {
    if es != [] {
      hide Local, LocalRun;
      var n := |es| - 1;
      var front := es[..n];
      DiskIsLastSaved(validators, s, front);
      LocalRunLast(validators, s, es);
      StepSaves(validators, LocalRun(validators, s, front), es[n]);
      assert es[..n + 1] == es;
      forall k | 0 <= k < n
        ensures SavedAt(validators, s, es, k) <==> SavedAt(validators, s, front, k)
        ensures LocalRun(validators, s, es[..k + 1]) == LocalRun(validators, s, front[..k + 1]) {
        assert front[..k] == es[..k] && front[..k + 1] == es[..k + 1];
      }
      forall k | LastSave(validators, s, es, k) && k < n ensures LastSave(validators, s, front, k) {
      }
      assert SavedAt(validators, s, es, n) <==>
        es[n].Counts? && es[n].persists && LocalRun(validators, s, es).final != LocalRun(validators, s, front).final;
    }
  }

  /** What is in memory is what a restart would load. */
  predicate InSync(s: State)
  {
    s.final == if s.disk.Some? then s.disk.value else START
  }

  /** Every write succeeds and every restart can read the state file. */
  predicate DiskWorks(es: seq<LocalStep>)
  {
    forall i :: 0 <= i < |es| ==> match es[i] case Counts(_, persists) => persists case Restarts(readable) => readable
  }

  /** With a working disk no run of votes and restarts ever lowers the finalized height or forgets a
      refusal. */
  lemma {:induction false} WorkingDiskNeverForgets(validators: set<string>, s: State, es: seq<LocalStep>, h: nat, x: string)
    requires InSync(s) && DiskWorks(es)
    ensures var t := LocalRun(validators, s, es);
      && InSync(t) && t.final.height >= s.final.height
      && (t.final.height == s.final.height ==> t.final == s.final)
      && (Refuses(s.final, h, x) ==> Refuses(t.final, h, x))
    decreases |es|
  {
    if es != [] {
      assert match es[0] case Counts(_, persists) => persists case Restarts(readable) => readable;
      WorkingDiskNeverForgets(validators, Local(validators, s, es[0]), es[1..], h, x);
    }
  }

  /** With one validator and a disk write that failed, a refusal is forgotten by the next restart. */
  lemma UnsavedPointIsForgotten()
    ensures var s := TallyVote({"v"}, State({}, START, None), Vote(5, 0, "x", "v"), false);
      Refuses(s.final, 5, "y") && !Refuses(Restart(s, true).final, 5, "y")
  {
    var p := Point(5, "x");
    assert Voters({Ballot(5, "x", "v")}, p) == {"v"};
    assert {} + {Ballot(5, "x", "v")} == {Ballot(5, "x", "v")};
  }
}
