/**
 The scan that turns the local DAG into commit picks: it walks leader rounds in order, commits, skips
 or resolves each, and stops at the first round that is still open.
 */
module WaveScan {
  import opened Seqs
  import opened Dag
  import opened Wave
  import opened Projection

  const COMMIT_ABSENCE_ROUNDS: nat := 4
  const MAX_WAVE_PICKS_PER_CYCLE: nat := 8

  datatype Pick = Pick(leader: Hash, round: nat, projection: seq<Hash>)

  function FirstBy(vertices: Vertices, hs: seq<Hash>, author: Author): (r: Option<Hash>)
    ensures r.Some? ==> r.value in hs && r.value in vertices && vertices[r.value].author == author
    ensures r.None? ==> forall h :: h in hs && h in vertices ==> vertices[h].author != author
  {
    if hs == [] then None
    else if hs[0] in vertices && vertices[hs[0]].author == author then Some(hs[0])
    else FirstBy(vertices, hs[1..], author)
  }

  function ScheduledAuthor(validators: seq<Author>, round: nat): Author
    requires validators != []
  {
    validators[round % |validators|]
  }

  /** Leaders take turns: in every cycle of rounds the validators lead in the order of the list. */
  lemma LeadersTakeTurns(validators: seq<Author>, cycle: nat, k: nat)
    requires k < |validators|
    ensures ScheduledAuthor(validators, cycle * |validators| + k) == validators[k]
  {
    var n := |validators|;
    var round := cycle * n + k;
    SameRemainder(n, cycle, k, round / n, round % n);
  }

  lemma SameRemainder(n: nat, q: int, k: nat, m: int, t: nat)
    requires q * n + k == m * n + t && k < n && t < n
    ensures k == t
  {
    assert (q - m) * n == q * n - m * n;
    if q > m {
      AtLeastOneCycle(n, q - m);
    } else if m > q {
      AtLeastOneCycle(n, m - q);
    }
  }

  lemma AtLeastOneCycle(n: nat, cycles: int)
    requires cycles >= 1
    ensures cycles * n >= n
  {
  }

  /** The scheduled leader's vertex of a round, if the DAG holds it. */
  function LeaderAt(d: Dag, validators: seq<Author>, round: nat): Option<Hash>
    requires validators != []
  {
    FirstBy(d.vertices, RoundVertices(d, round), ScheduledAuthor(validators, round))
  }

  ghost function PickedSet(picks: seq<Pick>): set<Hash>
  {
    if picks == [] then {}
    else PickedSet(picks[..|picks| - 1]) + Elements(picks[|picks| - 1].projection)
  }

  ghost predicate LeaderCommits(d: Dag, validators: seq<Author>, round: nat)
    requires validators != [] && ValidDag(d)
  {
    LeaderAt(d, validators, round).Some? && Commits(d, LeaderAt(d, validators, round).value, round, |validators|)
  }

  /** The first committing wave from round `round + 3` on. */
  ghost predicate FirstLaterCommit(d: Dag, validators: seq<Author>, round: nat, anchor: nat)
    requires validators != [] && ValidDag(d)
  {
    && round + 3 <= anchor <= MaxRound(d) && LeaderCommits(d, validators, anchor)
    && NoCommitIn(d, validators, round + 3, anchor)
  }

  ghost predicate NoCommitIn(d: Dag, validators: seq<Author>, first: nat, end: nat)
    requires validators != [] && ValidDag(d)
  {
    forall r :: first <= r < end ==> !LeaderCommits(d, validators, r)
  }

  lemma NoCommitUpTo(d: Dag, validators: seq<Author>, first: nat, end: nat)
    requires validators != [] && ValidDag(d) && NoCommitIn(d, validators, first, end)
    ensures !LeaderCommits(d, validators, end) ==> NoCommitIn(d, validators, first, end + 1)
  {
  }

  lemma NoLaterCommit(d: Dag, validators: seq<Author>, round: nat, end: nat)
    requires validators != [] && ValidDag(d) && NoCommitIn(d, validators, round + 3, end) && end > MaxRound(d)
    ensures forall anchor :: !FirstLaterCommit(d, validators, round, anchor)
  {
  }

  /** That wave, with its whole uncommitted history at hand. */
  ghost predicate LaterAnchor(d: Dag, validators: seq<Author>, committed: set<Hash>, round: nat, anchor: nat)
    requires validators != [] && ValidDag(d)
  {
    && FirstLaterCommit(d, validators, round, anchor)
    && forall g :: !Gap(d, [LeaderAt(d, validators, anchor).value], committed, g)
  }

  /** How a round below the scan position was settled, given what was committed or picked by then. */
  ghost predicate Resolved(d: Dag, validators: seq<Author>, committed: set<Hash>, covered: set<Hash>, round: nat)
    requires validators != [] && ValidDag(d)
  {
    match LeaderAt(d, validators, round)
    case None => MaxRound(d) >= round + COMMIT_ABSENCE_ROUNDS + 2
    case Some(leader) =>
      || leader in covered
      || (!Commits(d, leader, round, |validators|) && Skips(d, leader, round, |validators|))
      || (&& !Commits(d, leader, round, |validators|) && !Skips(d, leader, round, |validators|)
          && exists anchor :: LaterAnchor(d, validators, committed, round, anchor))
  }

  /** The picks of rounds up to `round`. */
  ghost function UpTo(picks: seq<Pick>, round: nat): seq<Pick>
  {
    Filter((p: Pick) => p.round <= round, picks)
  }

  ghost predicate SettledBy(d: Dag, validators: seq<Author>, committed: set<Hash>, picks: seq<Pick>, round: nat)
    requires validators != [] && ValidDag(d)
  {
    Resolved(d, validators, committed, committed + PickedSet(UpTo(picks, round)), round)
  }

  /** Why a scan may stop: the round is neither settled nor settleable from this DAG. */
  ghost predicate Open(d: Dag, validators: seq<Author>, committed: set<Hash>, covered: set<Hash>, round: nat)
    requires validators != [] && ValidDag(d)
  {
    match LeaderAt(d, validators, round)
    case None => MaxRound(d) < round + COMMIT_ABSENCE_ROUNDS + 2
    case Some(leader) =>
      && leader !in committed
      && if Commits(d, leader, round, |validators|) then
           exists g :: Gap(d, [leader], covered, g)
         else
           && !Skips(d, leader, round, |validators|)
           && forall anchor :: !LaterAnchor(d, validators, committed, round, anchor)
  }

  /** A committed leader with the canonical projection of everything it adds to `covered`. */
  ghost predicate PickOk(d: Dag, validators: seq<Author>, committed: set<Hash>, covered: set<Hash>, pick: Pick)
    requires validators != [] && ValidDag(d)
  {
    && LeaderAt(d, validators, pick.round) == Some(pick.leader)
    && Commits(d, pick.leader, pick.round, |validators|)
    && pick.leader !in committed
    && pick.projection != []
    && Canonical(d.vertices, pick.projection)
    && Elements(pick.projection) == Uncommitted(d, [pick.leader], covered)
    && forall g :: !Gap(d, [pick.leader], covered, g)
  }

  ghost predicate PicksOk(d: Dag, validators: seq<Author>, committed: set<Hash>, picks: seq<Pick>)
    requires validators != [] && ValidDag(d)
  {
    && |picks| <= MAX_WAVE_PICKS_PER_CYCLE
    && (forall k :: 0 <= k < |picks| ==> PickOk(d, validators, committed, committed + PickedSet(picks[..k]), picks[k]))
    && (forall i, j :: 0 <= i < j < |picks| ==> picks[i].round < picks[j].round)
  }

  method CommittingLeader(d: Dag, validators: seq<Author>, round: nat) returns (leader: Option<Hash>)
    requires validators != [] && ValidDag(d) && round <= MaxRound(d)
    ensures leader.Some? <==> LeaderCommits(d, validators, round)
    ensures leader.Some? ==> leader == LeaderAt(d, validators, round)
  {
    match LeaderAt(d, validators, round) {
      case None => return None;
      case Some(candidate) =>
        var outcome := EvaluateLeaderWave(d, candidate, round, |validators|);
        return if outcome.Commit? then Some(candidate) else None;
    }
  }

  method FindLaterCommit(d: Dag, validators: seq<Author>, round: nat) returns (later: Option<(Hash, nat)>)
    requires validators != [] && ValidDag(d)
    ensures later.Some? ==> FirstLaterCommit(d, validators, round, later.value.1)
                            && LeaderAt(d, validators, later.value.1) == Some(later.value.0)
    ensures later.None? ==> forall anchor :: !FirstLaterCommit(d, validators, round, anchor)
    ensures later.Some? ==>
              && round + 3 <= later.value.1 <= MaxRound(d) && LeaderCommits(d, validators, later.value.1)
              && forall q :: round + 3 <= q < later.value.1 ==> !LeaderCommits(d, validators, q)
    ensures later.None? ==> forall q :: round + 3 <= q <= MaxRound(d) ==> !LeaderCommits(d, validators, q)
  {
    var r2 := round + 3;
    while r2 <= MaxRound(d)
      invariant round + 3 <= r2
      invariant NoCommitIn(d, validators, round + 3, r2)
    {
      var candidate := CommittingLeader(d, validators, r2);
      if candidate.Some? {
        return Some((candidate.value, r2));
      }
      NoCommitUpTo(d, validators, round + 3, r2);
      r2 := r2 + 1;
    }
    NoLaterCommit(d, validators, round, r2);
    return None;
  }

  datatype Settlement = Advance | Take(projection: seq<Hash>) | Stop(repair: bool)

  /** An undecided round waits, unless a later wave already commits and its history is complete. */
  method SettleUndecided(d: Dag, validators: seq<Author>, committed: set<Hash>, ghost scanCommitted: set<Hash>, r: nat)
    returns (s: Settlement)
    requires validators != [] && ValidDag(d) && r <= MaxRound(d)
    requires Undecidable(d, validators, committed, r)
    ensures s.Advance? ==> Resolved(d, validators, committed, scanCommitted, r)
    ensures !s.Take?
    ensures s.Stop? ==> Open(d, validators, committed, scanCommitted, r)
    ensures s.Stop? ==> (!s.repair <==> YoungAndQuiet(d, validators, r))
    ensures s == Advance <==> exists anchor :: LaterAnchor(d, validators, committed, r, anchor)
    ensures s == Stop(false) <==>
            MaxRound(d) < r + 6 && forall q :: r + 3 <= q <= MaxRound(d) ==> !LeaderCommits(d, validators, q)
  {
    var later := FindLaterCommit(d, validators, r);
    match later {
      case None =>
        return Stop(MaxRound(d) - r >= COMMIT_ABSENCE_ROUNDS + 2);
      case Some(found) =>
        var attempt := AttemptCommitProjection(d, [found.0], committed, found.1);
        if attempt.missing != {} {
          var e :| e in attempt.missing;
          assert Gap(d, [found.0], committed, e.0);
          LaterCommitIsFirst(d, validators, committed, r, found.1);
          return Stop(true);
        }
        assert LaterAnchor(d, validators, committed, r, found.1);
        return Advance;
    }
  }

  /** The first later commit is one round only; with a gap in its history no anchor exists. */
  lemma LaterCommitIsFirst(d: Dag, validators: seq<Author>, committed: set<Hash>, r: nat, anchor: nat)
    requires validators != [] && ValidDag(d)
    requires FirstLaterCommit(d, validators, r, anchor)
    requires exists g :: Gap(d, [LeaderAt(d, validators, anchor).value], committed, g)
    ensures forall other :: !LaterAnchor(d, validators, committed, r, other)
  {
    forall other | FirstLaterCommit(d, validators, r, other) ensures other == anchor {
    }
  }

  ghost predicate Undecidable(d: Dag, validators: seq<Author>, committed: set<Hash>, r: nat)
    requires validators != [] && ValidDag(d)
  {
    && LeaderAt(d, validators, r).Some?
    && LeaderAt(d, validators, r).value !in committed
    && !Commits(d, LeaderAt(d, validators, r).value, r, |validators|)
    && !Skips(d, LeaderAt(d, validators, r).value, r, |validators|)
  }

  /** Nothing later commits and the frontier is still near: the only stop that asks for no repair. */
  ghost predicate YoungAndQuiet(d: Dag, validators: seq<Author>, r: nat)
    requires validators != [] && ValidDag(d)
  {
    (forall anchor :: !FirstLaterCommit(d, validators, r, anchor)) && MaxRound(d) < r + COMMIT_ABSENCE_ROUNDS + 2
  }

  /** Every open round asks for missing vertices, except an undecided one that is still young. */
  ghost predicate RepairDue(d: Dag, validators: seq<Author>, committed: set<Hash>, r: nat)
    requires validators != [] && ValidDag(d)
  {
    !(Undecidable(d, validators, committed, r) && YoungAndQuiet(d, validators, r))
  }

  /**
   One round of the scan: take its projection, move on, or stop. A stop asks for repair except while
   an undecided wave is still young.
   */
  method SettleRound(d: Dag, validators: seq<Author>, committed: set<Hash>, scanCommitted: set<Hash>, r: nat)
    returns (s: Settlement)
    requires validators != [] && ValidDag(d) && r <= MaxRound(d)
    requires committed <= scanCommitted
    ensures s.Advance? ==> Resolved(d, validators, committed, scanCommitted, r)
    ensures s.Take? ==> LeaderAt(d, validators, r).Some?
                        && PickOk(d, validators, committed, scanCommitted,
                            Pick(LeaderAt(d, validators, r).value, r, s.projection))
    ensures s.Stop? ==> Open(d, validators, committed, scanCommitted, r)
    ensures s.Stop? ==> (s.repair <==> RepairDue(d, validators, committed, r))
    ensures LeaderAt(d, validators, r).None? ==> s == if MaxRound(d) >= r + 6 then Advance else Stop(true)
    ensures LeaderAt(d, validators, r).Some? ==>
              var leader := LeaderAt(d, validators, r).value;
              && (leader in committed ==> s == Advance)
              && (leader !in committed && Commits(d, leader, r, |validators|) ==>
                  && (s == Stop(true) <==> exists g :: Gap(d, [leader], scanCommitted, g))
                  && (s == Advance ==> leader in scanCommitted))
              && (leader !in committed && !Commits(d, leader, r, |validators|) && Skips(d, leader, r, |validators|) ==>
                  s == Advance)
    ensures Undecidable(d, validators, committed, r) ==>
              && (s == Advance <==> exists anchor :: LaterAnchor(d, validators, committed, r, anchor))
              && (s == Stop(false) <==>
                  MaxRound(d) < r + 6 && forall q :: r + 3 <= q <= MaxRound(d) ==> !LeaderCommits(d, validators, q))
  {
    match LeaderAt(d, validators, r) {
      case None =>
        if MaxRound(d) - r >= COMMIT_ABSENCE_ROUNDS + 2 {
          return Advance;
        }
        return Stop(true);
      case Some(leader) =>
        if leader in committed {
          return Advance;
        }
        var outcome := EvaluateLeaderWave(d, leader, r, |validators|);
        match outcome {
          case Commit(_, _) =>
            var attempt := AttemptCommitProjection(d, [leader], scanCommitted, r);
            if attempt.missing != {} {
              var e :| e in attempt.missing;
              assert Gap(d, [leader], scanCommitted, e.0);
              return Stop(true);
            }
            if attempt.ordered == [] {
              EmptyProjectionIsCovered(d, leader, r, scanCommitted);
              return Advance;
            }
            return Take(attempt.ordered);
          case Skip => return Advance;
          case Undecided =>
            s := SettleUndecided(d, validators, committed, scanCommitted, r);
        }
    }
  }

  /** An empty projection means the leader itself is already covered. */
  lemma EmptyProjectionIsCovered(d: Dag, leader: Hash, round: nat, covered: set<Hash>)
    requires leader in d.vertices && Uncommitted(d, [leader], covered) == {}
    ensures leader in covered
  {
    ReachesSelf(d.vertices, covered, leader);
    assert leader in [leader];
    assert Met(d.vertices, [leader], covered, leader);
    assert leader !in Uncommitted(d, [leader], covered);
  }

  ghost predicate AllSettled(
    d: Dag, validators: seq<Author>, committed: set<Hash>, picks: seq<Pick>, start: nat, end: nat)
    requires validators != [] && ValidDag(d)
  {
    forall k :: start <= k < end ==> SettledBy(d, validators, committed, picks, k)
  }

  lemma AllSettledSnoc(d: Dag, validators: seq<Author>, committed: set<Hash>, picks: seq<Pick>, start: nat, end: nat)
    requires validators != [] && ValidDag(d)
    requires AllSettled(d, validators, committed, picks, start, end) && SettledBy(d, validators, committed, picks, end)
    ensures AllSettled(d, validators, committed, picks, start, end + 1)
  {
  }

  lemma PickKeepsSettled(
    d: Dag, validators: seq<Author>, committed: set<Hash>, picks: seq<Pick>, pick: Pick, start: nat)
    requires validators != [] && ValidDag(d)
    requires AllSettled(d, validators, committed, picks, start, pick.round)
    ensures AllSettled(d, validators, committed, picks + [pick], start, pick.round)
  {
    forall k | start <= k < pick.round ensures SettledBy(d, validators, committed, picks + [pick], k) {
      EarlierRoundSettled(d, validators, committed, picks, pick, k);
    }
  }

  /** What the scan keeps from round to round. */
  ghost predicate ScanInv(d: Dag, validators: seq<Author>, committed: set<Hash>, start: nat, r: nat, picks: seq<Pick>)
    requires validators != [] && ValidDag(d)
  {
    && start <= r
    && PicksOk(d, validators, committed, picks)
    && PicksWithin(picks, start, MaxRound(d), r)
    && AllSettled(d, validators, committed, picks, start, r)
  }

  ghost predicate PicksWithin(picks: seq<Pick>, start: nat, top: nat, r: nat)
  {
    forall k :: 0 <= k < |picks| ==> start <= picks[k].round <= top && picks[k].round <= r
  }

  ghost predicate PicksBelow(picks: seq<Pick>, r: nat)
  {
    forall k :: 0 <= k < |picks| ==> picks[k].round < r
  }

  ghost predicate Scanning(
    d: Dag, validators: seq<Author>, committed: set<Hash>, start: nat, r: nat, picks: seq<Pick>, stopped: bool)
    requires validators != [] && ValidDag(d)
  {
    && ScanInv(d, validators, committed, start, r, picks)
    && (!stopped ==> |picks| < MAX_WAVE_PICKS_PER_CYCLE && PicksBelow(picks, r))
    && (stopped && |picks| < MAX_WAVE_PICKS_PER_CYCLE ==>
        Open(d, validators, committed, committed + PickedSet(picks), r))
  }

  method ScanRound(
    d: Dag, validators: seq<Author>, committed: set<Hash>, ghost start: nat, r: nat, picks: seq<Pick>,
    scanCommitted: set<Hash>)
    returns (picks': seq<Pick>, r': nat, scanCommitted': set<Hash>, stopped: bool, repair: bool)
    requires validators != [] && ValidDag(d) && r <= MaxRound(d)
    requires scanCommitted == committed + PickedSet(picks)
    requires Scanning(d, validators, committed, start, r, picks, false)
    ensures scanCommitted' == committed + PickedSet(picks')
    ensures Scanning(d, validators, committed, start, r', picks', stopped)
    ensures if stopped then r' == r else r' == r + 1
    ensures repair <==> stopped && |picks'| < MAX_WAVE_PICKS_PER_CYCLE && RepairDue(d, validators, committed, r')
  {
    picks', r', scanCommitted', stopped, repair := picks, r, scanCommitted, false, false;
    var s := SettleRound(d, validators, committed, scanCommitted, r);
    match s {
      case Advance =>
        AdvanceKeepsScan(d, validators, committed, start, r, picks);
        r' := r + 1;
      case Stop(wantsRepair) =>
        stopped, repair := true, wantsRepair;
      case Take(projection) =>
        var pick := Pick(LeaderAt(d, validators, r).value, r, projection);
        TakeKeepsScan(d, validators, committed, start, picks, pick);
        PickedSetSnoc(picks, pick);
        picks' := picks + [pick];
        scanCommitted' := scanCommitted + Elements(projection);
        if |picks'| >= MAX_WAVE_PICKS_PER_CYCLE {
          stopped := true;
        } else {
          r' := r + 1;
        }
    }
  }

  method ScanWaves(d: Dag, validators: seq<Author>, committed: set<Hash>, scanFrom: nat)
    returns (picks: seq<Pick>, cursor: nat, stoppedAt: nat, repair: bool)
    requires validators != [] && ValidDag(d)
    ensures ScanInv(d, validators, committed, if scanFrom < 1 then 1 else scanFrom, stoppedAt, picks)
    ensures |picks| <= 8
    ensures scanFrom <= cursor
    ensures picks != [] ==> cursor == picks[0].round <= stoppedAt
    ensures picks == [] ==> cursor == stoppedAt
    ensures |picks| < 8 && stoppedAt <= MaxRound(d) ==>
              Open(d, validators, committed, committed + PickedSet(picks), stoppedAt)
    ensures repair <==> |picks| < MAX_WAVE_PICKS_PER_CYCLE && stoppedAt <= MaxRound(d)
                        && RepairDue(d, validators, committed, stoppedAt)
  {
    var start := if scanFrom < 1 then 1 else scanFrom;
    var r := start;
    var scanCommitted := committed;
    var stopped := false;
    picks, repair := [], false;
    while r <= MaxRound(d) && !stopped
      invariant scanCommitted == committed + PickedSet(picks)
      invariant Scanning(d, validators, committed, start, r, picks, stopped)
      invariant stopped ==> r <= MaxRound(d)
      invariant repair <==> stopped && |picks| < MAX_WAVE_PICKS_PER_CYCLE && RepairDue(d, validators, committed, r)
      decreases MaxRound(d) + 1 - r, !stopped
    {
      picks, r, scanCommitted, stopped, repair := ScanRound(d, validators, committed, start, r, picks, scanCommitted);
    }
    stoppedAt := r;
    var position := if picks != [] then picks[0].round else r;
    cursor := if position > scanFrom then position else scanFrom;
  }

  lemma AdvanceKeepsScan(d: Dag, validators: seq<Author>, committed: set<Hash>, start: nat, r: nat, picks: seq<Pick>)
    requires validators != [] && ValidDag(d)
    requires Scanning(d, validators, committed, start, r, picks, false)
    requires Resolved(d, validators, committed, committed + PickedSet(picks), r)
    ensures Scanning(d, validators, committed, start, r + 1, picks, false)
  {
    RoundSettled(d, validators, committed, picks, r);
    AllSettledSnoc(d, validators, committed, picks, start, r);
  }

  lemma RoundSettled(d: Dag, validators: seq<Author>, committed: set<Hash>, picks: seq<Pick>, r: nat)
    requires validators != [] && ValidDag(d) && PicksBelow(picks, r)
    requires Resolved(d, validators, committed, committed + PickedSet(picks), r)
    ensures SettledBy(d, validators, committed, picks, r)
  {
    AllUpTo(picks, r);
  }

  lemma AllUpTo(picks: seq<Pick>, round: nat)
    requires forall k :: 0 <= k < |picks| ==> picks[k].round <= round
    ensures UpTo(picks, round) == picks
  {
    FilterAll((p: Pick) => p.round <= round, picks);
  }

  lemma UpToEarlier(picks: seq<Pick>, pick: Pick, round: nat)
    requires round < pick.round
    ensures UpTo(picks + [pick], round) == UpTo(picks, round)
  {
    FilterConcat((p: Pick) => p.round <= round, picks, [pick]);
  }

  lemma TakeKeepsScan(d: Dag, validators: seq<Author>, committed: set<Hash>, start: nat, picks: seq<Pick>, pick: Pick)
    requires validators != [] && ValidDag(d)
    requires Scanning(d, validators, committed, start, pick.round, picks, false) && pick.round <= MaxRound(d)
    requires PickOk(d, validators, committed, committed + PickedSet(picks), pick)
    ensures |picks| + 1 == MAX_WAVE_PICKS_PER_CYCLE ==>
              Scanning(d, validators, committed, start, pick.round, picks + [pick], true)
    ensures |picks| + 1 < MAX_WAVE_PICKS_PER_CYCLE ==>
              Scanning(d, validators, committed, start, pick.round + 1, picks + [pick], false)
  {
    if |picks| + 1 == MAX_WAVE_PICKS_PER_CYCLE {
      TakeKeepsScanInv(d, validators, committed, start, pick.round, picks, pick);
    } else {
      TakeKeepsScanInv(d, validators, committed, start, pick.round + 1, picks, pick);
    }
  }

  lemma PickedSetSnoc(picks: seq<Pick>, pick: Pick)
    ensures PickedSet(picks + [pick]) == PickedSet(picks) + Elements(pick.projection)
  {
    assert (picks + [pick])[..|picks|] == picks;
  }

  lemma TakeKeepsScanInv(
    d: Dag, validators: seq<Author>, committed: set<Hash>, start: nat, r: nat, picks: seq<Pick>, pick: Pick)
    requires validators != [] && ValidDag(d)
    requires ScanInv(d, validators, committed, start, pick.round, picks) && PicksBelow(picks, pick.round)
    requires |picks| < MAX_WAVE_PICKS_PER_CYCLE && pick.round <= MaxRound(d)
    requires PickOk(d, validators, committed, committed + PickedSet(picks), pick)
    requires pick.round <= r <= pick.round + 1
    ensures ScanInv(d, validators, committed, start, r, picks + [pick])
    ensures PicksBelow(picks + [pick], pick.round + 1)
  {
    TakeKeepsPicks(d, validators, committed, picks, pick);
    TakeKeepsSettled(d, validators, committed, picks, pick, start, r);
    TakeKeepsBounds(picks, pick, start, MaxRound(d), r);
  }

  lemma TakeKeepsBounds(picks: seq<Pick>, pick: Pick, start: nat, top: nat, r: nat)
    requires PicksWithin(picks, start, top, pick.round) && PicksBelow(picks, pick.round)
    requires start <= pick.round <= top && pick.round <= r
    ensures PicksWithin(picks + [pick], start, top, r) && PicksBelow(picks + [pick], pick.round + 1)
  {
  }

  lemma TakeKeepsSettled(
    d: Dag, validators: seq<Author>, committed: set<Hash>, picks: seq<Pick>, pick: Pick, start: nat, r: nat)
    requires validators != [] && ValidDag(d)
    requires AllSettled(d, validators, committed, picks, start, pick.round) && PicksBelow(picks, pick.round)
    requires PickOk(d, validators, committed, committed + PickedSet(picks), pick)
    requires pick.round <= r <= pick.round + 1
    ensures AllSettled(d, validators, committed, picks + [pick], start, r)
  {
    PickKeepsSettled(d, validators, committed, picks, pick, start);
    PickedRoundSettled(d, validators, committed, picks, pick);
    AllSettledSnoc(d, validators, committed, picks + [pick], start, pick.round);
  }

  lemma EarlierRoundSettled(
    d: Dag, validators: seq<Author>, committed: set<Hash>, picks: seq<Pick>, pick: Pick, round: nat)
    requires validators != [] && ValidDag(d) && round < pick.round
    requires SettledBy(d, validators, committed, picks, round)
    ensures SettledBy(d, validators, committed, picks + [pick], round)
  {
    UpToEarlier(picks, pick, round);
  }

  lemma PickedRoundSettled(d: Dag, validators: seq<Author>, committed: set<Hash>, picks: seq<Pick>, pick: Pick)
    requires validators != [] && ValidDag(d) && PicksBelow(picks, pick.round)
    requires PickOk(d, validators, committed, committed + PickedSet(picks), pick)
    ensures SettledBy(d, validators, committed, picks + [pick], pick.round)
  {
    AllUpTo(picks + [pick], pick.round);
    PickedSetSnoc(picks, pick);
    TakenLeaderIsProjected(d, pick.leader, committed + PickedSet(picks), pick.projection);
  }

  lemma TakeKeepsPicks(d: Dag, validators: seq<Author>, committed: set<Hash>, picks: seq<Pick>, pick: Pick)
    requires validators != [] && ValidDag(d)
    requires PicksOk(d, validators, committed, picks) && PicksBelow(picks, pick.round)
    requires |picks| < MAX_WAVE_PICKS_PER_CYCLE
    requires PickOk(d, validators, committed, committed + PickedSet(picks), pick)
    ensures PicksOk(d, validators, committed, picks + [pick])
  {
    forall k | 0 <= k < |picks| + 1
      ensures PickOk(d, validators, committed, committed + PickedSet((picks + [pick])[..k]), (picks + [pick])[k])
    {
      GrownPrefix(picks, pick, k);
    }
  }

  lemma GrownPrefix(picks: seq<Pick>, pick: Pick, k: nat)
    requires k <= |picks|
    ensures (picks + [pick])[..k] == picks[..k]
    ensures (picks + [pick])[k] == if k < |picks| then picks[k] else pick
    ensures picks[..|picks|] == picks
  {
  }

  lemma TakenLeaderIsProjected(d: Dag, leader: Hash, covered: set<Hash>, projection: seq<Hash>)
    requires leader in d.vertices && projection != [] && Elements(projection) == Uncommitted(d, [leader], covered)
    ensures leader in Elements(projection)
  {
    ReachesSelf(d.vertices, covered, leader);
    assert leader in [leader];
    assert Met(d.vertices, [leader], covered, leader);
    assert projection[0] in Elements(projection);
    var h := projection[0];
    var root :| root in [leader] && Reaches(d.vertices, covered, root, h);
    var path :| |path| >= 1 && path[0] == root && path[|path| - 1] == h && Walk(d.vertices, covered, path);
    assert |path| > 1 ==> path[0] !in covered;
  }

  // ----- what the picks of a scan are

  lemma {:induction false} PickedSetMember(picks: seq<Pick>, h: Hash)
    ensures h in PickedSet(picks) <==> exists k :: 0 <= k < |picks| && h in picks[k].projection
  {
    if picks != [] {
      var before, last := picks[..|picks| - 1], picks[|picks| - 1];
      PickedSetMember(before, h);
      if h in PickedSet(before) {
        var k :| 0 <= k < |before| && h in before[k].projection;
        assert picks[k] == before[k];
      }
      if k :| 0 <= k < |picks| && h in picks[k].projection {
        assert k < |before| ==> before[k] == picks[k];
      }
    }
  }

  /** No vertex is picked twice in a cycle, and none that is already committed. */
  lemma PicksDisjoint(d: Dag, validators: seq<Author>, committed: set<Hash>, picks: seq<Pick>, i: nat, j: nat)
    requires validators != [] && ValidDag(d) && PicksOk(d, validators, committed, picks)
    requires i < j < |picks|
    ensures Elements(picks[i].projection) !! Elements(picks[j].projection)
    ensures Elements(picks[i].projection) !! committed && Elements(picks[j].projection) !! committed
  {
    forall h | h in Elements(picks[i].projection) ensures h !in Elements(picks[j].projection) {
      assert picks[..j][i] == picks[i];
      PickedSetMember(picks[..j], h);
    }
  }

  // ----- agreement between two validators' scans

  /** A walk to a vertex outside an ancestor-closed set never passes through the set. */
  lemma {:induction false} WalkAvoidsClosed(universe: Vertices, committed: set<Hash>, path: seq<Hash>)
    requires AncestorClosed(universe, committed)
    requires |path| >= 1 && Walk(universe, {}, path) && path[|path| - 1] !in committed
    ensures Walk(universe, committed, path)
  {
    if |path| > 1 {
      var tail := path[1..];
      assert Walk(universe, {}, tail) by {
        forall k | 0 <= k < |tail| - 1
          ensures tail[k] in universe && tail[k] !in {} && tail[k + 1] in universe[tail[k]].parents
        {
          assert path[k + 1] in universe && path[k + 1] !in {} && path[(k + 1) + 1] in universe[path[k + 1]].parents;
        }
      }
      WalkAvoidsClosed(universe, committed, tail);
      assert path[0] in universe && path[0] !in {} && path[0 + 1] in universe[path[0]].parents;
      assert path[1] !in committed by {
        if |tail| > 1 {
          assert tail[0] !in committed;
        }
      }
      forall k | 0 <= k < |path| - 1
        ensures path[k] in universe && path[k] !in committed && path[k + 1] in universe[path[k]].parents
      {
        if k > 0 {
          assert tail[k - 1] in universe && tail[k - 1] !in committed &&
              tail[(k - 1) + 1] in universe[tail[k - 1]].parents;
        }
      }
    }
  }

  /** The local DAG holds the parents of whatever it holds, except below what is committed. */
  ghost predicate ParentsAtHand(d: Dag, committed: set<Hash>)
  {
    forall h, p :: h in d.vertices && h !in committed && p in d.vertices[h].parents ==>
        p in d.vertices || p in committed
  }

  /** A leader committed anywhere is in every sufficiently advanced view, or already committed there. */
  lemma CommittedLeaderIsAtHand(
    c: Committee, universe: Vertices, d1: Dag, d2: Dag, leader: Hash, round: nat, committed2: set<Hash>)
    requires ValidCommittee(c) && AdmittedUniverse(c, universe) && LocalView(universe, d1) && LocalView(universe, d2)
    requires Commits(d1, leader, round, |c.validators|)
    requires AncestorClosed(universe, committed2) && ParentsAtHand(d2, committed2)
    requires MaxRound(d2) >= round + 2
    ensures leader in d2.vertices || leader in committed2
  {
    if leader !in committed2 {
      var top := TopVertex(d2);
      CommittedLeaderIsRemembered(c, universe, d1, leader, round, top);
      var path :| |path| >= 1 && path[0] == top && path[|path| - 1] == leader && Walk(universe, {}, path);
      WalkAvoidsClosed(universe, committed2, path);
      WalkEndsAtHand(universe, d2, committed2, path);
    }
  }

  lemma TopVertex(d: Dag) returns (top: Hash)
    requires ValidDag(d) && MaxRound(d) > 0
    ensures top in d.vertices && d.vertices[top].round == MaxRound(d)
  {
    top := d.rounds[MaxRound(d)][0];
    assert top in d.rounds[MaxRound(d)];
  }

  /** A walk that starts in the local DAG and avoids committed vertices stays in the local DAG. */
  lemma WalkEndsAtHand(universe: Vertices, d: Dag, committed: set<Hash>, path: seq<Hash>)
    requires PartOf(universe, d) && ParentsAtHand(d, committed)
    requires |path| >= 1 && path[0] in d.vertices && Walk(universe, committed, path)
    ensures path[|path| - 1] in d.vertices || path[|path| - 1] in committed
  {
    WalkStaysLocal(universe, d, committed, path);
    if |path| > 1 {
      var n := |path| - 2;
      assert path[n] in d.vertices && path[n] !in committed && path[n + 1] in d.vertices[path[n]].parents;
    }
  }

  lemma {:induction false} WalkStaysLocal(universe: Vertices, d: Dag, committed: set<Hash>, path: seq<Hash>)
    requires PartOf(universe, d) && ParentsAtHand(d, committed)
    requires |path| >= 1 && path[0] in d.vertices && Walk(universe, committed, path)
    ensures Walk(d.vertices, committed, path)
  {
    if |path| > 1 {
      var shorter := path[..|path| - 1];
      assert Walk(universe, committed, shorter) by {
        forall k | 0 <= k < |shorter| - 1
          ensures shorter[k] in universe && shorter[k] !in committed && shorter[k + 1] in universe[shorter[k]].parents
        {
          assert path[k] in universe && path[k] !in committed && path[k + 1] in universe[path[k]].parents;
        }
      }
      WalkStaysLocal(universe, d, committed, shorter);
      var n := |path| - 2;
      assert path[n] in universe && path[n] !in committed && path[n + 1] in universe[path[n]].parents;
      if n > 0 {
        assert shorter[n - 1] in d.vertices && shorter[n - 1] !in committed &&
            shorter[(n - 1) + 1] in d.vertices[shorter[n - 1]].parents;
      }
      forall k | 0 <= k < |path| - 1
        ensures path[k] in d.vertices && path[k] !in committed && path[k + 1] in d.vertices[path[k]].parents
      {
        if k < n {
          assert shorter[k] in d.vertices && shorter[k] !in committed &&
              shorter[k + 1] in d.vertices[shorter[k]].parents;
        }
      }
    }
  }

  /** The anchor's history, once complete, contains every leader that any validator committed. */
  lemma AnchorAbsorbs(
    c: Committee, universe: Vertices, d1: Dag, d2: Dag, leader: Hash, round: nat, anchorLeader: Hash,
    committed2: set<Hash>)
    requires ValidCommittee(c) && AdmittedUniverse(c, universe) && LocalView(universe, d1) && LocalView(universe, d2)
    requires Commits(d1, leader, round, |c.validators|)
    requires AncestorClosed(universe, committed2) && leader !in committed2
    requires anchorLeader in d2.vertices && d2.vertices[anchorLeader].round >= round + 2
    requires forall g :: !Gap(d2, [anchorLeader], committed2, g)
    ensures leader in Uncommitted(d2, [anchorLeader], committed2)
  {
    CommittedLeaderIsRemembered(c, universe, d1, leader, round, anchorLeader);
    var path :| |path| >= 1 && path[0] == anchorLeader && path[|path| - 1] == leader && Walk(universe, {}, path);
    WalkAvoidsClosed(universe, committed2, path);
    assert Reaches(universe, committed2, anchorLeader, leader);
    assert anchorLeader in [anchorLeader];
    assert Met(universe, [anchorLeader], committed2, leader);
    LocalWalksSuffice(universe, d2, [anchorLeader], committed2, leader);
    assert !Gap(d2, [anchorLeader], committed2, leader);
  }

  /** What a settled round may do with a leader some other validator committed. */
  ghost predicate Kept(
    d: Dag, validators: seq<Author>, committed: set<Hash>, covered: set<Hash>, round: nat, leader: Hash)
    requires validators != [] && ValidDag(d)
  {
    || leader in covered
    || exists anchor :: LaterAnchor(d, validators, committed, round, anchor)
                        && leader in Uncommitted(d, [LeaderAt(d, validators, anchor).value], committed)
  }

  /**
   Fork safety of the scan: if any validator's view commits the scheduled leader of a round, no other
   validator's scan drops that leader. The round is not skipped, directly, indirectly or by age,
   unless the leader is already committed there or is absorbed by the anchor's own projection.
   */
  lemma ScanNeverDropsCommittedLeader(
    c: Committee, universe: Vertices, d1: Dag, d2: Dag, validators: seq<Author>,
    leader: Hash, round: nat, committed2: set<Hash>, covered2: set<Hash>)
    requires ValidCommittee(c) && AdmittedUniverse(c, universe) && LocalView(universe, d1) && LocalView(universe, d2)
    requires |validators| == |c.validators|
    requires leader in universe && universe[leader].round == round &&
              universe[leader].author == ScheduledAuthor(validators, round)
    requires Commits(d1, leader, round, |c.validators|)
    requires AncestorClosed(universe, committed2) && ParentsAtHand(d2, committed2) && committed2 <= covered2
    requires MaxRound(d2) >= round + 2
    requires Resolved(d2, validators, committed2, covered2, round)
    ensures Kept(d2, validators, committed2, covered2, round, leader)
  {
    CommittedLeaderIsAtHand(c, universe, d1, d2, leader, round, committed2);
    if leader !in covered2 {
      HeldLeaderIsFound(universe, d2, validators, leader, round);
      CommitExcludesSkip(c, universe, d1, d2, leader, round);
      if exists anchor :: LaterAnchor(d2, validators, committed2, round, anchor) {
        var anchor :| LaterAnchor(d2, validators, committed2, round, anchor);
        var anchorLeader := LeaderAt(d2, validators, anchor).value;
        RoundVerticesExact(d2, anchor, anchorLeader);
        AnchorAbsorbs(c, universe, d1, d2, leader, round, anchorLeader, committed2);
      }
    }
  }

  lemma HeldLeaderIsFound(universe: Vertices, d: Dag, validators: seq<Author>, leader: Hash, round: nat)
    requires validators != [] && LocalView(universe, d) && leader in d.vertices
    requires d.vertices[leader].round == round && d.vertices[leader].author == ScheduledAuthor(validators, round)
    ensures LeaderAt(d, validators, round) == Some(leader)
  {
    RoundVerticesExact(d, round, leader);
    if LeaderAt(d, validators, round).Some? {
      RoundVerticesExact(d, round, LeaderAt(d, validators, round).value);
    }
  }
}
